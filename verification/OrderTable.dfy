/** The open-addressing table of live orders as a value: what `find`, `insert`,
    `erase` and `rehash` of FlatOrderMap do to the slots, and what the slots mean. */
module OrderTable {
  import opened Messages
  import opened Probing

  const DEFAULT_CAPACITY: nat := 0x10_0000

  const PRISTINE := LiveOrder(0, 0, 0, 0 as char, false)

  datatype Table = Table(slots: seq<LiveOrder>, size: nat)

  /** A slot that no key has ever used: unoccupied and still holding the EMPTY reference. */
  predicate Pristine(o: LiveOrder) {
    !o.occupied && o.ref == 0
  }

  /** The three stopping rules of the probe loops: `find`/`erase`, `insert`, and the inner loop of `rehash`. */
  datatype Probe = Lookup(key: u64) | Placement(key: u64) | Hole

  predicate Stops(p: Probe, o: LiveOrder) {
    match p
    case Lookup(k) => if o.occupied then o.ref == k else o.ref == 0
    case Placement(k) => !o.occupied || o.ref == k
    case Hole => !o.occupied
  }

  /** The first step at or after `d` whose slot stops the probe, or the capacity if none does. */
  function FirstStop(s: seq<LiveOrder>, home: nat, p: Probe, d: nat): (r: nat)
    requires home < |s| && d <= |s|
    ensures d <= r <= |s|
    ensures forall j :: 0 <= j < |s| && d <= Dist(home, j, |s|) < r ==> !Stops(p, s[j])
    ensures r < |s| ==> Stops(p, s[At(home, r, |s|)])
    decreases |s| - d
  {
    if d == |s| || Stops(p, s[At(home, d, |s|)]) then d else FirstStop(s, home, p, d + 1)
  }

  /** The slot `find` returns. */
  function Locate(h: Hash, s: seq<LiveOrder>, key: u64): (r: Option<nat>)
    requires |s| > 0
    ensures r.Some? ==> r.value < |s| && s[r.value].occupied && s[r.value].ref == key
  {
    var home := Home(h(key), |s|);
    var d := FirstStop(s, home, Lookup(key), 0);
    if d < |s| && s[At(home, d, |s|)].occupied then Some(At(home, d, |s|)) else None
  }

  /** A probe that exhausts its bound has seen every slot, so it proves absence; and conversely. */
  lemma ExhaustedProbeProvesAbsence(s: seq<LiveOrder>, home: nat, p: Probe)
    requires home < |s|
    ensures FirstStop(s, home, p, 0) == |s| <==> forall i :: 0 <= i < |s| ==> !Stops(p, s[i])
  {
  }

  function CountOccupied(s: seq<LiveOrder>): (n: nat)
    ensures n <= |s|
  {
    if s == [] then 0 else CountOccupied(s[..|s| - 1]) + if s[|s| - 1].occupied then 1 else 0
  }

  lemma CountUpdate(s: seq<LiveOrder>, i: nat, o: LiveOrder)
    requires i < |s|
    ensures CountOccupied(s[i := o]) ==
            CountOccupied(s) - (if s[i].occupied then 1 else 0) + (if o.occupied then 1 else 0)
  {
    var n := |s| - 1;
    if i < n {
      assert s[i := o][..n] == s[..n][i := o];
      CountUpdate(s[..n], i, o);
    } else {
      assert s[i := o][..n] == s[..n];
    }
  }

  lemma CountFull(s: seq<LiveOrder>)
    requires forall i :: 0 <= i < |s| ==> s[i].occupied
    ensures CountOccupied(s) == |s|
  {
  }

  lemma CountNone(s: seq<LiveOrder>)
    requires forall i :: 0 <= i < |s| ==> !s[i].occupied
    ensures CountOccupied(s) == 0
  {
  }

  /** With an unoccupied slot left, the unbounded placement loops stop within one lap. */
  lemma PlacementStops(s: seq<LiveOrder>, home: nat, p: Probe)
    requires home < |s| && !p.Lookup? && CountOccupied(s) < |s|
    ensures FirstStop(s, home, p, 0) < |s|
  {
    if FirstStop(s, home, p, 0) == |s| {
      CountFull(s);
    }
  }

  // ---- what the slots mean ----

  /** No pristine slot lies between the home of the key in slot `i` and slot `i`. */
  ghost predicate Reachable(h: Hash, s: seq<LiveOrder>, i: nat)
    requires i < |s|
  {
    var home := Home(h(s[i].ref), |s|);
    forall j :: 0 <= j < |s| && Dist(home, j, |s|) < Dist(home, i, |s|) ==> !Pristine(s[j])
  }

  ghost predicate PathOk(h: Hash, s: seq<LiveOrder>) {
    forall i {:trigger Reachable(h, s, i)} :: 0 <= i < |s| && s[i].occupied ==> Reachable(h, s, i)
  }

  ghost predicate Unique(s: seq<LiveOrder>) {
    forall i, j ::
      0 <= i < |s| && 0 <= j < |s| && s[i].occupied && s[j].occupied && s[i].ref == s[j].ref ==> i == j
  }

  function ToOrder(o: LiveOrder): Order {
    Order(o.side, o.price, o.remaining)
  }

  /** The map from order reference to order that the slots stand for. */
  function View(s: seq<LiveOrder>): map<u64, Order> {
    if s == [] then map[] else
    var o := s[|s| - 1];
    var m := View(s[..|s| - 1]);
    if o.occupied then m[o.ref := ToOrder(o)] else m
  }

  lemma {:induction false} ViewHolds(s: seq<LiveOrder>, i: nat)
    requires Unique(s) && i < |s| && s[i].occupied
    ensures s[i].ref in View(s) && View(s)[s[i].ref] == ToOrder(s[i])
  {
    if i < |s| - 1 {
      ViewHolds(s[..|s| - 1], i);
    }
  }

  lemma {:induction false} ViewComesFrom(s: seq<LiveOrder>, key: u64) returns (i: nat)
    requires key in View(s)
    ensures i < |s| && s[i].occupied && s[i].ref == key
  {
    var o := s[|s| - 1];
    if o.occupied && o.ref == key {
      i := |s| - 1;
    } else {
      i := ViewComesFrom(s[..|s| - 1], key);
    }
  }

  /** `find` is exact: it reaches the slot holding the key whenever there is one,
      even in a table with no pristine slot left. */
  lemma LocateExact(h: Hash, s: seq<LiveOrder>, key: u64, i: nat)
    requires |s| > 0 && PathOk(h, s) && Unique(s)
    requires i < |s| && s[i].occupied && s[i].ref == key
    ensures Locate(h, s, key) == Some(i)
  {
    var home := Home(h(key), |s|);
    var d := FirstStop(s, home, Lookup(key), 0);
    assert Reachable(h, s, i);
    assert Stops(Lookup(key), s[i]);
    assert d <= Dist(home, i, |s|);
    var j := At(home, d, |s|);
    assert Dist(home, j, |s|) == d;
  }

  lemma {:induction false} LocateView(h: Hash, s: seq<LiveOrder>, key: u64)
    requires |s| > 0 && PathOk(h, s) && Unique(s)
    ensures Locate(h, s, key).Some? <==> key in View(s)
    ensures Locate(h, s, key).Some? ==> View(s)[key] == ToOrder(s[Locate(h, s, key).value])
  {
    if key in View(s) {
      var i := ViewComesFrom(s, key);
      LocateExact(h, s, key, i);
    }
    var r := Locate(h, s, key);
    if r.Some? {
      ViewHolds(s, r.value);
    }
  }

  // ---- the operations ----

  /** What every operation keeps, whatever the keys: `size` counts the occupied slots. */
  ghost predicate Counted(t: Table) {
    0 < |t.slots| && t.size == CountOccupied(t.slots)
  }

  function EmptyTable(capacity: nat): (t: Table)
    requires capacity > 0
    ensures Counted(t) && |t.slots| == capacity
  {
    var slots := seq(capacity, _ => PRISTINE);
    CountNone(slots);
    Table(slots, 0)
  }

  function Tombstone(o: LiveOrder): LiveOrder {
    o.(occupied := false, ref := TOMBSTONE)
  }

  function Erased(h: Hash, t: Table, key: u64): (r: Table)
    requires Counted(t)
    ensures Counted(r) && |r.slots| == |t.slots| && r.size <= t.size
  {
    match Locate(h, t.slots, key)
    case None => t
    case Some(i) =>
      CountUpdate(t.slots, i, Tombstone(t.slots[i]));
      Table(t.slots[i := Tombstone(t.slots[i])], t.size - 1)
  }

  lemma ErasedSlot(h: Hash, t: Table, key: u64)
    requires Counted(t)
    ensures var r := Locate(h, t.slots, key);
            Erased(h, t, key) == if r.None? then t
                                 else Table(t.slots[r.value := Tombstone(t.slots[r.value])], t.size - 1)
  {
  }

  /** An erased slot is left unoccupied under the tombstone reference, and no other slot changes. */
  lemma ErasedMarks(h: Hash, t: Table, key: u64)
    requires Counted(t) && Locate(h, t.slots, key).Some?
    ensures var (i, r) := (Locate(h, t.slots, key).value, Erased(h, t, key));
            && !r.slots[i].occupied && r.slots[i].ref == 0xFFFF_FFFF_FFFF_FFFF && r.size == t.size - 1
            && forall j :: 0 <= j < |t.slots| && j != i ==> r.slots[j] == t.slots[j]
  {
    ErasedSlot(h, t, key);
  }

  /** Where a placement loop stops; it always does while a slot is unoccupied. */
  function StopSlot(h: Hash, s: seq<LiveOrder>, p: Probe, key: u64): (i: nat)
    requires !p.Lookup? && CountOccupied(s) < |s|
    ensures i < |s| && Stops(p, s[i])
    ensures forall j :: 0 <= j < |s| && Dist(Home(h(key), |s|), j, |s|) < Dist(Home(h(key), |s|), i, |s|)
                        ==> !Stops(p, s[j])
  {
    var home := Home(h(key), |s|);
    PlacementStops(s, home, p);
    At(home, FirstStop(s, home, p, 0), |s|)
  }

  /** The copying loop of `rehash` from slot `i` of the old table on. */
  function CopiedFrom(h: Hash, src: seq<LiveOrder>, i: nat, dst: seq<LiveOrder>): (r: seq<LiveOrder>)
    requires i <= |src| < |dst|
    requires CountOccupied(dst) == CountOccupied(src[..i])
    ensures |r| == |dst| && CountOccupied(r) == CountOccupied(src)
    decreases |src| - i
  {
    if i == |src| then
      assert src[..i] == src;
      dst
    else
      assert src[..i + 1][..i] == src[..i];
      if src[i].occupied then
        var k := StopSlot(h, dst, Hole, src[i].ref);
        CountUpdate(dst, k, src[i]);
        CopiedFrom(h, src, i + 1, dst[k := src[i]])
      else
        CopiedFrom(h, src, i + 1, dst)
  }

  function Rehashed(h: Hash, t: Table): (r: Table)
    requires Counted(t)
    ensures Counted(r) && |r.slots| == 2 * |t.slots| && r.size == t.size
  {
    assert t.slots[..0] == [];
    Table(CopiedFrom(h, t.slots, 0, EmptyTable(2 * |t.slots|).slots), t.size)
  }

  /** `insert` doubles the table first when it is at least three quarters full. */
  function MadeRoom(h: Hash, t: Table): (r: Table)
    requires Counted(t)
    ensures Counted(r) && r.size == t.size < |r.slots|
    ensures |r.slots| == if t.size * 4 >= |t.slots| * 3 then 2 * |t.slots| else |t.slots|
  {
    if t.size * 4 >= |t.slots| * 3 then Rehashed(h, t) else t
  }

  function Inserted(h: Hash, t: Table, key: u64, o: LiveOrder): (r: Table)
    requires Counted(t)
    ensures Counted(r) && |r.slots| == |MadeRoom(h, t).slots| && t.size <= r.size <= t.size + 1
  {
    var t1 := MadeRoom(h, t);
    var i := StopSlot(h, t1.slots, Placement(key), key);
    var o1 := o.(ref := key, occupied := true);
    CountUpdate(t1.slots, i, o1);
    Table(t1.slots[i := o1], t1.size + if t1.slots[i].occupied then 0 else 1)
  }

  lemma InsertedSlot(h: Hash, t: Table, key: u64, o: LiveOrder, i: nat)
    requires Counted(t) && i == StopSlot(h, MadeRoom(h, t).slots, Placement(key), key)
    ensures var t1 := MadeRoom(h, t);
            Inserted(h, t, key, o) == Table(
              t1.slots[i := o.(ref := key, occupied := true)],
              t1.size + if t1.slots[i].occupied then 0 else 1)
  {
  }

  // ---- what the operations mean ----

  ghost predicate TableOk(h: Hash, t: Table) {
    Counted(t) && PathOk(h, t.slots) && Unique(t.slots)
  }

  /** Filling a slot keeps the probe paths if every slot nearer to the key's home was in use. */
  lemma FillKeepsPath(h: Hash, s: seq<LiveOrder>, i: nat, o: LiveOrder)
    requires i < |s| && PathOk(h, s) && o.occupied
    requires forall j :: 0 <= j < |s| && Dist(Home(h(o.ref), |s|), j, |s|) < Dist(Home(h(o.ref), |s|), i, |s|)
                         ==> s[j].occupied
    ensures PathOk(h, s[i := o])
  {
    var s1 := s[i := o];
    forall k | 0 <= k < |s1| && s1[k].occupied
      ensures Reachable(h, s1, k)
    {
      if k != i { assert Reachable(h, s, k); }
    }
  }

  /** Rewriting a slot without making it pristine or changing its key keeps the probe paths. */
  lemma RewriteKeepsPath(h: Hash, s: seq<LiveOrder>, i: nat, o: LiveOrder)
    requires i < |s| && PathOk(h, s) && !Pristine(o)
    requires o.occupied ==> s[i].occupied && o.ref == s[i].ref
    ensures PathOk(h, s[i := o])
  {
    var s1 := s[i := o];
    forall k | 0 <= k < |s1| && s1[k].occupied
      ensures Reachable(h, s1, k)
    {
      assert Reachable(h, s, k);
    }
  }

  lemma FillUnique(s: seq<LiveOrder>, i: nat, o: LiveOrder)
    requires i < |s| && Unique(s) && o.occupied
    requires if s[i].occupied then s[i].ref == o.ref else o.ref !in View(s)
    ensures Unique(s[i := o])
  {
    forall j | 0 <= j < |s| && s[j].occupied
      ensures s[j].ref in View(s)
    {
      ViewHolds(s, j);
    }
  }

  lemma FillView(s: seq<LiveOrder>, i: nat, o: LiveOrder)
    requires i < |s| && Unique(s) && o.occupied
    requires if s[i].occupied then s[i].ref == o.ref else o.ref !in View(s)
    ensures Unique(s[i := o]) && View(s[i := o]) == View(s)[o.ref := ToOrder(o)]
  {
    FillUnique(s, i, o);
    var s1, m := s[i := o], View(s)[o.ref := ToOrder(o)];
    forall k | k in m
      ensures k in View(s1) && View(s1)[k] == m[k]
    {
      if k == o.ref {
        ViewHolds(s1, i);
      } else {
        var j := ViewComesFrom(s, k);
        ViewHolds(s, j);
        ViewHolds(s1, j);
      }
    }
    forall k | k in View(s1)
      ensures k in m
    {
      var j := ViewComesFrom(s1, k);
      if j != i { ViewHolds(s, j); }
    }
  }

  lemma EraseView(s: seq<LiveOrder>, i: nat, o: LiveOrder)
    requires i < |s| && Unique(s) && s[i].occupied && !o.occupied
    ensures Unique(s[i := o]) && View(s[i := o]) == View(s) - {s[i].ref}
  {
    var s1, m := s[i := o], View(s) - {s[i].ref};
    forall k | k in m
      ensures k in View(s1) && View(s1)[k] == m[k]
    {
      var j := ViewComesFrom(s, k);
      ViewHolds(s, j);
      ViewHolds(s1, j);
    }
    forall k | k in View(s1)
      ensures k in m
    {
      var j := ViewComesFrom(s1, k);
      ViewHolds(s, j);
    }
  }

  lemma ErasedRefines(h: Hash, t: Table, key: u64)
    requires TableOk(h, t)
    ensures TableOk(h, Erased(h, t, key))
    ensures View(Erased(h, t, key).slots) == View(t.slots) - {key}
  {
    LocateView(h, t.slots, key);
    match Locate(h, t.slots, key)
    case None =>
    case Some(i) =>
      var o := Tombstone(t.slots[i]);
      assert Erased(h, t, key).slots == t.slots[i := o];
      RewriteKeepsPath(h, t.slots, i, o);
      EraseView(t.slots, i, o);
  }

  /** A table with no tombstones: every slot is occupied or was never used. */
  ghost predicate NoTombstones(s: seq<LiveOrder>) {
    forall i :: 0 <= i < |s| && !s[i].occupied ==> Pristine(s[i])
  }

  lemma {:induction false} CopiedFromRefines(h: Hash, src: seq<LiveOrder>, i: nat, dst: seq<LiveOrder>)
    requires i <= |src| < |dst| && CountOccupied(dst) == CountOccupied(src[..i])
    requires Unique(src) && Unique(dst) && PathOk(h, dst) && NoTombstones(dst)
    requires View(dst) == View(src[..i])
    ensures var r := CopiedFrom(h, src, i, dst);
            PathOk(h, r) && Unique(r) && NoTombstones(r) && View(r) == View(src)
    decreases |src| - i
  {
    if i == |src| {
      assert src[..i] == src;
    } else {
      assert src[..i + 1][..i] == src[..i];
      if src[i].occupied {
        var k := StopSlot(h, dst, Hole, src[i].ref);
        if src[i].ref in View(src[..i]) {
          var j := ViewComesFrom(src[..i], src[i].ref);
          assert false;
        }
        CountUpdate(dst, k, src[i]);
        FillKeepsPath(h, dst, k, src[i]);
        FillView(dst, k, src[i]);
        PrefixView(src, i);
        CopiedFromRefines(h, src, i + 1, dst[k := src[i]]);
      } else {
        PrefixView(src, i);
        CopiedFromRefines(h, src, i + 1, dst);
      }
    }
  }

  lemma PrefixView(s: seq<LiveOrder>, i: nat)
    requires i < |s|
    ensures View(s[..i + 1]) == if s[i].occupied then View(s[..i])[s[i].ref := ToOrder(s[i])] else View(s[..i])
  {
    assert s[..i + 1][..i] == s[..i];
  }

  /** Doubling keeps exactly the live entries and `size`, re-establishes the probe
      paths in the fresh table, and drops every tombstone. */
  lemma RehashedRefines(h: Hash, t: Table)
    requires Counted(t) && Unique(t.slots)
    ensures TableOk(h, Rehashed(h, t)) && NoTombstones(Rehashed(h, t).slots)
    ensures View(Rehashed(h, t).slots) == View(t.slots)
  {
    assert t.slots[..0] == [];
    EmptyTableOk(h, 2 * |t.slots|);
    CopiedFromRefines(h, t.slots, 0, EmptyTable(2 * |t.slots|).slots);
  }

  lemma MadeRoomRefines(h: Hash, t: Table)
    requires TableOk(h, t)
    ensures TableOk(h, MadeRoom(h, t)) && View(MadeRoom(h, t).slots) == View(t.slots)
  {
    RehashedRefines(h, t);
  }

  /** Inserting a key that is not live adds exactly that entry. */
  lemma InsertedRefines(h: Hash, t: Table, key: u64, o: LiveOrder)
    requires TableOk(h, t) && key !in View(t.slots)
    ensures TableOk(h, Inserted(h, t, key, o))
    ensures View(Inserted(h, t, key, o).slots) == View(t.slots)[key := ToOrder(o)]
  {
    MadeRoomRefines(h, t);
    var s := MadeRoom(h, t).slots;
    var i := StopSlot(h, s, Placement(key), key);
    InsertedSlot(h, t, key, o, i);
    PlacedFresh(h, s, key, o.(ref := key, occupied := true), i);
  }

  lemma PlacedFresh(h: Hash, s: seq<LiveOrder>, key: u64, o: LiveOrder, i: nat)
    requires PathOk(h, s) && Unique(s) && key !in View(s) && o.occupied && o.ref == key
    requires CountOccupied(s) < |s| && i == StopSlot(h, s, Placement(key), key)
    ensures PathOk(h, s[i := o]) && Unique(s[i := o]) && View(s[i := o]) == View(s)[key := ToOrder(o)]
  {
    if s[i].occupied {
      ViewHolds(s, i);
      assert false;
    }
    FillKeepsPath(h, s, i, o);
    FillView(s, i, o);
  }

  /** At most three quarters full between operations. */
  ghost predicate LoadOk(t: Table) {
    Counted(t) && |t.slots| % 4 == 0 && t.size * 4 <= |t.slots| * 3
  }

  /** The load check keeps a quarter of the slots unoccupied, so placement always finds room. */
  lemma LoadKept(h: Hash, t: Table, key: u64, o: LiveOrder)
    requires LoadOk(t)
    ensures LoadOk(Inserted(h, t, key, o)) && LoadOk(Erased(h, t, key))
    ensures MadeRoom(h, t).size * 4 < |MadeRoom(h, t).slots| * 3
  {
    RoomLeft(|t.slots|, t.size);
    assert |MadeRoom(h, t).slots| == if t.size * 4 >= |t.slots| * 3 then 2 * |t.slots| else |t.slots|;
  }

  lemma {:induction false} RoomLeft(n: nat, size: nat)
    requires 0 < n && n % 4 == 0 && size * 4 <= n * 3
    ensures var n1 := if size * 4 >= n * 3 then 2 * n else n;
            n1 % 4 == 0 && size * 4 < n1 * 3 && (size + 1) * 4 <= n1 * 3
  {
    var k := n / 4;
    assert n == 4 * k && 2 * n == 4 * (2 * k);
  }

  // ---- inserting a key that is already live ----

  /** Every slot the probe passes before it reaches the live key is in use. */
  ghost predicate ReachesKey(h: Hash, s: seq<LiveOrder>, key: u64)
    requires |s| > 0
  {
    var home := Home(h(key), |s|);
    forall j :: 0 <= j < |s| && (forall i :: 0 <= i < |s| && s[i].occupied && s[i].ref == key
                                       ==> Dist(home, j, |s|) < Dist(home, i, |s|))
                ==> s[j].occupied
  }

  /** `insert` reuses the first unoccupied slot without looking further, so re-inserting a
      live key overwrites it exactly when no erased slot precedes it on its probe path;
      otherwise the table ends up holding the key twice. */
  lemma ReinsertIffReached(h: Hash, t: Table, key: u64, o: LiveOrder)
    requires TableOk(h, t) && key in View(t.slots)
    ensures Unique(Inserted(h, t, key, o).slots) <==> ReachesKey(h, MadeRoom(h, t).slots, key)
    ensures Unique(Inserted(h, t, key, o).slots) ==>
              View(Inserted(h, t, key, o).slots) == View(t.slots)[key := ToOrder(o)]
  {
    MadeRoomRefines(h, t);
    var s := MadeRoom(h, t).slots;
    var home := Home(h(key), |s|);
    var i := ViewComesFrom(s, key);
    var k := StopSlot(h, s, Placement(key), key);
    var o1 := o.(ref := key, occupied := true);
    StopSlotAtKey(h, s, key, i);
    if k == i {
      FillView(s, i, o1);
    } else {
      var s1 := s[k := o1];
      assert s1[k].ref == s1[i].ref && s1[k].occupied && s1[i].occupied;
    }
  }

  lemma StopSlotAtKey(h: Hash, s: seq<LiveOrder>, key: u64, i: nat)
    requires CountOccupied(s) < |s| && Unique(s)
    requires i < |s| && s[i].occupied && s[i].ref == key
    ensures StopSlot(h, s, Placement(key), key) == i <==> ReachesKey(h, s, key)
  {
    var home := Home(h(key), |s|);
    var k := StopSlot(h, s, Placement(key), key);
    assert Stops(Placement(key), s[i]);
    assert Dist(home, k, |s|) <= Dist(home, i, |s|);
    if k != i {
      assert !s[k].occupied && Dist(home, k, |s|) < Dist(home, i, |s|);
    }
  }

  // ---- runs ----

  datatype TableOp = FindOp(key: u64) | EraseOp(key: u64) | InsertOp(key: u64, order: LiveOrder)

  function Found(h: Hash, t: Table, key: u64): Option<Order>
    requires Counted(t)
  {
    match Locate(h, t.slots, key)
    case None => None
    case Some(i) => Some(ToOrder(t.slots[i]))
  }

  /** The table and the answers of the `find`s after a sequence of operations. */
  function RunTable(h: Hash, t: Table, ops: seq<TableOp>): (r: (Table, seq<Option<Order>>))
    requires Counted(t)
    ensures Counted(r.0)
    decreases ops
  {
    if ops == [] then (t, []) else
    match ops[0]
    case FindOp(k) => var r := RunTable(h, t, ops[1..]); (r.0, [Found(h, t, k)] + r.1)
    case EraseOp(k) => RunTable(h, Erased(h, t, k), ops[1..])
    case InsertOp(k, o) => RunTable(h, Inserted(h, t, k, o), ops[1..])
  }

  /** The same operations on a plain finite map. */
  ghost function RunMap(m: map<u64, Order>, ops: seq<TableOp>): (map<u64, Order>, seq<Option<Order>>)
    decreases ops
  {
    if ops == [] then (m, []) else
    match ops[0]
    case FindOp(k) =>
      var r := RunMap(m, ops[1..]); (r.0, [if k in m then Some(m[k]) else None] + r.1)
    case EraseOp(k) => RunMap(m - {k}, ops[1..])
    case InsertOp(k, o) => RunMap(m[k := ToOrder(o)], ops[1..])
  }

  /** No insertion of a key that is live at that moment. */
  ghost predicate FreshInserts(m: map<u64, Order>, ops: seq<TableOp>)
    decreases ops
  {
    ops == [] ||
    match ops[0]
    case FindOp(_) => FreshInserts(m, ops[1..])
    case EraseOp(k) => FreshInserts(m - {k}, ops[1..])
    case InsertOp(k, o) => k !in m && FreshInserts(m[k := ToOrder(o)], ops[1..])
  }

  lemma {:induction false} RunFrom(h: Hash, t: Table, ops: seq<TableOp>)
    requires TableOk(h, t) && FreshInserts(View(t.slots), ops)
    ensures TableOk(h, RunTable(h, t, ops).0)
    ensures View(RunTable(h, t, ops).0.slots) == RunMap(View(t.slots), ops).0
    ensures RunTable(h, t, ops).1 == RunMap(View(t.slots), ops).1
    decreases ops
  {
    if ops != [] {
      match ops[0]
      case FindOp(k) =>
        LocateView(h, t.slots, k);
        RunFrom(h, t, ops[1..]);
      case EraseOp(k) =>
        ErasedRefines(h, t, k);
        RunFrom(h, Erased(h, t, k), ops[1..]);
      case InsertOp(k, o) =>
        InsertedRefines(h, t, k, o);
        RunFrom(h, Inserted(h, t, k, o), ops[1..]);
    }
  }

  lemma {:induction false} ViewNone(s: seq<LiveOrder>)
    requires forall i :: 0 <= i < |s| ==> !s[i].occupied
    ensures View(s) == map[]
  {
    if s != [] {
      ViewNone(s[..|s| - 1]);
    }
  }

  lemma EmptyTableOk(h: Hash, capacity: nat)
    requires capacity > 0
    ensures TableOk(h, EmptyTable(capacity)) && View(EmptyTable(capacity).slots) == map[]
    ensures NoTombstones(EmptyTable(capacity).slots)
  {
    ViewNone(EmptyTable(capacity).slots);
  }

  /** Over every sequence of finds, erases and insertions of non-live keys, across any number of
      rehashes and for all 64-bit keys, the table answers and ends as a finite map does. */
  lemma TableRefinesMap(h: Hash, capacity: nat, ops: seq<TableOp>)
    requires capacity > 0 && FreshInserts(map[], ops)
    ensures var (t, answers) := RunTable(h, EmptyTable(capacity), ops);
            && TableOk(h, t)
            && View(t.slots) == RunMap(map[], ops).0
            && answers == RunMap(map[], ops).1
            && t.size == |RunMap(map[], ops).0|
  {
    EmptyTableOk(h, capacity);
    RunFrom(h, EmptyTable(capacity), ops);
    SizeIsLiveKeys(RunTable(h, EmptyTable(capacity), ops).0.slots);
  }

  lemma {:induction false} SizeIsLiveKeys(s: seq<LiveOrder>)
    requires Unique(s)
    ensures |View(s)| == CountOccupied(s)
  {
    if s != [] {
      var i := |s| - 1;
      var a := s[..i];
      SizeIsLiveKeys(a);
      if s[i].occupied && s[i].ref in View(a) {
        var j := ViewComesFrom(a, s[i].ref);
        assert false;
      }
    }
  }

  /** Insertion takes slot `d` of its probe path when the slots before it hold other keys. */
  lemma InsertedAfter(h: Hash, t: Table, key: u64, o: LiveOrder, d: nat)
    requires Counted(t) && t.size * 4 < |t.slots| * 3 && d < |t.slots|
    requires var home := Home(h(key), |t.slots|);
             && !t.slots[At(home, d, |t.slots|)].occupied
             && forall e :: 0 <= e < d ==> var x := t.slots[At(home, e, |t.slots|)]; x.occupied && x.ref != key
    ensures Inserted(h, t, key, o) == Table(
              t.slots[At(Home(h(key), |t.slots|), d, |t.slots|) := o.(ref := key, occupied := true)], t.size + 1)
  {
    var n, home := |t.slots|, Home(h(key), |t.slots|);
    var i, k := StopSlot(h, t.slots, Placement(key), key), At(home, d, n);
    assert Stops(Placement(key), t.slots[k]) && Dist(home, k, n) == d;
    assert At(home, Dist(home, i, n), n) == i;
    assert i == k;
  }

  lemma ErasedAtHome(h: Hash, t: Table, key: u64)
    requires Counted(t)
    requires var x := t.slots[Home(h(key), |t.slots|)]; x.occupied && x.ref == key
    ensures var home := Home(h(key), |t.slots|);
            Erased(h, t, key) == Table(t.slots[home := Tombstone(t.slots[home])], t.size - 1)
  {
    var home := Home(h(key), |t.slots|);
    assert At(home, 0, |t.slots|) == home;
    assert FirstStop(t.slots, home, Lookup(key), 0) == 0;
  }

  /** Two keys with a common home, placed side by side, and the first of them erased. */
  lemma TombstoneBefore(h: Hash, n: nat, k1: u64, k2: u64, o: LiveOrder) returns (t: Table)
    requires n >= 2 && k1 != k2 && Home(h(k1), n) == Home(h(k2), n)
    ensures t == Erased(h, Inserted(h, Inserted(h, EmptyTable(n), k1, o), k2, o), k1)
    ensures |t.slots| == n && t.size == 1
    ensures var home := Home(h(k2), n);
            && t.slots[home] == Tombstone(o.(ref := k1, occupied := true))
            && t.slots[At(home, 1, n)] == o.(ref := k2, occupied := true)
  {
    var home, t0 := Home(h(k2), n), EmptyTable(n);
    assert At(home, 0, n) == home != At(home, 1, n);
    InsertedAfter(h, t0, k1, o, 0);
    var t1 := Inserted(h, t0, k1, o);
    InsertedAfter(h, t1, k2, o, 1);
    var t2 := Inserted(h, t1, k2, o);
    ErasedAtHome(h, t2, k1);
    t := Erased(h, t2, k1);
  }

  /** The table after one operation, whatever it answers. */
  function After(h: Hash, t: Table, op: TableOp): (r: Table)
    requires Counted(t)
    ensures Counted(r)
  {
    match op
    case FindOp(_) => t
    case EraseOp(k) => Erased(h, t, k)
    case InsertOp(k, o) => Inserted(h, t, k, o)
  }

  lemma {:induction false} HeldTwice(h: Hash, n: nat, k1: u64, k2: u64, o: LiveOrder)
    requires n >= 2 && k1 != k2 && Home(h(k1), n) == Home(h(k2), n)
    ensures !Unique(After(h, After(h, After(h, After(h, EmptyTable(n), InsertOp(k1, o)), InsertOp(k2, o)),
                                   EraseOp(k1)), InsertOp(k2, o)).slots)
  {
    var home := Home(h(k2), n);
    var t3 := TombstoneBefore(h, n, k1, k2, o);
    assert t3 == After(h, After(h, After(h, EmptyTable(n), InsertOp(k1, o)), InsertOp(k2, o)), EraseOp(k1));
    InsertedAfter(h, t3, k2, o, 0);
    var t4 := Inserted(h, t3, k2, o);
    assert t4.slots[home].ref == t4.slots[At(home, 1, n)].ref == k2;
  }

  lemma {:induction false} RunNext(h: Hash, t: Table, ops: seq<TableOp>)
    requires Counted(t) && ops != []
    ensures RunTable(h, t, ops).0 == RunTable(h, After(h, t, ops[0]), ops[1..]).0
  {
  }

  lemma {:induction false} RunFour(h: Hash, t: Table, a: TableOp, b: TableOp, c: TableOp, d: TableOp)
    requires Counted(t)
    ensures RunTable(h, t, [a, b, c, d]).0 == After(h, After(h, After(h, After(h, t, a), b), c), d)
  {
    var t1 := After(h, t, a);
    var t2 := After(h, t1, b);
    var t3 := After(h, t2, c);
    RunNext(h, t, [a, b, c, d]);
    RunNext(h, t1, [b, c, d]);
    RunNext(h, t2, [c, d]);
    RunNext(h, t3, [d]);
    assert [a, b, c, d][1..] == [b, c, d] && [b, c, d][1..] == [c, d] && [c, d][1..] == [d] && [d][1..] == [];
  }

  lemma {:induction false} TwiceAfterRun(h: Hash, t: Table, ops: seq<TableOp>)
    requires Counted(t) && |ops| == 4
    requires !Unique(After(h, After(h, After(h, After(h, t, ops[0]), ops[1]), ops[2]), ops[3]).slots)
    ensures !Unique(RunTable(h, t, ops).0.slots)
  {
    RunFour(h, t, ops[0], ops[1], ops[2], ops[3]);
    assert ops == [ops[0], ops[1], ops[2], ops[3]];
  }

  /** The trap is reachable at every capacity and for every two keys that share a home slot: insert both,
      erase the first, and inserting the second again leaves it in two slots. */
  lemma {:induction false} ReinsertCanDuplicate(h: Hash, n: nat, k1: u64, k2: u64, o: LiveOrder)
    returns (ops: seq<TableOp>)
    requires n >= 2 && k1 != k2 && Home(h(k1), n) == Home(h(k2), n)
    ensures ops == [InsertOp(k1, o), InsertOp(k2, o), EraseOp(k1), InsertOp(k2, o)]
    ensures !Unique(RunTable(h, EmptyTable(n), ops).0.slots)
  {
    HeldTwice(h, n, k1, k2, o);
    ops := [InsertOp(k1, o), InsertOp(k2, o), EraseOp(k1), InsertOp(k2, o)];
    TwiceAfterRun(h, EmptyTable(n), ops);
  }
}
