/** The insert-only probe table from ticker to book index, as a value. */
module SymbolTable {
  import opened Messages
  import opened Probing

  const MAX_SYMBOLS: nat := 512
  const SYMBOL_CAPACITY: nat := 1024

  /** Two parallel arrays; `None` is EMPTY_VAL. */
  datatype Symbols = Symbols(keys: seq<u64>, vals: seq<Option<nat>>, count: nat)

  predicate Shaped(s: Symbols) {
    |s.keys| == |s.vals| == SYMBOL_CAPACITY
  }

  function NoSymbols(): (s: Symbols)
    ensures Shaped(s)
  {
    Symbols(seq(SYMBOL_CAPACITY, _ => 0), seq(SYMBOL_CAPACITY, _ => None), 0)
  }

  /** A probe for `key` stops at an empty slot or at the key. */
  predicate StopsAt(s: Symbols, key: u64, i: nat)
    requires Shaped(s) && i < SYMBOL_CAPACITY
  {
    s.vals[i].None? || s.keys[i] == key
  }

  function SymbolStop(s: Symbols, home: nat, key: u64, d: nat): (r: nat)
    requires Shaped(s) && home < SYMBOL_CAPACITY && d <= SYMBOL_CAPACITY
    ensures d <= r <= SYMBOL_CAPACITY
    ensures forall j :: 0 <= j < SYMBOL_CAPACITY && d <= Dist(home, j, SYMBOL_CAPACITY) < r ==> !StopsAt(s, key, j)
    ensures r < SYMBOL_CAPACITY ==> StopsAt(s, key, At(home, r, SYMBOL_CAPACITY))
    decreases SYMBOL_CAPACITY - d
  {
    if d == SYMBOL_CAPACITY || StopsAt(s, key, At(home, d, SYMBOL_CAPACITY)) then d
    else SymbolStop(s, home, key, d + 1)
  }

  lemma SymbolStopIs(s: Symbols, home: nat, key: u64, d: nat)
    requires Shaped(s) && home < SYMBOL_CAPACITY && d <= SYMBOL_CAPACITY
    requires forall e :: 0 <= e < d ==> !StopsAt(s, key, At(home, e, SYMBOL_CAPACITY))
    requires d < SYMBOL_CAPACITY ==> StopsAt(s, key, At(home, d, SYMBOL_CAPACITY))
    ensures SymbolStop(s, home, key, 0) == d
  {
    if d < SYMBOL_CAPACITY {
      assert Dist(home, At(home, d, SYMBOL_CAPACITY), SYMBOL_CAPACITY) == d;
    }
  }

  /** The slot a probe for `key` ends at, if it ends before a full lap. */
  function SlotFor(h: Hash, s: Symbols, key: u64): (r: Option<nat>)
    requires Shaped(s)
    ensures r.Some? ==> r.value < SYMBOL_CAPACITY && StopsAt(s, key, r.value)
  {
    var home := Home(h(key), SYMBOL_CAPACITY);
    var d := SymbolStop(s, home, key, 0);
    if d == SYMBOL_CAPACITY then None else Some(At(home, d, SYMBOL_CAPACITY))
  }

  function IndexOf(h: Hash, s: Symbols, key: u64): Option<nat>
    requires Shaped(s)
  {
    match SlotFor(h, s, key)
    case None => None
    case Some(i) => s.vals[i]
  }

  /** `find_or_insert_symbol`: the table afterwards and the index, `None` when full. */
  function Resolved(h: Hash, s: Symbols, key: u64): (r: (Symbols, Option<nat>))
    requires Shaped(s)
    ensures Shaped(r.0)
  {
    match SlotFor(h, s, key)
    case None => (s, None)
    case Some(i) =>
      if s.vals[i].Some? then (s, s.vals[i])
      else if s.count >= MAX_SYMBOLS then (s, None)
      else (Symbols(s.keys[i := key], s.vals[i := Some(s.count)], s.count + 1), Some(s.count))
  }

  // ---- what the table means ----

  ghost predicate Placed(s: Symbols, v: nat) {
    exists i :: 0 <= i < |s.vals| && s.vals[i] == Some(v)
  }

  /** No empty slot lies between the home of the key in slot `i` and slot `i`. */
  ghost predicate SymbolReachable(h: Hash, s: Symbols, i: nat)
    requires Shaped(s) && i < SYMBOL_CAPACITY
  {
    var home := Home(h(s.keys[i]), SYMBOL_CAPACITY);
    forall j ::
      0 <= j < SYMBOL_CAPACITY && Dist(home, j, SYMBOL_CAPACITY) < Dist(home, i, SYMBOL_CAPACITY)
      ==> s.vals[j].Some?
  }

  function CountUsed(vals: seq<Option<nat>>): (n: nat)
    ensures n <= |vals|
  {
    if vals == [] then 0 else CountUsed(vals[..|vals| - 1]) + if vals[|vals| - 1].Some? then 1 else 0
  }

  lemma {:induction false} CountUsedUpdate(vals: seq<Option<nat>>, i: nat, v: nat)
    requires i < |vals| && vals[i].None?
    ensures CountUsed(vals[i := Some(v)]) == CountUsed(vals) + 1
  {
    var n := |vals| - 1;
    if i < n {
      assert vals[i := Some(v)][..n] == vals[..n][i := Some(v)];
      CountUsedUpdate(vals[..n], i, v);
    } else {
      assert vals[i := Some(v)][..n] == vals[..n];
    }
  }

  lemma {:induction false} CountUsedFull(vals: seq<Option<nat>>)
    requires forall i :: 0 <= i < |vals| ==> vals[i].Some?
    ensures CountUsed(vals) == |vals|
  {
    if vals != [] { CountUsedFull(vals[..|vals| - 1]); }
  }

  lemma {:induction false} CountUsedNone(vals: seq<Option<nat>>)
    requires forall i :: 0 <= i < |vals| ==> vals[i].None?
    ensures CountUsed(vals) == 0
  {
    if vals != [] { CountUsedNone(vals[..|vals| - 1]); }
  }

  ghost predicate NoRepeats(ks: seq<u64>) {
    forall u, v :: 0 <= u < v < |ks| ==> ks[u] != ks[v]
  }

  /** The table is a bijection between the tickers `ks` and the indices 0 .. |ks| - 1. */
  ghost predicate Represents(h: Hash, s: Symbols, ks: seq<u64>) {
    && Shaped(s) && NoRepeats(ks)
    && s.count == |ks| <= MAX_SYMBOLS
    && CountUsed(s.vals) == s.count
    && (forall i :: 0 <= i < SYMBOL_CAPACITY && s.vals[i].Some? ==>
          s.vals[i].value < |ks| && ks[s.vals[i].value] == s.keys[i])
    && (forall i {:trigger SymbolReachable(h, s, i)} ::
          0 <= i < SYMBOL_CAPACITY && s.vals[i].Some? ==> SymbolReachable(h, s, i))
    && (forall v :: 0 <= v < |ks| ==> Placed(s, v))
  }

  lemma NoSymbolsRepresents(h: Hash)
    ensures Represents(h, NoSymbols(), [])
  {
    CountUsedNone(NoSymbols().vals);
  }

  /** At most half the slots are ever used, so every probe ends before a full lap. */
  lemma ProbeEnds(h: Hash, s: Symbols, ks: seq<u64>, key: u64)
    requires Represents(h, s, ks)
    ensures SlotFor(h, s, key).Some?
  {
    if SlotFor(h, s, key).None? {
      forall i | 0 <= i < SYMBOL_CAPACITY
        ensures s.vals[i].Some?
      {
        assert !StopsAt(s, key, i);
      }
      CountUsedFull(s.vals);
    }
  }

  /** A probe ends no later on its path than any slot it would stop at. */
  lemma SlotForIsFirst(h: Hash, s: Symbols, key: u64, i: nat)
    requires Shaped(s) && i < SYMBOL_CAPACITY
    requires SlotFor(h, s, key).Some?
    ensures var home := Home(h(key), SYMBOL_CAPACITY);
            StopsAt(s, key, i) ==>
              Dist(home, SlotFor(h, s, key).value, SYMBOL_CAPACITY) <= Dist(home, i, SYMBOL_CAPACITY)
  {
    var home := Home(h(key), SYMBOL_CAPACITY);
    assert Dist(home, SlotFor(h, s, key).value, SYMBOL_CAPACITY) == SymbolStop(s, home, key, 0);
  }

  /** A probe for a key that is in use at a reachable slot ends at a used slot holding that key. */
  lemma ProbeFindsUsed(h: Hash, s: Symbols, i: nat)
    requires Shaped(s) && i < SYMBOL_CAPACITY && s.vals[i].Some? && SymbolReachable(h, s, i)
    requires SlotFor(h, s, s.keys[i]).Some?
    ensures var k := SlotFor(h, s, s.keys[i]).value; s.vals[k].Some? && s.keys[k] == s.keys[i]
  {
    SlotForIsFirst(h, s, s.keys[i], i);
  }

  lemma {:induction false} IndexOfKnown(h: Hash, s: Symbols, ks: seq<u64>, v: nat)
    requires Represents(h, s, ks) && v < |ks|
    ensures IndexOf(h, s, ks[v]) == Some(v)
  {
    ProbeEnds(h, s, ks, ks[v]);
    assert Placed(s, v);
    var i :| 0 <= i < |s.vals| && s.vals[i] == Some(v);
    assert SymbolReachable(h, s, i);
    ProbeFindsUsed(h, s, i);
    var k := SlotFor(h, s, ks[v]).value;
    assert ks[s.vals[k].value] == ks[v];
  }

  /** Looking up a known ticker gives its index, and an unknown one nothing. */
  lemma IndexOfExact(h: Hash, s: Symbols, ks: seq<u64>, key: u64)
    requires Represents(h, s, ks)
    ensures key !in ks ==> IndexOf(h, s, key) == None
    ensures forall v :: 0 <= v < |ks| && ks[v] == key ==> IndexOf(h, s, key) == Some(v)
  {
    forall v | 0 <= v < |ks| && ks[v] == key
      ensures IndexOf(h, s, key) == Some(v)
    {
      IndexOfKnown(h, s, ks, v);
    }
  }

  /** A known ticker resolves to its index without change; a new one takes the next
      index while fewer than 512 are known and is refused from then on. */
  lemma ResolvedRepresents(h: Hash, s: Symbols, ks: seq<u64>, key: u64)
    requires Represents(h, s, ks)
    ensures var (s1, r) := Resolved(h, s, key);
            && (key in ks ==> s1 == s && r == IndexOf(h, s, key) && r.Some?)
            && (key !in ks && |ks| < MAX_SYMBOLS ==> r == Some(|ks|) && Represents(h, s1, ks + [key]))
            && (key !in ks && |ks| == MAX_SYMBOLS ==> s1 == s && r == None)
  {
    ProbeEnds(h, s, ks, key);
    IndexOfExact(h, s, ks, key);
    var i := SlotFor(h, s, key).value;
    if key !in ks && |ks| < MAX_SYMBOLS {
      CountUsedUpdate(s.vals, i, |ks|);
      PlacedRepresents(h, s, ks, key, i);
    } else if key in ks {
      var v :| 0 <= v < |ks| && ks[v] == key;
      assert IndexOf(h, s, key) == Some(v);
    }
  }

  lemma {:induction false} PlacedRepresents(h: Hash, s: Symbols, ks: seq<u64>, key: u64, i: nat)
    requires Represents(h, s, ks) && key !in ks && |ks| < MAX_SYMBOLS
    requires SlotFor(h, s, key) == Some(i) && s.vals[i].None?
    requires CountUsed(s.vals[i := Some(|ks|)]) == |ks| + 1
    ensures Represents(h, Symbols(s.keys[i := key], s.vals[i := Some(|ks|)], |ks| + 1), ks + [key])
  {
    var s1 := Symbols(s.keys[i := key], s.vals[i := Some(|ks|)], |ks| + 1);
    forall j | 0 <= j < SYMBOL_CAPACITY && s1.vals[j].Some?
      ensures SymbolReachable(h, s1, j)
    {
      if j == i {
        NewKeyReachable(h, s, key, i, |ks|);
      } else {
        assert SymbolReachable(h, s, j);
      }
    }
    forall v | 0 <= v <= |ks|
      ensures Placed(s1, v)
    {
      if v < |ks| {
        assert Placed(s, v);
        var j :| 0 <= j < |s.vals| && s.vals[j] == Some(v);
        assert s1.vals[j] == Some(v);
      } else {
        assert s1.vals[i] == Some(v);
      }
    }
  }

  lemma NewKeyReachable(h: Hash, s: Symbols, key: u64, i: nat, v: nat)
    requires Shaped(s) && SlotFor(h, s, key) == Some(i)
    ensures SymbolReachable(h, Symbols(s.keys[i := key], s.vals[i := Some(v)], v + 1), i)
  {
    var home := Home(h(key), SYMBOL_CAPACITY);
    forall j | 0 <= j < SYMBOL_CAPACITY
      ensures StopsAt(s, key, j) ==> Dist(home, i, SYMBOL_CAPACITY) <= Dist(home, j, SYMBOL_CAPACITY)
    {
      SlotForIsFirst(h, s, key, j);
    }
  }
}
