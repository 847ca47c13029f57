/** The broadcast journal as a small-step protocol: one producer, any number of readers. A publication is
    split at the payload copy and the index store, and a read at the load of the index, the use of
    the payload in place, and the advance of the cursor. */
module JournalProtocol {
  import opened Messages
  import opened Rings

  /** A slot with the sequence number of the publication that last touched it, -1 if none did. */
  datatype Cell<T> = Cell(tag: int, item: T)

  /** `JLoaded` holds the reader progress that `try_publish` loaded. From `JWriting` on the slot
      of the next sequence number is being overwritten. */
  datatype Writer<T> = JIdle | JLoaded(item: T, seenMin: nat) | JWriting(item: T) | JWritten(item: T)

  /** `limit` is the published index last loaded; `using` is the payload being used in place;
      `seen` records every payload used so far. */
  datatype Reader<T> = Reader(cursor: nat, limit: nat, using: Option<Cell<T>>, seen: seq<Cell<T>>)

  /** `log` records what was published: item s is the one published as sequence s. */
  datatype Journal<T> = Journal(
    cap: nat, cells: seq<Cell<T>>, published: nat, minSeq: nat,
    writer: Writer<T>, readers: seq<Reader<T>>, log: seq<T>)

  /** JBegin starts the copy of an unconditional `publish`; JTry and JCheck are `try_publish`.
      JReport is a completed `report_consumer_progress`. */
  datatype Action<T> =
    | JBegin(item: T, part: T) | JTry(item: T) | JCheck(part: T) | JScribble(part: T) | JWrite | JStore
    | RLoad(c: nat) | RUse(c: nat) | RAdvance(c: nat) | JReport(value: nat)

  predicate Shaped<T>(j: Journal<T>) {
    0 < j.cap == |j.cells|
  }

  /** `sequence - min_seq >= Capacity` on unsigned words: a progress beyond the sequence wraps and refuses. */
  predicate Refused<T>(j: Journal<T>)
    requires j.writer.JLoaded?
  {
    j.writer.seenMin > j.published || j.published - j.writer.seenMin >= j.cap
  }

  function Touched<T>(j: Journal<T>, x: T): Journal<T>
    requires Shaped(j)
  {
    j.(cells := j.cells[j.published % j.cap := Cell(j.published, x)])
  }

  function WithReader<T>(j: Journal<T>, c: nat, r: Reader<T>): Journal<T>
    requires c < |j.readers|
  {
    j.(readers := j.readers[c := r])
  }

  function Do<T>(j: Journal<T>, a: Action<T>): (r: Journal<T>)
    requires Shaped(j)
    ensures Shaped(r) && r.cap == j.cap && |r.readers| == |j.readers|
  {
    match a
    case JBegin(item, part) => if j.writer.JIdle? then Touched(j, part).(writer := JWriting(item)) else j
    case JTry(item) => if j.writer.JIdle? then j.(writer := JLoaded(item, j.minSeq)) else j
    case JCheck(part) =>
      if !j.writer.JLoaded? then j
      else if Refused(j) then j.(writer := JIdle)
      else Touched(j, part).(writer := JWriting(j.writer.item))
    case JScribble(part) => if j.writer.JWriting? then Touched(j, part) else j
    case JWrite => if j.writer.JWriting? then Touched(j, j.writer.item).(writer := JWritten(j.writer.item)) else j
    case JStore =>
      if j.writer.JWritten? then
        j.(published := j.published + 1, writer := JIdle, log := j.log + [j.writer.item]) else j
    case RLoad(c) => if c < |j.readers| then WithReader(j, c, j.readers[c].(limit := j.published)) else j
    case RUse(c) =>
      if c < |j.readers| && j.readers[c].cursor < j.readers[c].limit && j.readers[c].using.None? then
        WithReader(j, c, j.readers[c].(using := Some(j.cells[j.readers[c].cursor % j.cap]))) else j
    case RAdvance(c) =>
      if c < |j.readers| && j.readers[c].using.Some? then
        WithReader(j, c, Reader(j.readers[c].cursor + 1, j.readers[c].limit, None,
                                j.readers[c].seen + [j.readers[c].using.value])) else j
    case JReport(v) => j.(minSeq := if v > j.minSeq then v else j.minSeq)
  }

  function NewJournal<T>(cap: nat, blank: T, readers: nat): Journal<T> {
    Journal(cap, seq(cap, _ => Cell(-1, blank)), 0, 0, JIdle, seq(readers, _ => Reader(0, 0, None, [])), [])
  }

  function RunJournal<T>(j: Journal<T>, acts: seq<Action<T>>): (r: Journal<T>)
    requires Shaped(j)
    ensures Shaped(r) && r.cap == j.cap && |r.readers| == |j.readers|
    decreases acts
  {
    if acts == [] then j else Do(RunJournal(j, acts[..|acts| - 1]), acts[|acts| - 1])
  }

  /** One past the last sequence number whose slot has been touched. */
  function Reach<T>(j: Journal<T>): nat {
    if j.writer.JWriting? || j.writer.JWritten? then j.published + 1 else j.published
  }

  // ---- what holds under every interleaving, whichever way items are published ----

  /** The ring holds exactly the last lap: each slot the newest sequence number that maps to it. */
  ghost predicate LastLap<T>(j: Journal<T>) {
    && Shaped(j) && |j.log| == j.published
    && (forall s :: 0 <= s < Reach(j) <= s + j.cap ==> j.cells[s % j.cap].tag == s)
    && (forall s :: 0 <= s < j.published && Reach(j) <= s + j.cap ==> j.cells[s % j.cap].item == j.log[s])
    && (forall i :: 0 <= i < j.cap ==> -1 <= j.cells[i].tag < Reach(j) <= j.cells[i].tag + j.cap)
    && (forall i :: 0 <= i < j.cap && j.cells[i].tag >= 0 ==> j.cells[i].tag % j.cap == i)
    && (j.writer.JWritten? ==> j.cells[j.published % j.cap].item == j.writer.item)
  }

  ghost predicate ReadersOk<T>(j: Journal<T>) {
    forall c :: 0 <= c < |j.readers| ==>
      && j.readers[c].cursor <= j.readers[c].limit <= j.published
      && (j.readers[c].using.Some? ==> j.readers[c].cursor < j.readers[c].limit)
      && |j.readers[c].seen| == j.readers[c].cursor
  }

  ghost predicate Inv<T>(j: Journal<T>) {
    LastLap(j) && ReadersOk(j)
  }

  /** A slot never touched belongs to a first lap that has not come to it. */
  lemma UntouchedSlot<T>(j: Journal<T>, i: nat)
    requires LastLap(j) && i < j.cap
    ensures j.cells[i].tag < 0 ==> Reach(j) <= i
  {
    ModIs(i, 0, i, j.cap);
    assert i < Reach(j) <= i + j.cap ==> j.cells[i % j.cap].tag == i;
  }

  /** The first touch of the next slot retires the sequence number one lap back and no other. */
  lemma FirstTouch<T>(j: Journal<T>, x: T, item: T)
    requires LastLap(j) && Reach(j) == j.published
    ensures LastLap(Touched(j, x).(writer := JWriting(item)))
  {
    var n, k := j.published, j.published % j.cap;
    var j1 := Touched(j, x).(writer := JWriting(item));
    forall s | 0 <= s < n && n < s + j.cap
      ensures s % j.cap != k
    {
      DistinctSlots(s, n, j.cap);
    }
    forall i | 0 <= i < j.cap && i != k
      ensures Reach(j1) <= j1.cells[i].tag + j.cap
    {
      var tag := j.cells[i].tag;
      if tag + j.cap == n {
        if tag >= 0 {
          SameSlot(tag, j.cap);
        } else {
          ModIs(n, 0, n, j.cap);
          UntouchedSlot(j, i);
        }
        assert false;
      }
    }
  }

  lemma Retouch<T>(j: Journal<T>, x: T, w: Writer<T>)
    requires LastLap(j) && j.writer.JWriting? && (w == j.writer || w == JWritten(x))
    ensures LastLap(Touched(j, x).(writer := w))
  {
    var n := j.published;
    forall s | 0 <= s < n && n < s + j.cap
      ensures s % j.cap != n % j.cap
    {
      DistinctSlots(s, n, j.cap);
    }
  }

  lemma StepKeepsLap<T>(j: Journal<T>, a: Action<T>)
    requires LastLap(j)
    ensures LastLap(Do(j, a))
  {
    match a
    case JBegin(item, part) => if j.writer.JIdle? { FirstTouch(j, part, item); }
    case JCheck(part) => if j.writer.JLoaded? && !Refused(j) { FirstTouch(j, part, j.writer.item); }
    case JScribble(part) => if j.writer.JWriting? { Retouch(j, part, j.writer); }
    case JWrite => if j.writer.JWriting? { Retouch(j, j.writer.item, JWritten(j.writer.item)); }
    case JStore => if j.writer.JWritten? { StoreKeepsLap(j); }
    case _ => SameLap(j, Do(j, a));
  }

  lemma SameLap<T>(j: Journal<T>, j1: Journal<T>)
    requires LastLap(j) && j1.cap == j.cap && j1.cells == j.cells && j1.published == j.published && j1.log == j.log
    requires Reach(j1) == Reach(j) && (j1.writer.JWritten? ==> j1.writer == j.writer)
    ensures LastLap(j1)
  {
  }

  lemma StoreKeepsLap<T>(j: Journal<T>)
    requires LastLap(j) && j.writer.JWritten?
    ensures LastLap(Do(j, JStore))
  {
    var j1 := Do(j, JStore);
    assert Reach(j1) == Reach(j) && j1.cells == j.cells;
  }

  lemma StepKeepsInv<T>(j: Journal<T>, a: Action<T>)
    requires Inv(j)
    ensures Inv(Do(j, a))
  {
    StepKeepsLap(j, a);
    StepKeepsReaders(j, a);
  }

  lemma StepKeepsReaders<T>(j: Journal<T>, a: Action<T>)
    requires Shaped(j) && ReadersOk(j)
    ensures ReadersOk(Do(j, a))
  {
    var j1 := Do(j, a);
    assert j1.published >= j.published;
  }

  lemma NewJournalInv<T>(cap: nat, blank: T, readers: nat)
    requires cap > 0
    ensures Inv(NewJournal(cap, blank, readers))
  {
  }

  lemma {:induction false} RunKeepsInv<T>(j: Journal<T>, acts: seq<Action<T>>)
    requires Inv(j)
    ensures Inv(RunJournal(j, acts))
    decreases acts
  {
    if acts != [] {
      RunKeepsInv(j, acts[..|acts| - 1]);
      StepKeepsInv(RunJournal(j, acts[..|acts| - 1]), acts[|acts| - 1]);
    }
  }

  /** In every interleaving, with reports of any values, the progress is 0 or a reported value, and
      no reported value exceeds it. */
  lemma {:induction false} ProgressIsMaximum<T>(cap: nat, blank: T, readers: nat, acts: seq<Action<T>>)
    requires cap > 0
    ensures var min := RunJournal(NewJournal(cap, blank, readers), acts).minSeq;
            && (min == 0 || JReport(min) in acts)
            && forall v: nat :: JReport(v) in acts ==> v <= min
    decreases acts
  {
    if acts != [] {
      var before, a := acts[..|acts| - 1], acts[|acts| - 1];
      ProgressIsMaximum(cap, blank, readers, before);
      assert acts == before + [a];
      forall v: nat | JReport(v) in acts
        ensures JReport(v) in before || a == JReport(v)
      {
      }
    }
  }

  // ---- one thread at a time ----

  /** The rest of a publication once its copy has begun, with no other thread between the steps. */
  lemma PublishAlone<T>(j: Journal<T>, begin: Action<T>, item: T)
    requires Inv(j) && !j.writer.JWriting? && Do(j, begin) == Touched(j, item).(writer := JWriting(item))
    ensures var (j2, n) := (Do(Do(Do(j, begin), JWrite), JStore), j.published);
            && Inv(j2) && j2.writer.JIdle? && j2.published == n + 1 && j2.log == j.log + [item]
            && j2.cells[n % j.cap] == Cell(n, item)
  {
    StepKeepsInv(j, begin);
    StepKeepsInv(Do(j, begin), JWrite);
    StepKeepsInv(Do(Do(j, begin), JWrite), JStore);
  }

  /** The steps of `try_publish` with no other thread between them. */
  lemma TryAlone<T>(j: Journal<T>, item: T)
    requires Inv(j) && j.writer.JIdle?
    ensures var (j1, n) := (Do(j, JTry(item)), j.published);
            && j1.writer.JLoaded? && (Refused(j1) <==> !(j.minSeq <= n < j.minSeq + j.cap))
            && (Refused(j1) ==> Do(j1, JCheck(item)) == j)
            && (!Refused(j1) ==>
                  var j2 := Do(Do(Do(j1, JCheck(item)), JWrite), JStore);
                  && Inv(j2) && j2.writer.JIdle? && j2.published == n + 1 && j2.log == j.log + [item]
                  && j2.cells[n % j.cap] == Cell(n, item))
  {
    var j1 := Do(j, JTry(item));
    StepKeepsInv(j, JTry(item));
    if !Refused(j1) { PublishAlone(j1, JCheck(item), item); }
  }

  // ---- lapping ----

  /** The producer has touched a slot more than a ring ahead of the cursor. */
  predicate Lapped<T>(j: Journal<T>, c: nat)
    requires c < |j.readers|
  {
    Reach(j) > j.readers[c].cursor + j.cap
  }

  /** Every published item the reader has not passed is still in its slot, the one in use included. */
  ghost predicate Intact<T>(j: Journal<T>, c: nat)
    requires Shaped(j) && c < |j.readers| && |j.log| == j.published
  {
    forall s :: j.readers[c].cursor <= s < j.published ==> j.cells[s % j.cap] == Cell(s, j.log[s])
  }

  /** Reading sequence s finds the item published as s exactly when s is within the last lap. */
  lemma SlotIsCurrentIff<T>(j: Journal<T>, s: nat)
    requires LastLap(j) && s < j.published
    ensures j.cells[s % j.cap].tag == s <==> Reach(j) <= s + j.cap
    ensures Reach(j) <= s + j.cap ==> j.cells[s % j.cap] == Cell(s, j.log[s])
  {
  }

  /** Under every interleaving a reader's unread and in-use items are intact if and only if it is not lapped. */
  lemma IntactIffNotLapped<T>(j: Journal<T>, c: nat)
    requires Inv(j) && c < |j.readers|
    ensures Intact(j, c) <==> !Lapped(j, c)
  {
    var s := j.readers[c].cursor;
    if s < j.published {
      SlotIsCurrentIff(j, s);
    }
  }

  ghost predicate AllIntact<T>(j: Journal<T>)
    requires Shaped(j) && |j.log| == j.published
  {
    forall c :: 0 <= c < |j.readers| ==> Intact(j, c)
  }

  /** Starting an unconditional publication is safe if and only if every cursor is less
      than a ring behind, which a caller can check beforehand. */
  lemma PublishSafeIff<T>(j: Journal<T>, item: T, part: T)
    requires Inv(j) && j.writer.JIdle?
    ensures Inv(Do(j, JBegin(item, part)))
    ensures AllIntact(Do(j, JBegin(item, part))) <==>
            forall c :: 0 <= c < |j.readers| ==> j.published - j.readers[c].cursor < j.cap
  {
    var j1 := Do(j, JBegin(item, part));
    StepKeepsInv(j, JBegin(item, part));
    forall c | 0 <= c < |j.readers|
      ensures Intact(j1, c) <==> j.published - j.readers[c].cursor < j.cap
    {
      IntactIffNotLapped(j1, c);
    }
  }

  // ---- backpressure ----

  /** Only `try_publish` is used, and no progress is reported beyond the slowest cursor. */
  ghost predicate Guarded<T>(j: Journal<T>, acts: seq<Action<T>>)
    requires Shaped(j)
  {
    forall k :: 0 <= k < |acts| ==>
      && !acts[k].JBegin?
      && (acts[k].JReport? ==> NotBeyond(RunJournal(j, acts[..k]), acts[k].value))
  }

  ghost predicate NotBeyond<T>(j: Journal<T>, v: nat) {
    forall c :: 0 <= c < |j.readers| ==> v <= j.readers[c].cursor
  }

  /** A reader has used exactly the published items, in order, and is using the next. */
  ghost predicate ReadsExact<T>(j: Journal<T>, r: Reader<T>) {
    && |r.seen| == r.cursor <= |j.log|
    && (forall s :: 0 <= s < r.cursor ==> r.seen[s] == Cell(s, j.log[s]))
    && (r.using.Some? ==> r.cursor < |j.log| && r.using.value == Cell(r.cursor, j.log[r.cursor]))
  }

  ghost predicate Backpressured<T>(j: Journal<T>) {
    && Inv(j)
    && NotBeyond(j, j.minSeq)
    && (j.writer.JLoaded? ==> j.writer.seenMin <= j.minSeq)
    && (forall c :: 0 <= c < |j.readers| ==> !Lapped(j, c))
    && (forall c :: 0 <= c < |j.readers| ==> ReadsExact(j, j.readers[c]))
  }

  lemma UseIsExact<T>(j: Journal<T>, c: nat)
    requires Inv(j) && c < |j.readers| && !Lapped(j, c) && ReadsExact(j, j.readers[c])
    ensures ReadsExact(j, Do(j, RUse(c)).readers[c])
  {
    if j.readers[c].cursor < j.published {
      SlotIsCurrentIff(j, j.readers[c].cursor);
    }
  }

  lemma StepKeepsReads<T>(j: Journal<T>, a: Action<T>, c: nat)
    requires Inv(j) && c < |j.readers| && !Lapped(j, c) && ReadsExact(j, j.readers[c])
    ensures ReadsExact(Do(j, a), Do(j, a).readers[c])
  {
    if a == RUse(c) { UseIsExact(j, c); }
  }

  lemma StepKeepsDistance<T>(j: Journal<T>, a: Action<T>, c: nat)
    requires Shaped(j) && c < |j.readers| && !Lapped(j, c) && !a.JBegin?
    requires j.writer.JLoaded? ==> j.writer.seenMin <= j.readers[c].cursor
    ensures !Lapped(Do(j, a), c)
    ensures j.readers[c].cursor <= Do(j, a).readers[c].cursor
  {
  }

  lemma StepKeepsProgress<T>(j: Journal<T>, a: Action<T>)
    requires Shaped(j) && NotBeyond(j, j.minSeq) && (j.writer.JLoaded? ==> j.writer.seenMin <= j.minSeq)
    requires a.JReport? ==> NotBeyond(j, a.value)
    ensures NotBeyond(Do(j, a), Do(j, a).minSeq)
    ensures Do(j, a).writer.JLoaded? ==> Do(j, a).writer.seenMin <= Do(j, a).minSeq
  {
    var j1 := Do(j, a);
    assert forall c :: 0 <= c < |j.readers| ==> j.readers[c].cursor <= j1.readers[c].cursor;
  }

  lemma StepKeepsBackpressure<T>(j: Journal<T>, a: Action<T>)
    requires Backpressured(j) && !a.JBegin? && (a.JReport? ==> NotBeyond(j, a.value))
    ensures Backpressured(Do(j, a))
  {
    StepKeepsInv(j, a);
    StepKeepsProgress(j, a);
    forall c | 0 <= c < |j.readers|
      ensures ReadsExact(Do(j, a), Do(j, a).readers[c]) && !Lapped(Do(j, a), c)
    {
      StepKeepsReads(j, a, c);
      StepKeepsDistance(j, a, c);
    }
  }

  lemma {:induction false} BackpressureHolds<T>(j: Journal<T>, acts: seq<Action<T>>)
    requires Backpressured(j) && Guarded(j, acts)
    ensures Backpressured(RunJournal(j, acts))
    decreases acts
  {
    if acts != [] {
      var k := |acts| - 1;
      assert forall i :: 0 <= i < k ==> acts[..k][..i] == acts[..i];
      BackpressureHolds(j, acts[..k]);
      StepKeepsBackpressure(RunJournal(j, acts[..k]), acts[k]);
    }
  }

  /** Journal safety: with `try_publish` and no progress reported beyond the slowest cursor, in every
      interleaving no unread or in-use slot is overwritten and every reader reads as
      sequence s the item published as s. */
  lemma JournalSafe<T>(cap: nat, blank: T, readers: nat, acts: seq<Action<T>>)
    requires cap > 0 && Guarded(NewJournal(cap, blank, readers), acts)
    ensures var j := RunJournal(NewJournal(cap, blank, readers), acts);
            && Inv(j) && AllIntact(j)
            && forall c :: 0 <= c < readers ==> ReadsExact(j, j.readers[c])
  {
    NewJournalInv(cap, blank, readers);
    BackpressureHolds(NewJournal(cap, blank, readers), acts);
    var j := RunJournal(NewJournal(cap, blank, readers), acts);
    forall c | 0 <= c < readers
      ensures Intact(j, c)
    {
      IntactIffNotLapped(j, c);
    }
  }

  /** Readers report their own cursors, as the pipeline's consumers do. */
  ghost predicate OwnProgress<T>(j: Journal<T>, acts: seq<Action<T>>)
    requires Shaped(j)
  {
    forall k :: 0 <= k < |acts| ==>
      && !acts[k].JBegin?
      && (acts[k].JReport? ==>
            exists c :: 0 <= c < |j.readers| && acts[k].value == RunJournal(j, acts[..k]).readers[c].cursor)
  }

  /** With at most one consumer that is enough. */
  lemma OneReaderSafe<T>(cap: nat, blank: T, readers: nat, acts: seq<Action<T>>)
    requires cap > 0 && readers <= 1 && OwnProgress(NewJournal(cap, blank, readers), acts)
    ensures Guarded(NewJournal(cap, blank, readers), acts)
  {
  }

  /** One more step of a run in which readers report their own cursors. */
  lemma {:induction false} OwnSnoc<T>(j: Journal<T>, acts: seq<Action<T>>, a: Action<T>)
    requires Shaped(j) && OwnProgress(j, acts) && !a.JBegin?
    requires a.JReport? ==>
               exists c :: 0 <= c < |j.readers| && a.value == RunJournal(j, acts).readers[c].cursor
    ensures OwnProgress(j, acts + [a])
    ensures RunJournal(j, acts + [a]) == Do(RunJournal(j, acts), a)
  {
    assert (acts + [a])[..|acts|] == acts;
    forall k | 0 <= k < |acts|
      ensures (acts + [a])[..k] == acts[..k]
    {
    }
  }

  /** Two more steps, neither of them a report. */
  lemma {:induction false} OwnSnocTwo<T>(j: Journal<T>, acts: seq<Action<T>>, a: Action<T>, b: Action<T>)
    requires Shaped(j) && OwnProgress(j, acts)
    requires !a.JBegin? && !a.JReport? && !b.JBegin? && !b.JReport?
    ensures OwnProgress(j, acts + [a, b])
    ensures RunJournal(j, acts + [a, b]) == Do(Do(RunJournal(j, acts), a), b)
  {
    OwnSnoc(j, acts, a);
    OwnSnoc(j, acts + [a], b);
    assert acts + [a, b] == acts + [a] + [b];
  }

  /** `n` publications by `try_publish` before any reader takes a step. */
  function Filling<T>(x: T, n: nat): seq<Action<T>> {
    if n == 0 then [] else Filling(x, n - 1) + [JTry(x), JCheck(x)] + [JWrite, JStore]
  }

  lemma PublishedOne<T>(j: Journal<T>, x: T)
    requires Shaped(j) && j.writer.JIdle? && j.minSeq <= j.published < j.minSeq + j.cap
    ensures var j1 := Do(Do(Do(Do(j, JTry(x)), JCheck(x)), JWrite), JStore);
            && j1.published == j.published + 1 && j1.minSeq == j.minSeq
            && j1.writer.JIdle? && j1.readers == j.readers
  {
    assert !Refused(Do(j, JTry(x)));
  }

  lemma {:induction false} FillingPublishes<T>(cap: nat, blank: T, readers: nat, n: nat)
    requires n <= cap && cap > 0
    ensures var (j0, acts) := (NewJournal(cap, blank, readers), Filling(blank, n));
            && OwnProgress(j0, acts)
            && var j := RunJournal(j0, acts);
            && j.published == n && j.minSeq == 0 && j.writer.JIdle? && j.readers == j0.readers
  {
    if n > 0 {
      var j0, before := NewJournal(cap, blank, readers), Filling(blank, n - 1);
      FillingPublishes(cap, blank, readers, n - 1);
      OwnSnocTwo(j0, before, JTry(blank), JCheck(blank));
      OwnSnocTwo(j0, before + [JTry(blank), JCheck(blank)], JWrite, JStore);
      PublishedOne(RunJournal(j0, before), blank);
    }
  }

  /** One reader uses the oldest item of a full ring and reports it; the other is lapped. */
  lemma FastReaderLapsSlow<T>(j: Journal<T>, x: T)
    requires Shaped(j) && j.writer.JIdle? && j.minSeq == 0 && j.published == j.cap
    requires |j.readers| >= 2 && j.readers[0] == j.readers[1] == Reader(0, 0, None, [])
    ensures var j3 := Do(Do(Do(j, RLoad(0)), RUse(0)), RAdvance(0));
            && j3.readers[0].cursor == 1
            && Lapped(Do(Do(Do(j3, JReport(1)), JTry(x)), JCheck(x)), 1)
  {
    var j1 := Do(j, RLoad(0));
    var j2 := Do(j1, RUse(0));
    assert j2.readers[0].using.Some?;
    var j5 := Do(Do(Do(j2, RAdvance(0)), JReport(1)), JTry(x));
    assert j5.writer == JLoaded(x, 1) && !Refused(j5);
  }

  /** With more it is not: `report_consumer_progress` keeps the largest report, so a fast reader
      lets `try_publish` overwrite an item a slow reader has not read, whatever the size of the ring. */
  lemma {:induction false} TwoReadersUnsafe<T>(cap: nat, blank: T, readers: nat) returns (acts: seq<Action<T>>)
    requires cap > 0 && readers >= 2
    ensures var j0 := NewJournal(cap, blank, readers);
            OwnProgress(j0, acts) && Inv(RunJournal(j0, acts)) && !AllIntact(RunJournal(j0, acts))
  {
    var j0, full := NewJournal(cap, blank, readers), Filling(blank, cap);
    FillingPublishes(cap, blank, readers, cap);
    FastReaderLapsSlow(RunJournal(j0, full), blank);
    OwnSnocTwo(j0, full, RLoad(0), RUse(0));
    var used := full + [RLoad(0), RUse(0)];
    OwnSnoc(j0, used, RAdvance(0));
    OwnSnoc(j0, used + [RAdvance(0)], JReport(1));
    OwnSnocTwo(j0, used + [RAdvance(0)] + [JReport(1)], JTry(blank), JCheck(blank));
    acts := used + [RAdvance(0)] + [JReport(1)] + [JTry(blank), JCheck(blank)];
    NewJournalInv(cap, blank, readers);
    RunKeepsInv(j0, acts);
    IntactIffNotLapped(RunJournal(j0, acts), 1);
  }

  /** Backpressure by own reports protects every reader in every interleaving if and only if there
      is at most one reader. */
  lemma {:induction false} OwnReportsSafeIff<T>(cap: nat, blank: T, readers: nat)
    requires cap > 0
    ensures (forall acts: seq<Action<T>> :: OwnProgress(NewJournal(cap, blank, readers), acts) ==>
               && Inv(RunJournal(NewJournal(cap, blank, readers), acts))
               && AllIntact(RunJournal(NewJournal(cap, blank, readers), acts)))
            <==> readers <= 1
  {
    if readers <= 1 {
      forall acts: seq<Action<T>> | OwnProgress(NewJournal(cap, blank, readers), acts)
        ensures Inv(RunJournal(NewJournal(cap, blank, readers), acts))
        ensures AllIntact(RunJournal(NewJournal(cap, blank, readers), acts))
      {
        OneReaderSafe(cap, blank, readers, acts);
        JournalSafe(cap, blank, readers, acts);
      }
    } else {
      var acts := TwoReadersUnsafe(cap, blank, readers);
    }
  }
}
