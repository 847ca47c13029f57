/** Pipeline::run as interleaved threads: one producer publishing every order unconditionally, and one
    consumer per shard that reads every order and applies those of its shard. */
module BroadcastPipeline {
  import opened Messages
  import opened Rings
  import J = JournalProtocol
  import opened Sharding

  /** Where a consumer is in its loop: about to load the index; having found nothing new, about to ask
      whether the producer is done; knowing it is, about to load the index again; reading. */
  datatype Pc = Poll | AskDone | AskIndex | Work | Exited

  /** `visited` records the sequence numbers read and `applied` the messages handed to the books. */
  datatype Consumer = Consumer(pc: Pc, count: nat, visited: seq<nat>, applied: seq<Message>)

  datatype State = State(journal: J.Journal<Message>, done: bool, consumers: seq<Consumer>)

  /** A consumer's next step is determined by where it is; a producer's copy may be cut anywhere. */
  datatype Action = PBegin(part: Message) | PScribble(part: Message) | PWrite | PStore | PDone | CStep(c: nat)

  ghost predicate Shaped(s: State) {
    J.Shaped(s.journal) && 0 < |s.consumers| == |s.journal.readers|
  }

  function At(s: State, c: nat, pc: Pc): State
    requires c < |s.consumers|
  {
    s.(consumers := s.consumers[c := s.consumers[c].(pc := pc)])
  }

  /** One turn of the inner loop is finished: the payload read is applied if it is of this shard. */
  function Finish(g: Hash, s: State, c: nat): State
    requires Shaped(s) && c < |s.consumers| && s.journal.readers[c].using.Some?
  {
    var x, r := s.consumers[c], s.journal.readers[c];
    var m := r.using.value.item;
    var mine := ShardOf(g, |s.consumers|, m.ticker) == c;
    var x1 := x.(visited := x.visited + [r.cursor],
                 applied := x.applied + if mine then [m] else [],
                 count := x.count + if mine then 1 else 0);
    s.(journal := J.Do(s.journal, J.RAdvance(c)), consumers := s.consumers[c := x1])
  }

  function ConsumerStep(g: Hash, s: State, c: nat): State
    requires Shaped(s) && c < |s.consumers|
  {
    var r := s.journal.readers[c];
    match s.consumers[c].pc
    case Poll =>
      At(s.(journal := J.Do(s.journal, J.RLoad(c))), c, if r.cursor >= s.journal.published then AskDone else Work)
    case AskDone => At(s, c, if s.done then AskIndex else Poll)
    case AskIndex => At(s, c, if r.cursor >= s.journal.published then Exited else Poll)
    case Work =>
      if r.using.Some? then Finish(g, s, c)
      else if r.cursor < r.limit then s.(journal := J.Do(s.journal, J.RUse(c)))
      else At(s.(journal := J.Do(s.journal, J.JReport(r.cursor))), c, Poll)
    case Exited => s
  }

  function Do(g: Hash, orders: seq<Message>, s: State, a: Action): (r: State)
    requires Shaped(s)
    ensures Shaped(r) && r.journal.cap == s.journal.cap && |r.consumers| == |s.consumers|
  {
    match a
    case PBegin(part) =>
      if s.journal.published < |orders| && !s.done then
        s.(journal := J.Do(s.journal, J.JBegin(orders[s.journal.published], part))) else s
    case PScribble(part) => s.(journal := J.Do(s.journal, J.JScribble(part)))
    case PWrite => s.(journal := J.Do(s.journal, J.JWrite))
    case PStore => s.(journal := J.Do(s.journal, J.JStore))
    case PDone =>
      if s.journal.published == |orders| && s.journal.writer.JIdle? then s.(done := true) else s
    case CStep(c) => if c < |s.consumers| then ConsumerStep(g, s, c) else s
  }

  function Start(cap: nat, blank: Message, threads: nat): State {
    State(J.NewJournal(cap, blank, threads), false, seq(threads, _ => Consumer(Poll, 0, [], [])))
  }

  function Run(g: Hash, orders: seq<Message>, s: State, acts: seq<Action>): (r: State)
    requires Shaped(s)
    ensures Shaped(r) && r.journal.cap == s.journal.cap && |r.consumers| == |s.consumers|
    decreases acts
  {
    if acts == [] then s else Do(g, orders, Run(g, orders, s, acts[..|acts| - 1]), acts[|acts| - 1])
  }

  // ---- shutdown ----

  /** The producer publishes the orders in turn, and is done when all are published. */
  ghost predicate Feeding(orders: seq<Message>, s: State)
    requires Shaped(s)
  {
    var j := s.journal;
    && j.published <= |orders| && j.log == orders[..j.published]
    && (j.writer.JIdle? || ((j.writer.JWriting? || j.writer.JWritten?) &&
                            j.published < |orders| && j.writer.item == orders[j.published]))
    && (s.done ==> j.published == |orders| && j.writer.JIdle?)
  }

  ghost predicate ProducerOk(orders: seq<Message>, s: State)
    requires Shaped(s)
  {
    J.Inv(s.journal) && Feeding(orders, s)
  }

  function Upto(n: nat): seq<nat> {
    seq(n, i => i)
  }

  ghost predicate ConsumerOk(orders: seq<Message>, s: State, c: nat)
    requires Shaped(s) && c < |s.consumers|
  {
    var x, r := s.consumers[c], s.journal.readers[c];
    && x.visited == Upto(r.cursor)
    && |x.applied| == x.count
    && (x.pc.AskIndex? || x.pc.Exited? ==> s.done)
    && (x.pc.Exited? ==> r.cursor == |orders|)
    && (r.using.Some? ==> x.pc.Work?)
  }

  ghost predicate Inv(orders: seq<Message>, s: State) {
    && Shaped(s) && ProducerOk(orders, s)
    && forall c :: 0 <= c < |s.consumers| ==> ConsumerOk(orders, s, c)
  }

  /** The journal step that a pipeline step contains, if any. */
  function JournalStep(orders: seq<Message>, s: State, a: Action): Option<J.Action<Message>>
    requires Shaped(s)
  {
    match a
    case PBegin(part) =>
      if s.journal.published < |orders| && !s.done then Some(J.JBegin(orders[s.journal.published], part)) else None
    case PScribble(part) => Some(J.JScribble(part))
    case PWrite => Some(J.JWrite)
    case PStore => Some(J.JStore)
    case PDone => None
    case CStep(c) =>
      if c >= |s.consumers| then None else
      var r := s.journal.readers[c];
      match s.consumers[c].pc
      case Poll => Some(J.RLoad(c))
      case Work =>
        Some(if r.using.Some? then J.RAdvance(c)
             else if r.cursor < r.limit then J.RUse(c) else J.JReport(r.cursor))
      case _ => None
  }

  lemma StepMovesJournal(g: Hash, orders: seq<Message>, s: State, a: Action)
    requires Shaped(s)
    ensures Do(g, orders, s, a).journal ==
            match JournalStep(orders, s, a)
            case None => s.journal
            case Some(ja) => J.Do(s.journal, ja)
  {
  }

  lemma StepFeeds(g: Hash, orders: seq<Message>, s: State, a: Action)
    requires Shaped(s) && Feeding(orders, s)
    ensures Feeding(orders, Do(g, orders, s, a))
  {
    var n := s.journal.published;
    assert n < |orders| ==> orders[..n] + [orders[n]] == orders[..n + 1];
  }

  lemma JournalMoves(g: Hash, orders: seq<Message>, s: State, a: Action)
    requires Shaped(s) && ProducerOk(orders, s)
    ensures ProducerOk(orders, Do(g, orders, s, a))
  {
    StepFeeds(g, orders, s, a);
    StepMovesJournal(g, orders, s, a);
    var ja := JournalStep(orders, s, a);
    if ja.Some? { J.StepKeepsInv(s.journal, ja.value); }
  }

  lemma ConsumerMoves(g: Hash, orders: seq<Message>, s: State, c: nat)
    requires Inv(orders, s) && c < |s.consumers|
    ensures ConsumerOk(orders, ConsumerStep(g, s, c), c)
  {
    var r := s.journal.readers[c];
    assert ConsumerOk(orders, s, c);
    assert Upto(r.cursor) + [r.cursor] == Upto(r.cursor + 1);
  }

  /** No step but consumer `c`'s own moves it. */
  lemma OthersLeaveAlone(g: Hash, orders: seq<Message>, s: State, a: Action, c: nat)
    requires Shaped(s) && c < |s.consumers| && a != CStep(c)
    ensures var s1 := Do(g, orders, s, a);
            s1.consumers[c] == s.consumers[c] && s1.journal.readers[c] == s.journal.readers[c] && (s.done ==> s1.done)
  {
  }

  lemma StepKeepsInv(g: Hash, orders: seq<Message>, s: State, a: Action)
    requires Inv(orders, s)
    ensures Inv(orders, Do(g, orders, s, a))
  {
    JournalMoves(g, orders, s, a);
    StepKeepsConsumers(g, orders, s, a);
  }

  lemma StepKeepsConsumers(g: Hash, orders: seq<Message>, s: State, a: Action)
    requires Inv(orders, s)
    ensures var s1 := Do(g, orders, s, a); forall c :: 0 <= c < |s1.consumers| ==> ConsumerOk(orders, s1, c)
  {
    forall c | 0 <= c < |s.consumers|
      ensures ConsumerOk(orders, Do(g, orders, s, a), c)
    {
      if a == CStep(c) {
        ConsumerMoves(g, orders, s, c);
      } else {
        OthersLeaveAlone(g, orders, s, a, c);
        assert ConsumerOk(orders, s, c);
      }
    }
  }

  lemma StartInv(orders: seq<Message>, cap: nat, blank: Message, threads: nat)
    requires cap > 0 && threads > 0
    ensures Inv(orders, Start(cap, blank, threads))
  {
    J.NewJournalInv(cap, blank, threads);
    assert orders[..0] == [];
  }

  lemma {:induction false} RunKeepsInv(g: Hash, orders: seq<Message>, s: State, acts: seq<Action>)
    requires Inv(orders, s)
    ensures Inv(orders, Run(g, orders, s, acts))
    decreases acts
  {
    if acts != [] {
      RunKeepsInv(g, orders, s, acts[..|acts| - 1]);
      StepKeepsInv(g, orders, Run(g, orders, s, acts[..|acts| - 1]), acts[|acts| - 1]);
    }
  }

  /** Broadcast shutdown: because the index is loaded again after `producer_done` is seen, under every
      interleaving a consumer exits only at the end of the stream, having visited every
      sequence number exactly once and in order. */
  lemma ExitsOnlyAtTheEnd(g: Hash, orders: seq<Message>, cap: nat, blank: Message, threads: nat,
                          acts: seq<Action>, c: nat)
    requires cap > 0 && threads > 0 && c < threads
    ensures var s := Run(g, orders, Start(cap, blank, threads), acts);
            s.consumers[c].pc.Exited? ==>
              s.journal.readers[c].cursor == |orders| && s.consumers[c].visited == Upto(|orders|)
  {
    StartInv(orders, cap, blank, threads);
    RunKeepsInv(g, orders, Start(cap, blank, threads), acts);
    var s := Run(g, orders, Start(cap, blank, threads), acts);
    assert ConsumerOk(orders, s, c);
  }

  // ---- what the consumers report ----

  /** No report runs ahead of the fastest consumer, and a consumer outside its inner loop has reported its cursor. */
  ghost predicate Reported(s: State)
    requires Shaped(s)
  {
    && (exists c :: 0 <= c < |s.consumers| && s.journal.minSeq <= s.journal.readers[c].cursor)
    && (forall c :: 0 <= c < |s.consumers| && !s.consumers[c].pc.Work? ==>
          s.journal.readers[c].cursor <= s.journal.minSeq)
  }

  lemma StepKeepsProgress(g: Hash, orders: seq<Message>, s: State, a: Action)
    requires Shaped(s)
    ensures s.journal.minSeq <= Do(g, orders, s, a).journal.minSeq
    ensures forall c :: 0 <= c < |s.consumers| ==>
              s.journal.readers[c].cursor <= Do(g, orders, s, a).journal.readers[c].cursor
  {
  }

  /** A consumer that leaves its inner loop reports its cursor, and reports nothing else. */
  lemma OwnReport(g: Hash, s: State, c: nat)
    requires Shaped(s) && c < |s.consumers|
    requires s.consumers[c].pc.Work? || s.journal.readers[c].cursor <= s.journal.minSeq
    ensures var s1 := ConsumerStep(g, s, c);
            && (s1.consumers[c].pc.Work? || s1.journal.readers[c].cursor <= s1.journal.minSeq)
            && (s1.journal.minSeq == s.journal.minSeq || s1.journal.minSeq == s1.journal.readers[c].cursor)
  {
  }

  lemma OnlyConsumersReport(g: Hash, orders: seq<Message>, s: State, a: Action)
    requires Shaped(s) && (a.CStep? ==> a.c >= |s.consumers|)
    ensures Do(g, orders, s, a).journal.minSeq == s.journal.minSeq
  {
  }

  lemma StepReports(g: Hash, orders: seq<Message>, s: State, a: Action)
    requires Shaped(s) && Reported(s)
    ensures Reported(Do(g, orders, s, a))
  {
    var s1 := Do(g, orders, s, a);
    StepKeepsProgress(g, orders, s, a);
    forall c | 0 <= c < |s.consumers| && !s1.consumers[c].pc.Work?
      ensures s1.journal.readers[c].cursor <= s1.journal.minSeq
    {
      if a == CStep(c) { OwnReport(g, s, c); } else { OthersLeaveAlone(g, orders, s, a, c); }
    }
    var c :| 0 <= c < |s.consumers| && s.journal.minSeq <= s.journal.readers[c].cursor;
    assert s.journal.minSeq <= s1.journal.readers[c].cursor;
    if a.CStep? && a.c < |s.consumers| {
      OwnReport(g, s, a.c);
      assert s1.journal.minSeq <= s1.journal.readers[a.c].cursor || s1.journal.minSeq == s.journal.minSeq;
    } else {
      OnlyConsumersReport(g, orders, s, a);
    }
  }

  /** In every interleaving the progress reported is at most the largest cursor, and at least the cursor of
      every consumer that is not in its inner loop. */
  lemma {:induction false} RunReports(g: Hash, orders: seq<Message>, cap: nat, blank: Message, threads: nat,
                                      acts: seq<Action>)
    requires cap > 0 && threads > 0
    ensures Reported(Run(g, orders, Start(cap, blank, threads), acts))
    decreases acts
  {
    if acts == [] {
      assert Start(cap, blank, threads).journal.readers[0].cursor == 0;
    } else {
      RunReports(g, orders, cap, blank, threads, acts[..|acts| - 1]);
      StepReports(g, orders, Run(g, orders, Start(cap, blank, threads), acts[..|acts| - 1]), acts[|acts| - 1]);
    }
  }

  /** A complete run ends with the whole stream reported. */
  lemma {:induction false} FinishedIsReported(g: Hash, orders: seq<Message>, cap: nat, blank: Message, threads: nat,
                                              acts: seq<Action>)
    requires cap > 0 && threads > 0 && Finished(Run(g, orders, Start(cap, blank, threads), acts))
    ensures Run(g, orders, Start(cap, blank, threads), acts).journal.minSeq == |orders|
  {
    RunReports(g, orders, cap, blank, threads, acts);
    var s := Run(g, orders, Start(cap, blank, threads), acts);
    forall c | 0 <= c < threads
      ensures s.journal.readers[c].cursor == |orders|
    {
      ExitsOnlyAtTheEnd(g, orders, cap, blank, threads, acts, c);
    }
  }

  // ---- delivery ----

  ghost predicate NoneLapped(s: State)
    requires Shaped(s)
  {
    forall c :: 0 <= c < |s.consumers| ==> !J.Lapped(s.journal, c)
  }

  ghost predicate NeverLapped(g: Hash, orders: seq<Message>, s: State, acts: seq<Action>)
    requires Shaped(s)
  {
    forall k :: 0 <= k <= |acts| ==> NoneLapped(Run(g, orders, s, acts[..k]))
  }

  ghost predicate Delivered(g: Hash, orders: seq<Message>, s: State, c: nat)
    requires Shaped(s) && c < |s.consumers|
  {
    && s.journal.readers[c].cursor <= |orders|
    && J.ReadsExact(s.journal, s.journal.readers[c])
    && s.consumers[c].applied == OfShard(g, |s.consumers|, orders[..s.journal.readers[c].cursor], c)
  }

  lemma FinishApplies(g: Hash, orders: seq<Message>, s: State, c: nat)
    requires Shaped(s) && c < |s.consumers| && Delivered(g, orders, s, c) && Feeding(orders, s)
    requires s.journal.readers[c].using.Some?
    ensures var (s1, k) := (Finish(g, s, c), s.journal.readers[c].cursor);
            && s1.journal.readers[c].cursor == k + 1 <= |orders|
            && s1.consumers[c].applied == OfShard(g, |s.consumers|, orders[..k + 1], c)
  {
    var k := s.journal.readers[c].cursor;
    assert s.journal.readers[c].using.value.item == orders[k];
    OfShardSnoc(g, |s.consumers|, orders[..k], orders[k], c);
    assert orders[..k] + [orders[k]] == orders[..k + 1];
  }

  /** Only finishing a turn of the inner loop advances the cursor or applies a message. */
  lemma OtherwiseSame(g: Hash, s: State, c: nat)
    requires Shaped(s) && c < |s.consumers| && !(s.consumers[c].pc.Work? && s.journal.readers[c].using.Some?)
    ensures var s1 := ConsumerStep(g, s, c);
            && s1.journal.readers[c].cursor == s.journal.readers[c].cursor
            && s1.consumers[c].applied == s.consumers[c].applied
  {
  }

  lemma {:induction false} StepApplies(g: Hash, orders: seq<Message>, s: State, a: Action, c: nat)
    requires Shaped(s) && c < |s.consumers| && Delivered(g, orders, s, c) && Feeding(orders, s)
    ensures var s1 := Do(g, orders, s, a);
            && s1.journal.readers[c].cursor <= |orders|
            && s1.consumers[c].applied == OfShard(g, |s.consumers|, orders[..s1.journal.readers[c].cursor], c)
  {
    if a != CStep(c) {
      OthersLeaveAlone(g, orders, s, a, c);
    } else if s.consumers[c].pc.Work? && s.journal.readers[c].using.Some? {
      FinishApplies(g, orders, s, c);
    } else {
      OtherwiseSame(g, s, c);
    }
  }

  lemma StepDelivers(g: Hash, orders: seq<Message>, s: State, a: Action, c: nat)
    requires Shaped(s) && ProducerOk(orders, s) && NoneLapped(s) && c < |s.consumers| && Delivered(g, orders, s, c)
    ensures Delivered(g, orders, Do(g, orders, s, a), c)
  {
    StepApplies(g, orders, s, a, c);
    StepMovesJournal(g, orders, s, a);
    var ja := JournalStep(orders, s, a);
    if ja.Some? { J.StepKeepsReads(s.journal, ja.value, c); }
  }

  ghost predicate AllDelivered(g: Hash, orders: seq<Message>, s: State)
    requires Shaped(s)
  {
    forall c :: 0 <= c < |s.consumers| ==> Delivered(g, orders, s, c)
  }

  lemma {:induction false} RunDelivers(g: Hash, orders: seq<Message>, s: State, acts: seq<Action>)
    requires Inv(orders, s) && NeverLapped(g, orders, s, acts) && AllDelivered(g, orders, s)
    ensures AllDelivered(g, orders, Run(g, orders, s, acts))
    decreases acts
  {
    if acts != [] {
      var k := |acts| - 1;
      assert forall i :: 0 <= i <= k ==> acts[..k][..i] == acts[..i];
      RunDelivers(g, orders, s, acts[..k]);
      RunKeepsInv(g, orders, s, acts[..k]);
      StepAllDelivers(g, orders, Run(g, orders, s, acts[..k]), acts[k]);
    }
  }

  lemma StepAllDelivers(g: Hash, orders: seq<Message>, s: State, a: Action)
    requires Shaped(s) && ProducerOk(orders, s) && NoneLapped(s) && AllDelivered(g, orders, s)
    ensures AllDelivered(g, orders, Do(g, orders, s, a))
  {
    forall c | 0 <= c < |s.consumers|
      ensures Delivered(g, orders, Do(g, orders, s, a), c)
    {
      StepDelivers(g, orders, s, a, c);
    }
  }

  ghost predicate Finished(s: State) {
    forall c :: 0 <= c < |s.consumers| ==> s.consumers[c].pc.Exited?
  }

  function Counts(s: State): nat -> nat {
    (t: nat) => if t < |s.consumers| then s.consumers[t].count else 0
  }

  /** Every consumer has applied exactly its shard's messages, in order, and counted them;
      and the counts sum to the number of orders. */
  ghost predicate ExactDelivery(g: Hash, orders: seq<Message>, s: State)
    requires |s.consumers| > 0
  {
    && (forall c :: 0 <= c < |s.consumers| ==>
          && s.consumers[c].applied == OfShard(g, |s.consumers|, orders, c)
          && s.consumers[c].count == |s.consumers[c].applied|)
    && SumTo(Counts(s), |s.consumers|) == |orders|
  }

  lemma FinishedIsExact(g: Hash, orders: seq<Message>, s: State)
    requires Inv(orders, s) && AllDelivered(g, orders, s) && Finished(s)
    ensures ExactDelivery(g, orders, s)
  {
    var n := |s.consumers|;
    forall c | 0 <= c < n
      ensures s.consumers[c].applied == OfShard(g, n, orders, c)
      ensures s.consumers[c].count == |s.consumers[c].applied|
    {
      assert Delivered(g, orders, s, c) && ConsumerOk(orders, s, c);
      assert orders[..|orders|] == orders;
    }
    ShardsPartition(g, n, orders);
    SumSame(Counts(s), ShardSizes(g, n, orders), n);
  }

  /** Exact delivery: on every complete run in which no consumer is lapped. */
  lemma BroadcastDelivers(g: Hash, orders: seq<Message>, cap: nat, blank: Message, threads: nat, acts: seq<Action>)
    requires cap > 0 && threads > 0 && NeverLapped(g, orders, Start(cap, blank, threads), acts)
    requires Finished(Run(g, orders, Start(cap, blank, threads), acts))
    ensures ExactDelivery(g, orders, Run(g, orders, Start(cap, blank, threads), acts))
  {
    var s0 := Start(cap, blank, threads);
    StartInv(orders, cap, blank, threads);
    assert AllDelivered(g, orders, s0) by { assert orders[..0] == []; }
    RunDelivers(g, orders, s0, acts);
    RunKeepsInv(g, orders, s0, acts);
    FinishedIsExact(g, orders, Run(g, orders, s0, acts));
  }

  /** The hypothesis is free for a stream that fits the ring: no such run ever laps a consumer. */
  lemma {:induction false} ShortStreamsNeverLap(
    g: Hash, orders: seq<Message>, cap: nat, blank: Message, threads: nat, acts: seq<Action>)
    requires cap > 0 && threads > 0 && |orders| <= cap
    ensures NeverLapped(g, orders, Start(cap, blank, threads), acts)
  {
    var s0 := Start(cap, blank, threads);
    StartInv(orders, cap, blank, threads);
    forall k | 0 <= k <= |acts|
      ensures NoneLapped(Run(g, orders, s0, acts[..k]))
    {
      RunKeepsInv(g, orders, s0, acts[..k]);
    }
  }

  /** Each consumer has applied exactly its shard of the orders it has read past, in order. */
  ghost predicate AllApplied(g: Hash, orders: seq<Message>, s: State)
    requires Shaped(s)
  {
    forall c :: 0 <= c < |s.consumers| ==>
      && s.journal.readers[c].cursor <= |orders|
      && s.consumers[c].applied == OfShard(g, |s.consumers|, orders[..s.journal.readers[c].cursor], c)
  }

  /** The producer publishing `n` orders before any consumer takes a step. */
  function Ahead(orders: seq<Message>, n: nat): seq<Action>
    requires n <= |orders|
  {
    if n == 0 then [] else Ahead(orders, n - 1) + [PBegin(orders[n - 1]), PWrite, PStore]
  }

  lemma {:induction false} RunSnoc(g: Hash, orders: seq<Message>, s: State, acts: seq<Action>, a: Action)
    requires Shaped(s)
    ensures Run(g, orders, s, acts + [a]) == Do(g, orders, Run(g, orders, s, acts), a)
  {
    assert (acts + [a])[..|acts|] == acts;
  }

  lemma {:induction false} RunThree(
    g: Hash, orders: seq<Message>, s: State, acts: seq<Action>, a: Action, b: Action, c: Action)
    requires Shaped(s)
    ensures Run(g, orders, s, acts + [a, b, c]) ==
            Do(g, orders, Do(g, orders, Do(g, orders, Run(g, orders, s, acts), a), b), c)
  {
    RunSnoc(g, orders, s, acts, a);
    RunSnoc(g, orders, s, acts + [a], b);
    RunSnoc(g, orders, s, acts + [a] + [b], c);
    assert acts + [a, b, c] == acts + [a] + [b] + [c];
  }

  lemma {:induction false} AheadPublishes(g: Hash, orders: seq<Message>, s: State, n: nat)
    requires Shaped(s) && s.journal.published == 0 && s.journal.writer.JIdle? && !s.done && n <= |orders|
    ensures var s1 := Run(g, orders, s, Ahead(orders, n));
            && s1.journal.published == n && s1.journal.writer.JIdle? && !s1.done
            && s1.consumers == s.consumers && s1.journal.readers == s.journal.readers
  {
    if n > 0 {
      AheadPublishes(g, orders, s, n - 1);
      RunThree(g, orders, s, Ahead(orders, n - 1), PBegin(orders[n - 1]), PWrite, PStore);
    }
  }

  /** With a ring full of unread orders, the next publication is already copying over the first: the consumer
      of its shard applies what the copy has left there. */
  lemma TornReadApplied(g: Hash, orders: seq<Message>, s: State, part: Message, c: nat)
    requires Shaped(s) && s.journal.published == s.journal.cap < |orders| && s.journal.writer.JIdle? && !s.done
    requires c < |s.consumers| && s.consumers[c] == Consumer(Poll, 0, [], [])
    requires s.journal.readers[c] == J.Reader(0, 0, None, [])
    requires ShardOf(g, |s.consumers|, part.ticker) == c
    ensures var s1 := Do(g, orders, s, PBegin(part));
            var s2 := ConsumerStep(g, ConsumerStep(g, ConsumerStep(g, s1, c), c), c);
            s2.journal.readers[c].cursor == 1 && s2.consumers[c].applied == [part]
  {
    ModIs(s.journal.cap, 1, 0, s.journal.cap);
    ModIs(0, 0, 0, s.journal.cap);
    var s1 := Do(g, orders, s, PBegin(part));
    assert s1.journal.cells[0].item == part;
    var s2 := ConsumerStep(g, s1, c);
    assert s2.consumers[c].pc.Work? && s2.journal.readers[c].limit == s.journal.cap;
    var s3 := ConsumerStep(g, s2, c);
    assert s3.journal.readers[c].using == Some(s1.journal.cells[0]);
  }

  /** A message of the same ticker that is not `m`. */
  function Differing(m: Message): Message {
    m.(price := if m.price == 0 then 1 else 0)
  }

  /** A stream longer than the ring has a run in which a consumer applies a message nobody published. */
  lemma {:induction false} LongStreamMisapplies(
    g: Hash, orders: seq<Message>, cap: nat, blank: Message, threads: nat)
    returns (acts: seq<Action>)
    requires 0 < cap < |orders| && threads > 0
    ensures !AllApplied(g, orders, Run(g, orders, Start(cap, blank, threads), acts))
  {
    var s0, ahead := Start(cap, blank, threads), Ahead(orders, cap);
    var part, c := Differing(orders[0]), ShardOf(g, threads, orders[0].ticker);
    AheadPublishes(g, orders, s0, cap);
    TornReadApplied(g, orders, Run(g, orders, s0, ahead), part, c);
    RunSnoc(g, orders, s0, ahead, PBegin(part));
    RunThree(g, orders, s0, ahead + [PBegin(part)], CStep(c), CStep(c), CStep(c));
    acts := ahead + [PBegin(part)] + [CStep(c), CStep(c), CStep(c)];
    FirstOfShard(g, threads, orders, c);
  }

  lemma {:induction false} FirstOfShard(g: Hash, threads: nat, orders: seq<Message>, c: nat)
    requires threads > 0 && orders != [] && ShardOf(g, threads, orders[0].ticker) == c
    ensures OfShard(g, threads, orders[..1], c) == [orders[0]]
  {
    assert orders[..1] == [orders[0]] && orders[..1][..0] == [];
    assert OfShard(g, threads, [], c) == [];
  }

  /** Unconditional publication delivers the orders themselves under every interleaving if and only if the
      stream fits the ring. */
  lemma {:induction false} EveryRunAppliesExactlyIff(
    g: Hash, orders: seq<Message>, cap: nat, blank: Message, threads: nat)
    requires cap > 0 && threads > 0
    ensures (forall acts: seq<Action> :: AllApplied(g, orders, Run(g, orders, Start(cap, blank, threads), acts))) <==>
            |orders| <= cap
  {
    var s0 := Start(cap, blank, threads);
    if |orders| > cap {
      var acts := LongStreamMisapplies(g, orders, cap, blank, threads);
    } else {
      StartInv(orders, cap, blank, threads);
      assert AllDelivered(g, orders, s0) by { assert orders[..0] == []; }
      forall acts: seq<Action>
        ensures AllApplied(g, orders, Run(g, orders, s0, acts))
      {
        ShortStreamsNeverLap(g, orders, cap, blank, threads, acts);
        RunDelivers(g, orders, s0, acts);
        DeliveredApplied(g, orders, Run(g, orders, s0, acts));
      }
    }
  }

  lemma DeliveredApplied(g: Hash, orders: seq<Message>, s: State)
    requires Shaped(s) && AllDelivered(g, orders, s)
    ensures AllApplied(g, orders, s)
  {
    forall c | 0 <= c < |s.consumers|
      ensures s.journal.readers[c].cursor <= |orders|
      ensures s.consumers[c].applied == OfShard(g, |s.consumers|, orders[..s.journal.readers[c].cursor], c)
    {
      assert Delivered(g, orders, s, c);
    }
  }
}
