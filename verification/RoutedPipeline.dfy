/** RoutedPipeline::run as interleaved threads: one producer that batches orders per shard and flushes full
    batches into the shard's queue, and one consumer per queue. */
module RoutedPipeline {
  import opened Messages
  import Q = SpscProtocol
  import opened Sharding

  const BATCH_SIZE: nat := 64

  /** The producer routes the next order, or is pushing message `k` of a batch; `last` marks the
      final flush over all shards, after which it stops. */
  datatype Phase = Route | Flush(shard: nat, k: nat, last: bool) | Stopped

  datatype Pc = Pop | AskDone | AskAvailable | Exited

  /** A consumer's applied messages are those its queue has popped. */
  datatype State = State(
    queues: seq<Q.Queue<Message>>, batches: seq<seq<Message>>, next: nat, phase: Phase, done: bool,
    pcs: seq<Pc>, counts: seq<nat>)

  /** Both threads' steps are determined by where they are, except how much of a payload copy is visible. */
  datatype Action = PStep | PScribble(part: Message) | CStep(t: nat)

  ghost predicate Shaped(s: State) {
    && 0 < |s.queues| == |s.batches| == |s.pcs| == |s.counts|
    && (forall t :: 0 <= t < |s.queues| ==> Q.Shaped(s.queues[t]))
    && (s.phase.Flush? ==> s.phase.shard < |s.queues| && s.phase.k <= |s.batches[s.phase.shard]|)
  }

  function WithQueue(s: State, t: nat, a: Q.Action<Message>): State
    requires t < |s.queues| && Q.Shaped(s.queues[t])
  {
    s.(queues := s.queues[t := Q.Do(s.queues[t], a)])
  }

  function RouteNext(g: Hash, orders: seq<Message>, s: State): State
    requires Shaped(s) && s.next < |orders|
  {
    var t := ShardOf(g, |s.queues|, orders[s.next].ticker);
    var batch := s.batches[t] + [orders[s.next]];
    s.(batches := s.batches[t := batch], next := s.next + 1,
       phase := if |batch| >= BATCH_SIZE then Flush(t, 0, false) else Route)
  }

  /** The next step of `push(batches[shard][k])`. */
  function PushNext(s: State): State
    requires Shaped(s) && s.phase.Flush? && s.phase.k < |s.batches[s.phase.shard]|
  {
    var t, k := s.phase.shard, s.phase.k;
    match s.queues[t].producer
    case PIdle => WithQueue(s, t, Q.PLoad(s.batches[t][k]))
    case PLoaded(_, _) => WithQueue(s, t, if Q.Full(s.queues[t]) then Q.PSpin else Q.PWrite)
    case PWritten(_) => WithQueue(s, t, Q.PStore).(phase := s.phase.(k := k + 1))
  }

  function EndFlush(s: State): State
    requires Shaped(s) && s.phase.Flush?
  {
    var t := s.phase.shard;
    if !s.phase.last then s.(batches := s.batches[t := []], phase := Route)
    else if t + 1 < |s.queues| then s.(phase := Flush(t + 1, 0, true))
    else s.(phase := Stopped)
  }

  function ProducerStep(g: Hash, orders: seq<Message>, s: State): State
    requires Shaped(s)
  {
    match s.phase
    case Route => if s.next < |orders| then RouteNext(g, orders, s) else s.(phase := Flush(0, 0, true))
    case Flush(t, k, _) => if k < |s.batches[t]| then PushNext(s) else EndFlush(s)
    case Stopped => s.(done := true)
  }

  function ConsumerStep(s: State, t: nat): State
    requires Shaped(s) && t < |s.queues|
  {
    var q := s.queues[t];
    match s.pcs[t]
    case Pop =>
      (match q.consumer
       case CIdle => WithQueue(s, t, Q.CLoad)
       case CLoaded(h) =>
         if q.tail >= h then WithQueue(s, t, Q.CEmpty).(pcs := s.pcs[t := AskDone]) else WithQueue(s, t, Q.CCopy)
       case CCopied(_) => WithQueue(s, t, Q.CStore).(counts := s.counts[t := s.counts[t] + 1]))
    case AskDone => s.(pcs := s.pcs[t := if s.done then AskAvailable else Pop])
    case AskAvailable => s.(pcs := s.pcs[t := if q.head - q.tail == 0 then Exited else Pop])
    case Exited => s
  }

  function Do(g: Hash, orders: seq<Message>, s: State, a: Action): (r: State)
    requires Shaped(s)
    ensures Shaped(r) && |r.queues| == |s.queues|
  {
    match a
    case PStep => ProducerStep(g, orders, s)
    case PScribble(part) => if s.phase.Flush? then WithQueue(s, s.phase.shard, Q.PScribble(part)) else s
    case CStep(t) => if t < |s.queues| then ConsumerStep(s, t) else s
  }

  function Start(slots: seq<Message>, threads: nat): State {
    State(seq(threads, _ => Q.NewQueue(slots)), seq(threads, _ => []), 0, Route, false,
          seq(threads, _ => Pop), seq(threads, _ => 0))
  }

  function Run(g: Hash, orders: seq<Message>, s: State, acts: seq<Action>): (r: State)
    requires Shaped(s)
    ensures Shaped(r) && |r.queues| == |s.queues|
    decreases acts
  {
    if acts == [] then s else Do(g, orders, Run(g, orders, s, acts[..|acts| - 1]), acts[|acts| - 1])
  }

  // ---- the ledger of each shard ----

  /** The messages of shard `t` already routed and not yet pushed. */
  function Outstanding(s: State, t: nat): seq<Message>
    requires Shaped(s) && t < |s.queues|
  {
    match s.phase
    case Route => s.batches[t]
    case Flush(u, k, last) =>
      if t == u then s.batches[t][k..] else if last && t < u then [] else s.batches[t]
    case Stopped => []
  }

  /** The producer is inside a push exactly of the next outstanding message. */
  predicate PushingNext(s: State, t: nat)
    requires Shaped(s) && t < |s.queues|
  {
    var p := s.queues[t].producer;
    p.PIdle? || (s.phase.Flush? && s.phase.shard == t && s.phase.k < |s.batches[t]| &&
                 p.item == s.batches[t][s.phase.k])
  }

  ghost predicate Ledger(g: Hash, orders: seq<Message>, s: State, t: nat)
    requires Shaped(s) && t < |s.queues|
  {
    && s.next <= |orders|
    && s.queues[t].pushed + Outstanding(s, t) == OfShard(g, |s.queues|, orders[..s.next], t)
    && PushingNext(s, t)
  }

  ghost predicate ConsumerOk(s: State, t: nat)
    requires Shaped(s) && t < |s.queues|
  {
    && s.counts[t] == |s.queues[t].popped|
    && (s.pcs[t].AskAvailable? || s.pcs[t].Exited? ==> s.done)
    && (s.pcs[t].Exited? ==> s.queues[t].head == s.queues[t].tail)
    && (!s.pcs[t].Pop? ==> s.queues[t].consumer.CIdle?)
  }

  ghost predicate PhaseOk(orders: seq<Message>, s: State) {
    && s.next <= |orders|
    && (s.phase.Stopped? || (s.phase.Flush? && s.phase.last) ==> s.next == |orders|)
    && (s.done ==> s.phase.Stopped?)
  }

  ghost predicate ShardOk(g: Hash, orders: seq<Message>, s: State, t: nat)
    requires Shaped(s) && t < |s.queues|
  {
    Q.Inv(s.queues[t]) && Ledger(g, orders, s, t) && ConsumerOk(s, t)
  }

  ghost predicate Inv(g: Hash, orders: seq<Message>, s: State) {
    && Shaped(s) && PhaseOk(orders, s)
    && forall t :: 0 <= t < |s.queues| ==> ShardOk(g, orders, s, t)
  }

  // ---- producer steps ----

  lemma RouteKeepsLedger(g: Hash, orders: seq<Message>, s: State, t: nat)
    requires Shaped(s) && t < |s.queues| && s.phase.Route? && s.next < |orders| && Ledger(g, orders, s, t)
    ensures Ledger(g, orders, RouteNext(g, orders, s), t)
  {
    var n := s.next;
    OfShardSnoc(g, |s.queues|, orders[..n], orders[n], t);
    assert orders[..n] + [orders[n]] == orders[..n + 1];
  }

  lemma HandOver(pushed: seq<Message>, b: seq<Message>, k: nat)
    requires k < |b|
    ensures pushed + b[k..] == (pushed + [b[k]]) + b[k + 1..]
  {
    assert b[k..] == [b[k]] + b[k + 1..];
  }

  /** The store of the head is the moment a message moves from the batch to the queue. */
  lemma StoreMoves(s: State)
    requires Shaped(s) && s.phase.Flush? && s.phase.k < |s.batches[s.phase.shard]|
    requires s.queues[s.phase.shard].producer.PWritten?
    ensures var (t, s1) := (s.phase.shard, PushNext(s));
            && s1.queues[t].pushed == s.queues[t].pushed + [s.queues[t].producer.item]
            && Outstanding(s1, t) == s.batches[t][s.phase.k + 1..]
            && s1.queues[t].producer.PIdle? && s1.next == s.next
  {
  }

  lemma StoreKeepsLedger(g: Hash, orders: seq<Message>, s: State)
    requires Shaped(s) && s.phase.Flush? && s.phase.k < |s.batches[s.phase.shard]|
    requires s.queues[s.phase.shard].producer.PWritten? && Ledger(g, orders, s, s.phase.shard)
    ensures Ledger(g, orders, PushNext(s), s.phase.shard)
  {
    StoreMoves(s);
    HandOver(s.queues[s.phase.shard].pushed, s.batches[s.phase.shard], s.phase.k);
  }

  lemma PushLeavesOthers(s: State, t: nat)
    requires Shaped(s) && s.phase.Flush? && s.phase.k < |s.batches[s.phase.shard]| && t < |s.queues|
    requires t != s.phase.shard
    ensures PushNext(s).queues[t] == s.queues[t] && Outstanding(PushNext(s), t) == Outstanding(s, t)
    ensures PushNext(s).next == s.next
  {
  }

  lemma PushKeepsLedger(g: Hash, orders: seq<Message>, s: State, t: nat)
    requires Shaped(s) && s.phase.Flush? && s.phase.k < |s.batches[s.phase.shard]| && t < |s.queues|
    requires Ledger(g, orders, s, t)
    ensures Ledger(g, orders, PushNext(s), t)
  {
    if t != s.phase.shard {
      PushLeavesOthers(s, t);
    } else if s.queues[t].producer.PWritten? {
      StoreKeepsLedger(g, orders, s);
    } else {
      assert PushNext(s).queues[t].pushed == s.queues[t].pushed;
    }
  }

  lemma EndFlushKeepsLedger(g: Hash, orders: seq<Message>, s: State, t: nat)
    requires Shaped(s) && s.phase.Flush? && s.phase.k == |s.batches[s.phase.shard]| && t < |s.queues|
    requires Ledger(g, orders, s, t)
    ensures Ledger(g, orders, EndFlush(s), t)
  {
    assert s.batches[t][0..] == s.batches[t];
  }

  lemma ProducerKeepsLedger(g: Hash, orders: seq<Message>, s: State, t: nat)
    requires Shaped(s) && t < |s.queues| && Ledger(g, orders, s, t) && PhaseOk(orders, s)
    ensures Ledger(g, orders, ProducerStep(g, orders, s), t)
  {
    match s.phase
    case Route =>
      if s.next < |orders| {
        RouteKeepsLedger(g, orders, s, t);
      } else {
        assert s.batches[t][0..] == s.batches[t];
      }
    case Flush(u, k, _) =>
      if k < |s.batches[u]| { PushKeepsLedger(g, orders, s, t); } else { EndFlushKeepsLedger(g, orders, s, t); }
    case Stopped =>
  }

  /** A producer step is at most one step of one queue's producer. */
  lemma ProducerMovesQueue(g: Hash, orders: seq<Message>, s: State, t: nat) returns (a: Q.Action<Message>)
    requires Shaped(s) && t < |s.queues|
    ensures var q1 := ProducerStep(g, orders, s).queues[t];
            q1 == s.queues[t] || (q1 == Q.Do(s.queues[t], a) && s.phase.Flush?)
    ensures a.PLoad? || a.PSpin? || a.PWrite? || a.PStore?
  {
    var p := s.queues[t].producer;
    a := match p
         case PIdle =>
           Q.PLoad(if s.phase.Flush? && s.phase.shard == t && s.phase.k < |s.batches[t]| then s.batches[t][s.phase.k]
                   else Message(Add, 0, 0, 0, 0, ' ', 0))
         case PLoaded(_, _) => if Q.Full(s.queues[t]) then Q.PSpin else Q.PWrite
         case PWritten(_) => Q.PStore;
  }

  lemma ProducerKeepsShard(g: Hash, orders: seq<Message>, s: State, t: nat)
    requires Shaped(s) && PhaseOk(orders, s) && t < |s.queues| && ShardOk(g, orders, s, t)
    ensures ShardOk(g, orders, ProducerStep(g, orders, s), t)
  {
    ProducerKeepsLedger(g, orders, s, t);
    var a := ProducerMovesQueue(g, orders, s, t);
    Q.StepKeepsInv(s.queues[t], a);
  }

  lemma ScribbleKeepsShard(g: Hash, orders: seq<Message>, s: State, part: Message, t: nat)
    requires Shaped(s) && t < |s.queues| && ShardOk(g, orders, s, t)
    ensures ShardOk(g, orders, Do(g, orders, s, PScribble(part)), t)
  {
    Q.StepKeepsInv(s.queues[t], Q.PScribble(part));
  }

  // ---- consumer steps ----

  lemma ConsumerMovesQueue(s: State, t: nat) returns (a: Q.Action<Message>)
    requires Shaped(s) && t < |s.queues|
    ensures var q1 := ConsumerStep(s, t).queues[t]; q1 == s.queues[t] || q1 == Q.Do(s.queues[t], a)
    ensures a.CLoad? || a.CEmpty? || a.CCopy? || a.CStore?
  {
    var q := s.queues[t];
    a := match q.consumer
         case CIdle => Q.CLoad
         case CLoaded(h) => if q.tail >= h then Q.CEmpty else Q.CCopy
         case CCopied(_) => Q.CStore;
  }

  lemma ConsumerKeepsLedger(g: Hash, orders: seq<Message>, s: State, u: nat, t: nat)
    requires Shaped(s) && t < |s.queues| && u < |s.queues| && Ledger(g, orders, s, t)
    ensures Ledger(g, orders, ConsumerStep(s, u), t)
  {
    var s1 := ConsumerStep(s, u);
    assert s1.queues[t].pushed == s.queues[t].pushed && s1.queues[t].producer == s.queues[t].producer;
    assert s1.batches == s.batches && s1.phase == s.phase && s1.next == s.next;
  }

  lemma ConsumerKeepsItself(s: State, t: nat)
    requires Shaped(s) && t < |s.queues| && ConsumerOk(s, t)
    ensures ConsumerOk(ConsumerStep(s, t), t)
  {
  }

  lemma ConsumerKeepsShard(g: Hash, orders: seq<Message>, s: State, t: nat)
    requires Shaped(s) && t < |s.queues| && ShardOk(g, orders, s, t)
    ensures ShardOk(g, orders, ConsumerStep(s, t), t)
  {
    ConsumerKeepsLedger(g, orders, s, t, t);
    ConsumerKeepsItself(s, t);
    var a := ConsumerMovesQueue(s, t);
    Q.StepKeepsInv(s.queues[t], a);
  }

  lemma ConsumerLeavesOthers(s: State, u: nat, t: nat)
    requires Shaped(s) && t < |s.queues| && u < |s.queues| && t != u
    ensures var s1 := ConsumerStep(s, u);
            && s1.queues[t] == s.queues[t] && s1.counts[t] == s.counts[t] && s1.pcs[t] == s.pcs[t]
            && s1.done == s.done
  {
  }

  lemma OthersKeepShard(g: Hash, orders: seq<Message>, s: State, u: nat, t: nat)
    requires Shaped(s) && t < |s.queues| && u < |s.queues| && t != u && ShardOk(g, orders, s, t)
    ensures ShardOk(g, orders, ConsumerStep(s, u), t)
  {
    ConsumerKeepsLedger(g, orders, s, u, t);
    ConsumerLeavesOthers(s, u, t);
  }

  // ---- every step, every run ----

  lemma StepKeepsInv(g: Hash, orders: seq<Message>, s: State, a: Action)
    requires Inv(g, orders, s)
    ensures Inv(g, orders, Do(g, orders, s, a))
  {
    forall t | 0 <= t < |s.queues|
      ensures ShardOk(g, orders, Do(g, orders, s, a), t)
    {
      match a
      case PStep => ProducerKeepsShard(g, orders, s, t);
      case PScribble(part) => ScribbleKeepsShard(g, orders, s, part, t);
      case CStep(u) =>
        if u == t { ConsumerKeepsShard(g, orders, s, t); }
        else if u < |s.queues| { OthersKeepShard(g, orders, s, u, t); }
    }
  }

  lemma {:induction false} RunKeepsInv(g: Hash, orders: seq<Message>, s: State, acts: seq<Action>)
    requires Inv(g, orders, s)
    ensures Inv(g, orders, Run(g, orders, s, acts))
    decreases acts
  {
    if acts != [] {
      RunKeepsInv(g, orders, s, acts[..|acts| - 1]);
      StepKeepsInv(g, orders, Run(g, orders, s, acts[..|acts| - 1]), acts[|acts| - 1]);
    }
  }

  lemma StartInv(g: Hash, orders: seq<Message>, slots: seq<Message>, threads: nat)
    requires slots != [] && threads > 0
    ensures Inv(g, orders, Start(slots, threads))
  {
    assert orders[..0] == [];
  }

  /** Under every interleaving, what a shard's queue was given plus what is still batched is the
      shard's part of the orders routed so far; and what its consumer has popped is a prefix
      of what the queue was given. */
  lemma LedgerHolds(g: Hash, orders: seq<Message>, slots: seq<Message>, threads: nat, acts: seq<Action>, t: nat)
    requires slots != [] && t < threads
    ensures var s := Run(g, orders, Start(slots, threads), acts);
            && s.next <= |orders|
            && s.queues[t].pushed + Outstanding(s, t) == OfShard(g, threads, orders[..s.next], t)
            && s.queues[t].popped <= s.queues[t].pushed
  {
    StartInv(g, orders, slots, threads);
    RunKeepsInv(g, orders, Start(slots, threads), acts);
    assert ShardOk(g, orders, Run(g, orders, Start(slots, threads), acts), t);
  }

  // ---- batches go out when they hold 64 ----

  /** Before the final flush a shard's queue has been given whole batches of 64 only, but for the one going out. */
  ghost predicate BatchOk(s: State, t: nat)
    requires Shaped(s) && t < |s.queues|
  {
    match s.phase
    case Route => |s.batches[t]| < 64 && |s.queues[t].pushed| % 64 == 0
    case Flush(u, k, last) =>
      if last then |s.batches[t]| < 64
      else if t == u then |s.batches[t]| == 64 && |s.queues[t].pushed| % 64 == k % 64
      else |s.batches[t]| < 64 && |s.queues[t].pushed| % 64 == 0
    case Stopped => |s.batches[t]| < 64
  }

  lemma RouteKeepsBatch(g: Hash, orders: seq<Message>, s: State, t: nat)
    requires Shaped(s) && t < |s.queues| && BatchOk(s, t) && s.phase.Route? && s.next < |orders|
    ensures BatchOk(RouteNext(g, orders, s), t)
  {
  }

  lemma PushKeepsBatch(s: State, t: nat)
    requires Shaped(s) && t < |s.queues| && BatchOk(s, t)
    requires s.phase.Flush? && s.phase.k < |s.batches[s.phase.shard]|
    ensures BatchOk(PushNext(s), t)
  {
    if t != s.phase.shard {
      PushLeavesOthers(s, t);
    } else if s.queues[t].producer.PWritten? {
      StoreCounts(s);
      if !s.phase.last { NextOf64(|s.queues[t].pushed|, s.phase.k); }
    } else {
      WaitCounts(s);
    }
  }

  lemma StoreCounts(s: State)
    requires Shaped(s) && s.phase.Flush? && s.phase.k < |s.batches[s.phase.shard]|
    requires s.queues[s.phase.shard].producer.PWritten?
    ensures var (t, s1) := (s.phase.shard, PushNext(s));
            && |s1.queues[t].pushed| == |s.queues[t].pushed| + 1
            && s1.phase == s.phase.(k := s.phase.k + 1) && s1.batches == s.batches
  {
  }

  lemma WaitCounts(s: State)
    requires Shaped(s) && s.phase.Flush? && s.phase.k < |s.batches[s.phase.shard]|
    requires !s.queues[s.phase.shard].producer.PWritten?
    ensures var (t, s1) := (s.phase.shard, PushNext(s));
            s1.queues[t].pushed == s.queues[t].pushed && s1.phase == s.phase && s1.batches == s.batches
  {
  }

  lemma NextOf64(n: nat, k: nat)
    requires n % 64 == k % 64
    ensures (n + 1) % 64 == (k + 1) % 64
  {
  }

  lemma EndFlushKeepsBatch(s: State, t: nat)
    requires Shaped(s) && t < |s.queues| && BatchOk(s, t)
    requires s.phase.Flush? && s.phase.k == |s.batches[s.phase.shard]|
    ensures BatchOk(EndFlush(s), t)
  {
  }

  lemma ProducerKeepsBatch(g: Hash, orders: seq<Message>, s: State, t: nat)
    requires Shaped(s) && t < |s.queues| && BatchOk(s, t)
    ensures BatchOk(ProducerStep(g, orders, s), t)
  {
    match s.phase
    case Route => if s.next < |orders| { RouteKeepsBatch(g, orders, s, t); }
    case Flush(u, k, _) => if k < |s.batches[u]| { PushKeepsBatch(s, t); } else { EndFlushKeepsBatch(s, t); }
    case Stopped =>
  }

  lemma ConsumerKeepsBatch(s: State, u: nat, t: nat)
    requires Shaped(s) && u < |s.queues| && t < |s.queues| && BatchOk(s, t)
    ensures BatchOk(ConsumerStep(s, u), t)
  {
    var s1 := ConsumerStep(s, u);
    assert s1.queues[t].pushed == s.queues[t].pushed && s1.batches == s.batches && s1.phase == s.phase;
  }

  lemma ScribbleKeepsBatch(g: Hash, orders: seq<Message>, s: State, part: Message, t: nat)
    requires Shaped(s) && t < |s.queues| && BatchOk(s, t)
    ensures BatchOk(Do(g, orders, s, PScribble(part)), t)
  {
  }

  lemma {:induction false} RunKeepsBatches(
    g: Hash, orders: seq<Message>, slots: seq<Message>, threads: nat, acts: seq<Action>)
    requires slots != [] && threads > 0
    ensures forall t :: 0 <= t < threads ==> BatchOk(Run(g, orders, Start(slots, threads), acts), t)
    decreases acts
  {
    if acts != [] {
      var k := |acts| - 1;
      RunKeepsBatches(g, orders, slots, threads, acts[..k]);
      var s := Run(g, orders, Start(slots, threads), acts[..k]);
      forall t | 0 <= t < threads
        ensures BatchOk(Do(g, orders, s, acts[k]), t)
      {
        match acts[k]
        case PStep => ProducerKeepsBatch(g, orders, s, t);
        case PScribble(part) => ScribbleKeepsBatch(g, orders, s, part, t);
        case CStep(u) => if u < threads { ConsumerKeepsBatch(s, u, t); }
      }
    }
  }

  /** Under every interleaving no batch exceeds 64; and whenever the producer is about to route the next
      order, each shard's queue has been given exactly the whole batches of 64 routed so far. */
  lemma {:induction false} BatchesGoOut(
    g: Hash, orders: seq<Message>, slots: seq<Message>, threads: nat, acts: seq<Action>, t: nat)
    requires slots != [] && t < threads
    ensures var s := Run(g, orders, Start(slots, threads), acts);
            && s.next <= |orders|
            && |s.batches[t]| <= 64
            && var routed := OfShard(g, threads, orders[..s.next], t);
               s.phase.Route? ==>
                 && |s.batches[t]| == |routed| % 64
                 && s.queues[t].pushed == routed[..|routed| - |routed| % 64]
  {
    RunKeepsBatches(g, orders, slots, threads, acts);
    LedgerHolds(g, orders, slots, threads, acts, t);
    var s := Run(g, orders, Start(slots, threads), acts);
    var routed := OfShard(g, threads, orders[..s.next], t);
    assert BatchOk(s, t);
    if s.phase.Route? {
      WholeBatches(s.queues[t].pushed, s.batches[t], routed);
    }
  }

  lemma {:induction false} WholeBatches(pushed: seq<Message>, batch: seq<Message>, routed: seq<Message>)
    requires routed == pushed + batch && |batch| < 64 && |pushed| % 64 == 0
    ensures |batch| == |routed| % 64 && pushed == routed[..|routed| - |routed| % 64]
  {
  }

  /** No consumer exits with a message outstanding: when it exits it has popped exactly its shard's
      messages, in order. */
  lemma ExitsWithEverything(g: Hash, orders: seq<Message>, s: State, t: nat)
    requires Inv(g, orders, s) && t < |s.queues| && s.pcs[t].Exited?
    ensures s.queues[t].popped == OfShard(g, |s.queues|, orders, t)
    ensures s.counts[t] == |s.queues[t].popped|
  {
    assert ShardOk(g, orders, s, t);
    assert orders[..|orders|] == orders;
    var q := s.queues[t];
    assert q.pushed[..q.tail] == q.pushed;
    assert Outstanding(s, t) == [];
  }

  ghost predicate Finished(s: State) {
    forall t :: 0 <= t < |s.pcs| ==> s.pcs[t].Exited?
  }

  function Counts(s: State): nat -> nat {
    (t: nat) => if t < |s.counts| then s.counts[t] else 0
  }

  ghost predicate ExactDelivery(g: Hash, orders: seq<Message>, s: State)
    requires |s.queues| > 0
  {
    && (forall t :: 0 <= t < |s.queues| ==> s.queues[t].popped == OfShard(g, |s.queues|, orders, t))
    && SumTo(Counts(s), |s.queues|) == |orders|
  }

  /** Exact delivery: on every complete run, with no further hypothesis, each consumer has popped exactly
      its shard's messages in order, and the per-thread counts sum to the number of orders. */
  lemma RoutedDelivers(g: Hash, orders: seq<Message>, slots: seq<Message>, threads: nat, acts: seq<Action>)
    requires slots != [] && threads > 0 && Finished(Run(g, orders, Start(slots, threads), acts))
    ensures ExactDelivery(g, orders, Run(g, orders, Start(slots, threads), acts))
  {
    StartInv(g, orders, slots, threads);
    RunKeepsInv(g, orders, Start(slots, threads), acts);
    var s := Run(g, orders, Start(slots, threads), acts);
    forall t | 0 <= t < threads
      ensures s.queues[t].popped == OfShard(g, threads, orders, t) && s.counts[t] == |s.queues[t].popped|
    {
      ExitsWithEverything(g, orders, s, t);
    }
    ShardsPartition(g, threads, orders);
    SumSame(Counts(s), ShardSizes(g, threads, orders), threads);
  }
}
