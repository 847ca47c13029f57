/** The routed pipeline cannot wedge: from every reachable state, full queues included, some continuation
    ends with every consumer out of its loop. That is possibility, and asks nothing of the scheduler. */
module RoutedCompletion {
  import opened Messages
  import Q = SpscProtocol
  import opened RoutedPipeline

  lemma {:induction false} RunSnoc(g: Hash, orders: seq<Message>, s: State, acts: seq<Action>, a: Action)
    requires Shaped(s)
    ensures Run(g, orders, s, acts + [a]) == Do(g, orders, Run(g, orders, s, acts), a)
  {
    assert (acts + [a])[..|acts|] == acts;
  }

  lemma {:induction false} AppendSnoc(
    g: Hash, orders: seq<Message>, s: State, a: seq<Action>, b: seq<Action>, x: Action)
    requires Shaped(s) && Run(g, orders, s, a + b) == Run(g, orders, Run(g, orders, s, a), b)
    ensures Run(g, orders, s, a + (b + [x])) == Run(g, orders, Run(g, orders, s, a), b + [x])
  {
    RunSnoc(g, orders, s, a + b, x);
    RunSnoc(g, orders, Run(g, orders, s, a), b, x);
    assert a + (b + [x]) == (a + b) + [x];
  }

  lemma {:induction false} RunAppend(g: Hash, orders: seq<Message>, s: State, a: seq<Action>, b: seq<Action>)
    requires Shaped(s)
    ensures Run(g, orders, s, a + b) == Run(g, orders, Run(g, orders, s, a), b)
    decreases b
  {
    if b == [] {
      assert a + b == a;
    } else {
      var before, x := b[..|b| - 1], b[|b| - 1];
      RunAppend(g, orders, s, a, before);
      AppendSnoc(g, orders, s, a, before, x);
      assert Run(g, orders, s, a + b) == Run(g, orders, Run(g, orders, s, a), b) by {
        assert b == before + [x];
      }
    }
  }

  lemma {:induction false} RunCons(g: Hash, orders: seq<Message>, s: State, a: Action, acts: seq<Action>)
    requires Shaped(s)
    ensures Run(g, orders, s, [a] + acts) == Run(g, orders, Do(g, orders, s, a), acts)
  {
    RunAppend(g, orders, s, [a], acts);
    RunSnoc(g, orders, s, [], a);
    assert [] + [a] == [a];
  }

  // ---- a consumer drains its queue ----

  /** Steps left on the way round the loop: three for each item, the failed pop and the two questions. */
  function Turn(s: State, t: nat): nat
    requires Shaped(s) && t < |s.queues|
  {
    var q := s.queues[t];
    var pending := q.tail < q.head;
    match s.pcs[t]
    case Exited => 0
    case AskAvailable => if pending then 4 else 1
    case AskDone => if pending then 5 else 2
    case Pop =>
      match q.consumer
      case CCopied(_) => 1
      case CLoaded(h) => if q.tail < h then 2 else if pending then 6 else 3
      case CIdle => if pending then 3 else 4
  }

  function ConsumerWork(s: State, t: nat): nat
    requires Shaped(s) && t < |s.queues| && s.queues[t].tail <= s.queues[t].head
  {
    10 * (s.queues[t].head - s.queues[t].tail) + Turn(s, t)
  }

  /** Whatever a consumer does, the producer's side stays as it was. */
  ghost predicate SameProducer(s: State, s1: State) {
    && s1.next == s.next && s1.phase == s.phase && s1.batches == s.batches && s1.done == s.done
    && |s1.queues| == |s.queues|
    && forall t :: 0 <= t < |s.queues| ==>
         && s1.queues[t].producer == s.queues[t].producer && s1.queues[t].head == s.queues[t].head
         && s1.queues[t].cap == s.queues[t].cap
  }

  lemma ConsumerLeavesProducer(g: Hash, orders: seq<Message>, s: State, t: nat)
    requires Shaped(s) && t < |s.queues|
    ensures SameProducer(s, Do(g, orders, s, CStep(t)))
  {
  }

  lemma TailBehindHead(g: Hash, orders: seq<Message>, s: State, t: nat)
    requires Inv(g, orders, s) && t < |s.queues|
    ensures s.queues[t].tail <= s.queues[t].head
  {
    assert ShardOk(g, orders, s, t);
  }

  lemma ConsumerMoves(g: Hash, orders: seq<Message>, s: State, t: nat)
    requires Inv(g, orders, s) && t < |s.queues|
    ensures s.queues[t].tail <= s.queues[t].head
    ensures var s1 := Do(g, orders, s, CStep(t));
            Inv(g, orders, s1) && SameProducer(s, s1) && s1.queues[t].tail <= s1.queues[t].head
  {
    StepKeepsInv(g, orders, s, CStep(t));
    ConsumerLeavesProducer(g, orders, s, t);
    TailBehindHead(g, orders, s, t);
    TailBehindHead(g, orders, Do(g, orders, s, CStep(t)), t);
  }

  /** While items are pending, and once the producer is done, every step brings the consumer nearer to its exit. */
  lemma ConsumerAdvances(g: Hash, orders: seq<Message>, s: State, t: nat)
    requires Inv(g, orders, s) && t < |s.queues| && !s.pcs[t].Exited?
    requires s.done || s.queues[t].tail < s.queues[t].head
    ensures s.queues[t].tail <= s.queues[t].head
    ensures var s1 := Do(g, orders, s, CStep(t));
            && s1.queues[t].tail <= s1.queues[t].head
            && ConsumerWork(s1, t) < ConsumerWork(s, t)
  {
    ConsumerMoves(g, orders, s, t);
    assert ShardOk(g, orders, s, t);
  }

  lemma {:induction false} QueueCanDrain(g: Hash, orders: seq<Message>, s: State, t: nat)
    returns (acts: seq<Action>)
    requires Inv(g, orders, s) && t < |s.queues| && s.queues[t].tail <= s.queues[t].head
    ensures var s1 := Run(g, orders, s, acts);
            Inv(g, orders, s1) && SameProducer(s, s1) && s1.queues[t].tail == s1.queues[t].head
    decreases ConsumerWork(s, t)
  {
    if s.queues[t].tail == s.queues[t].head {
      acts := [];
    } else {
      assert ShardOk(g, orders, s, t);
      ConsumerMoves(g, orders, s, t);
      ConsumerAdvances(g, orders, s, t);
      var rest := QueueCanDrain(g, orders, Do(g, orders, s, CStep(t)), t);
      RunCons(g, orders, s, CStep(t), rest);
      acts := [CStep(t)] + rest;
    }
  }

  // ---- the producer ends ----

  function Stage(s: State): nat {
    match s.phase
    case Flush(_, _, last) => if last then 2 else 4
    case Route => 3
    case Stopped => if s.done then 0 else 1
  }

  function ShardsLeft(s: State): nat
    requires Shaped(s)
  {
    if s.phase.Flush? && s.phase.last then |s.queues| - s.phase.shard else 0
  }

  function BatchLeft(s: State): nat
    requires Shaped(s)
  {
    if s.phase.Flush? then |s.batches[s.phase.shard]| - s.phase.k else 0
  }

  /** Steps left of the current push, should the queue have room when the tail is next loaded. */
  function PushLeft(s: State): nat
    requires Shaped(s)
  {
    if !s.phase.Flush? then 0 else
    var q := s.queues[s.phase.shard];
    match q.producer
    case PIdle => 4
    case PLoaded(_, _) => if Q.Full(q) then 3 else 2
    case PWritten(_) => 1
  }

  ghost predicate Nearer(orders: seq<Message>, s1: State, s: State)
    requires Shaped(s) && Shaped(s1)
  {
    || |orders| - s1.next < |orders| - s.next
    || (s1.next == s.next && Stage(s1) < Stage(s))
    || (s1.next == s.next && Stage(s1) == Stage(s) && ShardsLeft(s1) < ShardsLeft(s))
    || (s1.next == s.next && Stage(s1) == Stage(s) && ShardsLeft(s1) == ShardsLeft(s) && BatchLeft(s1) < BatchLeft(s))
    || (s1.next == s.next && Stage(s1) == Stage(s) && ShardsLeft(s1) == ShardsLeft(s) && BatchLeft(s1) == BatchLeft(s)
        && PushLeft(s1) < PushLeft(s))
  }

  /** With the queue it is pushing to drained, the producer's next step is progress. */
  lemma ProducerAdvances(g: Hash, orders: seq<Message>, s: State)
    requires Inv(g, orders, s) && !s.done
    requires s.phase.Flush? ==> s.queues[s.phase.shard].tail == s.queues[s.phase.shard].head
    ensures Nearer(orders, ProducerStep(g, orders, s), s)
  {
  }

  /** A drained queue for the push in hand, and nothing else of the producer's changed. */
  lemma {:induction false} PushCanProceed(g: Hash, orders: seq<Message>, s: State) returns (acts: seq<Action>)
    requires Inv(g, orders, s)
    ensures var s1 := Run(g, orders, s, acts);
            && Inv(g, orders, s1) && SameProducer(s, s1)
            && (s1.phase.Flush? ==> s1.queues[s1.phase.shard].tail == s1.queues[s1.phase.shard].head)
  {
    if s.phase.Flush? {
      TailBehindHead(g, orders, s, s.phase.shard);
      acts := QueueCanDrain(g, orders, s, s.phase.shard);
    } else {
      acts := [];
    }
  }

  lemma {:induction false} ProducerCanFinish(g: Hash, orders: seq<Message>, s: State) returns (acts: seq<Action>)
    requires Inv(g, orders, s)
    ensures Inv(g, orders, Run(g, orders, s, acts)) && Run(g, orders, s, acts).done
    decreases |orders| - s.next, Stage(s), ShardsLeft(s), BatchLeft(s), PushLeft(s)
  {
    if s.done {
      acts := [];
    } else {
      var drain := PushCanProceed(g, orders, s);
      var s1 := Run(g, orders, s, drain);
      ProducerAdvances(g, orders, s1);
      StepKeepsInv(g, orders, s1, PStep);
      var rest := ProducerCanFinish(g, orders, Do(g, orders, s1, PStep));
      RunCons(g, orders, s1, PStep, rest);
      RunAppend(g, orders, s, drain, [PStep] + rest);
      acts := drain + ([PStep] + rest);
    }
  }

  // ---- then each consumer ends ----

  lemma {:induction false} ConsumerCanExit(g: Hash, orders: seq<Message>, s: State, t: nat)
    returns (acts: seq<Action>)
    requires Inv(g, orders, s) && s.done && t < |s.queues| && s.queues[t].tail <= s.queues[t].head
    ensures var s1 := Run(g, orders, s, acts);
            && Inv(g, orders, s1) && s1.done && s1.pcs[t].Exited?
            && forall u :: 0 <= u < |s.queues| && s.pcs[u].Exited? ==> s1.pcs[u].Exited?
    decreases ConsumerWork(s, t)
  {
    if s.pcs[t].Exited? {
      acts := [];
    } else {
      ConsumerMoves(g, orders, s, t);
      ConsumerAdvances(g, orders, s, t);
      var s1 := Do(g, orders, s, CStep(t));
      forall u | 0 <= u < |s.queues| && s.pcs[u].Exited?
        ensures s1.pcs[u].Exited?
      {
        ConsumerLeavesOthers(s, t, u);
      }
      var rest := ConsumerCanExit(g, orders, s1, t);
      RunCons(g, orders, s, CStep(t), rest);
      acts := [CStep(t)] + rest;
    }
  }

  lemma {:induction false} ConsumersCanExit(g: Hash, orders: seq<Message>, s: State, k: nat)
    returns (acts: seq<Action>)
    requires Inv(g, orders, s) && s.done && k <= |s.queues|
    requires forall u :: 0 <= u < k ==> s.pcs[u].Exited?
    ensures Finished(Run(g, orders, s, acts))
    decreases |s.queues| - k
  {
    if k == |s.queues| {
      acts := [];
    } else {
      TailBehindHead(g, orders, s, k);
      var first := ConsumerCanExit(g, orders, s, k);
      var rest := ConsumersCanExit(g, orders, Run(g, orders, s, first), k + 1);
      RunAppend(g, orders, s, first, rest);
      acts := first + rest;
    }
  }

  /** Every run, however it was interleaved, can be continued to a complete one: the bounded `push`
      and the shutdown handshake never block for good. */
  lemma {:induction false} CanAlwaysFinish(
    g: Hash, orders: seq<Message>, slots: seq<Message>, threads: nat, acts: seq<Action>)
    returns (more: seq<Action>)
    requires slots != [] && threads > 0
    ensures Finished(Run(g, orders, Start(slots, threads), acts + more))
  {
    var s0 := Start(slots, threads);
    StartInv(g, orders, slots, threads);
    RunKeepsInv(g, orders, s0, acts);
    var s := Run(g, orders, s0, acts);
    var first := ProducerCanFinish(g, orders, s);
    var rest := ConsumersCanExit(g, orders, Run(g, orders, s, first), 0);
    RunAppend(g, orders, s, first, rest);
    RunAppend(g, orders, s0, acts, first + rest);
    more := first + rest;
  }
}
