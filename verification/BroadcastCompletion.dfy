/** The broadcast pipeline cannot wedge: from every reachable state some continuation ends with every
    consumer out of its loop. That is possibility, and asks nothing of the scheduler. */
module BroadcastCompletion {
  import opened Messages
  import J = JournalProtocol
  import opened BroadcastPipeline

  lemma {:induction false} AppendSnoc(
    g: Hash, orders: seq<Message>, s: State, a: seq<Action>, b: seq<Action>, x: Action)
    requires Shaped(s) && Run(g, orders, s, a + b) == Run(g, orders, Run(g, orders, s, a), b)
    ensures Run(g, orders, s, a + (b + [x])) == Run(g, orders, Run(g, orders, s, a), b + [x])
  {
    RunSnoc(g, orders, s, a + b, x);
    RunSnoc(g, orders, Run(g, orders, s, a), b, x);
    assert a + (b + [x]) == (a + b) + [x];
  }

  lemma {:induction false} RunAppend(g: Hash, orders: seq<Message>, s: State, a: seq<Action>, b: seq<Action>)
    requires Shaped(s)
    ensures Run(g, orders, s, a + b) == Run(g, orders, Run(g, orders, s, a), b)
    decreases b
  {
    if b == [] {
      assert a + b == a;
    } else {
      var before, x := b[..|b| - 1], b[|b| - 1];
      RunAppend(g, orders, s, a, before);
      AppendSnoc(g, orders, s, a, before, x);
      assert Run(g, orders, s, a + b) == Run(g, orders, Run(g, orders, s, a), b) by {
        assert b == before + [x];
      }
    }
  }

  lemma {:induction false} RunCons(g: Hash, orders: seq<Message>, s: State, a: Action, acts: seq<Action>)
    requires Shaped(s)
    ensures Run(g, orders, s, [a] + acts) == Run(g, orders, Do(g, orders, s, a), acts)
  {
    RunAppend(g, orders, s, [a], acts);
    RunSnoc(g, orders, s, [], a);
    assert [] + [a] == [a];
  }

  // ---- the producer ends ----

  /** The producer's next step, with every copy taken in one piece. */
  function ProducerNext(orders: seq<Message>, s: State): Action {
    match s.journal.writer
    case JIdle => if s.journal.published < |orders| then PBegin(orders[s.journal.published]) else PDone
    case JWriting(_) => PWrite
    case _ => PStore
  }

  ghost function ProducerWork(orders: seq<Message>, s: State): nat
    requires Shaped(s) && Feeding(orders, s)
  {
    3 * (|orders| - s.journal.published) + (if s.done then 0 else 1)
    - (if s.journal.writer.JWriting? then 1 else if s.journal.writer.JWritten? then 2 else 0)
  }

  lemma ProducerAdvances(g: Hash, orders: seq<Message>, s: State)
    requires Inv(orders, s) && !s.done
    ensures var s1 := Do(g, orders, s, ProducerNext(orders, s));
            Inv(orders, s1) && ProducerWork(orders, s1) < ProducerWork(orders, s)
  {
    StepKeepsInv(g, orders, s, ProducerNext(orders, s));
  }

  lemma {:induction false} ProducerCanFinish(g: Hash, orders: seq<Message>, s: State) returns (acts: seq<Action>)
    requires Inv(orders, s)
    ensures Inv(orders, Run(g, orders, s, acts)) && Run(g, orders, s, acts).done
    decreases ProducerWork(orders, s)
  {
    if s.done {
      acts := [];
    } else {
      var a := ProducerNext(orders, s);
      ProducerAdvances(g, orders, s);
      var rest := ProducerCanFinish(g, orders, Do(g, orders, s, a));
      RunCons(g, orders, s, a, rest);
      acts := [a] + rest;
    }
  }

  // ---- then each consumer ends ----

  /** Steps left on the way round the loop: two for each payload, and the poll and the two questions. */
  ghost function Turn(orders: seq<Message>, s: State, c: nat): nat
    requires Shaped(s) && c < |s.consumers|
  {
    var r := s.journal.readers[c];
    match s.consumers[c].pc
    case Exited => 0
    case AskIndex => if r.cursor < |orders| then 4 else 1
    case AskDone => if r.cursor < |orders| then 5 else 2
    case Poll => 3
    case Work => if r.cursor >= r.limit then 4 else if r.using.Some? then 1 else 2
  }

  ghost function ConsumerWork(orders: seq<Message>, s: State, c: nat): nat
    requires Shaped(s) && c < |s.consumers| && s.journal.readers[c].cursor <= |orders|
  {
    10 * (|orders| - s.journal.readers[c].cursor) + Turn(orders, s, c)
  }

  /** Once the producer is done, every step of a consumer brings it nearer to its exit. */
  lemma ConsumerAdvances(g: Hash, orders: seq<Message>, s: State, c: nat)
    requires Inv(orders, s) && s.done && c < |s.consumers| && !s.consumers[c].pc.Exited?
    ensures s.journal.readers[c].cursor <= |orders|
    ensures var s1 := Do(g, orders, s, CStep(c));
            && Inv(orders, s1) && s1.done
            && s1.journal.readers[c].cursor <= |orders|
            && ConsumerWork(orders, s1, c) < ConsumerWork(orders, s, c)
  {
    StepKeepsInv(g, orders, s, CStep(c));
    assert ConsumerOk(orders, s, c);
  }

  /** A continuation of one consumer's steps, after which it and all who had exited are out. */
  lemma {:induction false} ConsumerCanExit(g: Hash, orders: seq<Message>, s: State, c: nat)
    returns (acts: seq<Action>)
    requires Inv(orders, s) && s.done && c < |s.consumers| && s.journal.readers[c].cursor <= |orders|
    ensures var s1 := Run(g, orders, s, acts);
            && Inv(orders, s1) && s1.done && s1.consumers[c].pc.Exited?
            && forall d :: 0 <= d < |s.consumers| && s.consumers[d].pc.Exited? ==> s1.consumers[d].pc.Exited?
    decreases ConsumerWork(orders, s, c)
  {
    if s.consumers[c].pc.Exited? {
      acts := [];
    } else {
      ConsumerAdvances(g, orders, s, c);
      var s1 := Do(g, orders, s, CStep(c));
      forall d | 0 <= d < |s.consumers| && s.consumers[d].pc.Exited?
        ensures s1.consumers[d].pc.Exited?
      {
        OthersLeaveAlone(g, orders, s, CStep(c), d);
      }
      var rest := ConsumerCanExit(g, orders, s1, c);
      RunCons(g, orders, s, CStep(c), rest);
      acts := [CStep(c)] + rest;
    }
  }

  lemma {:induction false} ConsumersCanExit(g: Hash, orders: seq<Message>, s: State, k: nat)
    returns (acts: seq<Action>)
    requires Inv(orders, s) && s.done && k <= |s.consumers|
    requires forall d :: 0 <= d < k ==> s.consumers[d].pc.Exited?
    ensures Finished(Run(g, orders, s, acts))
    decreases |s.consumers| - k
  {
    if k == |s.consumers| {
      acts := [];
    } else {
      var first := ConsumerCanExit(g, orders, s, k);
      var rest := ConsumersCanExit(g, orders, Run(g, orders, s, first), k + 1);
      RunAppend(g, orders, s, first, rest);
      acts := first + rest;
    }
  }

  /** Every run, however it was interleaved, can be continued to a complete one. */
  lemma {:induction false} CanAlwaysFinish(
    g: Hash, orders: seq<Message>, cap: nat, blank: Message, threads: nat, acts: seq<Action>)
    returns (more: seq<Action>)
    requires cap > 0 && threads > 0
    ensures Finished(Run(g, orders, Start(cap, blank, threads), acts + more))
  {
    var s0 := Start(cap, blank, threads);
    StartInv(orders, cap, blank, threads);
    RunKeepsInv(g, orders, s0, acts);
    var s := Run(g, orders, s0, acts);
    var first := ProducerCanFinish(g, orders, s);
    var rest := ConsumersCanExit(g, orders, Run(g, orders, s, first), 0);
    RunAppend(g, orders, s, first, rest);
    RunAppend(g, orders, s0, acts, first + rest);
    more := first + rest;
  }
}
