/** The retry loop of `report_consumer_progress`, run by any number of threads at once. The first load is
    relaxed, so it may return any value the counter has had; a weak compare-exchange may fail
    for no reason, and a failure reloads, again possibly stale. */
module ProgressProtocol {

  datatype Reporter = Idle | Looping(value: nat, seen: nat)

  /** `called` and `returned` record the values of calls begun and finished. */
  datatype Progress = Progress(minSeq: nat, reporters: seq<Reporter>, called: set<nat>, returned: set<nat>)

  datatype Action =
    | Call(i: nat, value: nat, seen: nat)
    | Succeed(i: nat)
    | Fail(i: nat, seen: nat)
    | Leave(i: nat)

  /** A load observes the counter now or at some earlier time; the counter never decreases. */
  predicate Observable(p: Progress, seen: nat) {
    seen <= p.minSeq
  }

  predicate InLoop(p: Progress, i: nat) {
    i < |p.reporters| && p.reporters[i].Looping? && p.reporters[i].value > p.reporters[i].seen
  }

  function With(p: Progress, i: nat, r: Reporter): Progress
    requires i < |p.reporters|
  {
    p.(reporters := p.reporters[i := r])
  }

  function Do(p: Progress, a: Action): (r: Progress)
    ensures |r.reporters| == |p.reporters|
  {
    match a
    case Call(i, v, seen) =>
      if i < |p.reporters| && p.reporters[i].Idle? && Observable(p, seen) then
        With(p, i, Looping(v, seen)).(called := p.called + {v}) else p
    case Succeed(i) =>
      if InLoop(p, i) && p.reporters[i].seen == p.minSeq then
        var v := p.reporters[i].value;
        With(p, i, Idle).(minSeq := v, returned := p.returned + {v}) else p
    case Fail(i, seen) =>
      if InLoop(p, i) && Observable(p, seen) then With(p, i, Looping(p.reporters[i].value, seen)) else p
    case Leave(i) =>
      if i < |p.reporters| && p.reporters[i].Looping? && p.reporters[i].value <= p.reporters[i].seen then
        With(p, i, Idle).(returned := p.returned + {p.reporters[i].value}) else p
  }

  function Start(threads: nat): Progress {
    Progress(0, seq(threads, _ => Idle), {}, {})
  }

  function Run(p: Progress, acts: seq<Action>): (r: Progress)
    ensures |r.reporters| == |p.reporters|
    decreases acts
  {
    if acts == [] then p else Do(Run(p, acts[..|acts| - 1]), acts[|acts| - 1])
  }

  ghost predicate Inv(p: Progress) {
    && (p.minSeq == 0 || p.minSeq in p.called)
    && p.returned <= p.called
    && (forall v :: v in p.returned ==> v <= p.minSeq)
    && (forall i :: 0 <= i < |p.reporters| && p.reporters[i].Looping? ==>
          p.reporters[i].seen <= p.minSeq && p.reporters[i].value in p.called)
    && (forall v :: v in p.called - p.returned ==>
          exists i :: 0 <= i < |p.reporters| && p.reporters[i].Looping? && p.reporters[i].value == v)
  }

  lemma StillLooping(p: Progress, a: Action, v: nat)
    requires Inv(p) && v in Do(p, a).called - Do(p, a).returned
    ensures exists i :: 0 <= i < |p.reporters| && Do(p, a).reporters[i].Looping? && Do(p, a).reporters[i].value == v
  {
    var p1 := Do(p, a);
    if v in p.called - p.returned {
      var i :| 0 <= i < |p.reporters| && p.reporters[i].Looping? && p.reporters[i].value == v;
      assert p1.reporters[i].Looping? && p1.reporters[i].value == v;
    } else {
      assert p1.reporters[a.i].Looping? && p1.reporters[a.i].value == v;
    }
  }

  /** Each step keeps the counter or raises it to the value being reported: a call is one atomic maximum. */
  lemma StepKeepsInv(p: Progress, a: Action)
    requires Inv(p)
    ensures Inv(Do(p, a))
    ensures p.minSeq <= Do(p, a).minSeq
    ensures Do(p, a).minSeq != p.minSeq ==> a.Succeed? && Do(p, a).minSeq == p.reporters[a.i].value
  {
    var p1 := Do(p, a);
    forall v | v in p1.called - p1.returned
      ensures exists i :: 0 <= i < |p1.reporters| && p1.reporters[i].Looping? && p1.reporters[i].value == v
    {
      StillLooping(p, a, v);
    }
  }

  lemma {:induction false} RunKeepsInv(threads: nat, acts: seq<Action>)
    ensures Inv(Run(Start(threads), acts))
  {
    if acts != [] {
      RunKeepsInv(threads, acts[..|acts| - 1]);
      StepKeepsInv(Run(Start(threads), acts[..|acts| - 1]), acts[|acts| - 1]);
    }
  }

  /** The counter never decreases along a run. */
  lemma {:induction false} Monotone(threads: nat, acts: seq<Action>, k: nat)
    requires k <= |acts|
    ensures Run(Start(threads), acts[..k]).minSeq <= Run(Start(threads), acts).minSeq
  {
    if k == |acts| {
      assert acts[..k] == acts;
    } else {
      assert acts[..|acts| - 1][..k] == acts[..k];
      Monotone(threads, acts[..|acts| - 1], k);
      RunKeepsInv(threads, acts[..|acts| - 1]);
      StepKeepsInv(Run(Start(threads), acts[..|acts| - 1]), acts[|acts| - 1]);
    }
  }

  /** Under every interleaving the counter is 0 or a reported value and at least every value whose call has
      returned; so with every call complete it is the maximum reported, not the minimum. */
  lemma CounterIsMaximum(threads: nat, acts: seq<Action>)
    ensures var p := Run(Start(threads), acts);
            && (p.minSeq == 0 || p.minSeq in p.called)
            && (forall v :: v in p.returned ==> v <= p.minSeq)
            && ((forall i :: 0 <= i < threads ==> p.reporters[i].Idle?) ==>
                  forall v :: v in p.called ==> v <= p.minSeq)
  {
    RunKeepsInv(threads, acts);
    var p := Run(Start(threads), acts);
    forall v | v in p.called && (forall i :: 0 <= i < threads ==> p.reporters[i].Idle?)
      ensures v <= p.minSeq
    {
      assert v in p.called - p.returned || v in p.returned;
    }
  }
}
