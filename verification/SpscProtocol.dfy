/** The single-producer single-consumer ring as a small-step protocol. An operation is split where
    another thread can interleave: loading the other side's index, copying the payload,
    and storing the own index. Release/acquire order is "payload before index". */
module SpscProtocol {
  import opened Rings

  /** `PLoaded` holds the tail that `try_push` or `push` last loaded. */
  datatype Producer<T> = PIdle | PLoaded(item: T, seenTail: nat) | PWritten(item: T)

  /** `CLoaded` holds the head that `try_pop` loaded. */
  datatype Consumer<T> = CIdle | CLoaded(seenHead: nat) | CCopied(item: T)

  /** `pushed` and `popped` record the items of completed operations. */
  datatype Queue<T> = Queue(
    cap: nat, slots: seq<T>, head: nat, tail: nat,
    producer: Producer<T>, consumer: Consumer<T>,
    pushed: seq<T>, popped: seq<T>)

  /** PSpin is another turn of the wait loop of `push`; PRefuse is `try_push` returning false.
      PScribble is a part of the payload copy: until PWrite the slot may hold anything. */
  datatype Action<T> =
    | PLoad(item: T) | PSpin | PRefuse | PScribble(part: T) | PWrite | PStore
    | CLoad | CEmpty | CCopy | CStore

  predicate Full<T>(q: Queue<T>)
    requires q.producer.PLoaded?
  {
    q.head - q.producer.seenTail >= q.cap
  }

  /** The producer may be touching slot `head`; the consumer may be touching slot `tail`. */
  predicate Writing<T>(q: Queue<T>) {
    (q.producer.PLoaded? && !Full(q)) || q.producer.PWritten?
  }

  predicate Reading<T>(q: Queue<T>) {
    (q.consumer.CLoaded? && q.tail < q.consumer.seenHead) || q.consumer.CCopied?
  }

  predicate Shaped<T>(q: Queue<T>) {
    0 < q.cap == |q.slots|
  }

  function Stored<T>(q: Queue<T>, x: T): Queue<T>
    requires Shaped(q)
  {
    q.(slots := q.slots[q.head % q.cap := x])
  }

  /** One step of one thread; a step its thread is not ready for changes nothing. */
  function Do<T>(q: Queue<T>, a: Action<T>): (r: Queue<T>)
    requires Shaped(q)
    ensures Shaped(r) && r.cap == q.cap
  {
    match a
    case PLoad(item) => if q.producer.PIdle? then q.(producer := PLoaded(item, q.tail)) else q
    case PSpin =>
      if q.producer.PLoaded? && Full(q) then q.(producer := PLoaded(q.producer.item, q.tail)) else q
    case PRefuse => if q.producer.PLoaded? && Full(q) then q.(producer := PIdle) else q
    case PScribble(part) => if q.producer.PLoaded? && !Full(q) then Stored(q, part) else q
    case PWrite =>
      if q.producer.PLoaded? && !Full(q) then
        Stored(q, q.producer.item).(producer := PWritten(q.producer.item)) else q
    case PStore =>
      if q.producer.PWritten? then
        q.(head := q.head + 1, producer := PIdle, pushed := q.pushed + [q.producer.item]) else q
    case CLoad => if q.consumer.CIdle? then q.(consumer := CLoaded(q.head)) else q
    case CEmpty => if q.consumer.CLoaded? && q.tail >= q.consumer.seenHead then q.(consumer := CIdle) else q
    case CCopy =>
      if q.consumer.CLoaded? && q.tail < q.consumer.seenHead then
        q.(consumer := CCopied(q.slots[q.tail % q.cap])) else q
    case CStore =>
      if q.consumer.CCopied? then
        q.(tail := q.tail + 1, consumer := CIdle, popped := q.popped + [q.consumer.item]) else q
  }

  function NewQueue<T>(slots: seq<T>): Queue<T> {
    Queue(|slots|, slots, 0, 0, PIdle, CIdle, [], [])
  }

  /** Any interleaving is a sequence of actions. */
  function RunQueue<T>(q: Queue<T>, acts: seq<Action<T>>): (r: Queue<T>)
    requires Shaped(q)
    ensures Shaped(r) && r.cap == q.cap
    decreases acts
  {
    if acts == [] then q else Do(RunQueue(q, acts[..|acts| - 1]), acts[|acts| - 1])
  }

  // ---- the invariant ----

  ghost predicate Pending<T>(q: Queue<T>) {
    && Shaped(q)
    && |q.pushed| == q.head && q.tail <= q.head <= q.tail + q.cap
    && forall i :: q.tail <= i < q.head ==> q.slots[i % q.cap] == q.pushed[i]
  }

  ghost predicate ThreadsOk<T>(q: Queue<T>)
    requires Pending(q)
  {
    && (q.producer.PLoaded? ==> q.producer.seenTail <= q.tail && q.head - q.producer.seenTail <= q.cap)
    && (q.producer.PWritten? ==> q.head - q.tail < q.cap && q.slots[q.head % q.cap] == q.producer.item)
    && (q.consumer.CLoaded? ==> q.tail <= q.consumer.seenHead <= q.head)
    && (q.consumer.CCopied? ==> q.tail < q.head && q.consumer.item == q.pushed[q.tail])
  }

  ghost predicate Inv<T>(q: Queue<T>) {
    Pending(q) && ThreadsOk(q) && q.popped == q.pushed[..q.tail]
  }

  lemma StoredKeepsPending<T>(q: Queue<T>, x: T)
    requires Pending(q) && q.head - q.tail < q.cap
    ensures Pending(Stored(q, x))
  {
    forall i | q.tail <= i < q.head
      ensures i % q.cap != q.head % q.cap
    {
      DistinctSlots(i, q.head, q.cap);
    }
  }

  lemma StepKeepsInv<T>(q: Queue<T>, a: Action<T>)
    requires Inv(q)
    ensures Inv(Do(q, a))
  {
    match a
    case PScribble(part) => if q.head - q.tail < q.cap { StoredKeepsPending(q, part); }
    case PWrite => if q.producer.PLoaded? && !Full(q) { StoredKeepsPending(q, q.producer.item); }
    case _ =>
  }

  lemma {:induction false} RunKeepsInv<T>(slots: seq<T>, acts: seq<Action<T>>)
    requires slots != []
    ensures Inv(RunQueue(NewQueue(slots), acts))
  {
    if acts != [] {
      RunKeepsInv(slots, acts[..|acts| - 1]);
      StepKeepsInv(RunQueue(NewQueue(slots), acts[..|acts| - 1]), acts[|acts| - 1]);
    }
  }

  /** In every interleaving: what was popped is a prefix of what was pushed, at most a ring of items is
      pending, their slots hold exactly them, and the producer never touches a slot the consumer is reading. */
  lemma QueueSafe<T>(slots: seq<T>, acts: seq<Action<T>>)
    requires slots != []
    ensures var q := RunQueue(NewQueue(slots), acts);
            && q.popped <= q.pushed
            && |q.popped| == q.tail <= q.head == |q.pushed| <= q.tail + |slots|
            && (forall i :: q.tail <= i < q.head ==> q.slots[i % q.cap] == q.pushed[i])
            && (Writing(q) && Reading(q) ==> q.head % q.cap != q.tail % q.cap)
  {
    RunKeepsInv(slots, acts);
    var q := RunQueue(NewQueue(slots), acts);
    if Writing(q) && Reading(q) {
      DistinctSlots(q.tail, q.head, q.cap);
    }
  }

  // ---- linearisation ----

  function Contents<T>(q: Queue<T>): seq<T>
    requires q.tail <= |q.pushed|
  {
    q.pushed[q.tail..]
  }

  /** Every step is invisible or is one atomic step of a bounded first-in first-out queue: the index stores
      are the linearisation points. A refused push saw a full queue when it loaded the tail,
      and a failed pop an empty one when it loaded the head. */
  lemma RefinesFifo<T>(q: Queue<T>, a: Action<T>)
    requires Inv(q)
    ensures Inv(Do(q, a))
    ensures var (c, c1) := (Contents(q), Contents(Do(q, a)));
            if a.PStore? && q.producer.PWritten? then |c| < q.cap && c1 == c + [q.producer.item]
            else if a.CStore? && q.consumer.CCopied? then c != [] && q.consumer.item == c[0] && c1 == c[1..]
            else c1 == c
    ensures a.PLoad? && q.producer.PIdle? ==> (Full(Do(q, a)) <==> |Contents(q)| == q.cap)
    ensures a.CLoad? && q.consumer.CIdle? ==>
              (Do(q, a).tail >= Do(q, a).consumer.seenHead <==> Contents(q) == [])
  {
    StepKeepsInv(q, a);
  }

  /** The three steps of `try_push` with no other thread between them. */
  lemma PushAlone<T>(q: Queue<T>, item: T)
    requires Inv(q) && q.producer.PIdle?
    ensures var q1 := Do(q, PLoad(item));
            && q1.producer.PLoaded? && (Full(q1) <==> |Contents(q)| == q.cap)
            && if Full(q1) then Do(q1, PRefuse) == q
               else
                 var q2 := Do(q1, PWrite);
                 && q2.producer.PWritten? && Inv(Do(q2, PStore)) && Do(q2, PStore).producer.PIdle?
                 && Contents(Do(q2, PStore)) == Contents(q) + [item]
  {
    var q1 := Do(q, PLoad(item));
    RefinesFifo(q, PLoad(item));
    if !Full(q1) {
      RefinesFifo(q1, PWrite);
      RefinesFifo(Do(q1, PWrite), PStore);
    }
  }

  /** The three steps of `try_pop` with no other thread between them. */
  lemma PopAlone<T>(q: Queue<T>)
    requires Inv(q) && q.consumer.CIdle?
    ensures var q1 := Do(q, CLoad);
            if Contents(q) == [] then q1.tail >= q1.consumer.seenHead && Do(q1, CEmpty) == q
            else
              var q2 := Do(q1, CCopy);
              && q1.tail < q1.consumer.seenHead && q2.consumer.CCopied?
              && Inv(Do(q2, CStore)) && Do(q2, CStore).consumer.CIdle?
              && Contents(q) == [q2.consumer.item] + Contents(Do(q2, CStore))
  {
    var q1 := Do(q, CLoad);
    StepKeepsInv(q, CLoad);
    if Contents(q) != [] {
      var q2 := Do(q1, CCopy);
      StepKeepsInv(q1, CCopy);
      RefinesFifo(q2, CStore);
      assert Contents(q2) == Contents(q);
    }
  }
}
