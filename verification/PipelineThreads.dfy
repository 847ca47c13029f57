/** The threads of the two pipelines as the source writes them, each on its own: a consumer's loop over
    the payloads it reads, and the routed producer's batching loop. How their shared steps
    interleave is the subject of modules BroadcastPipeline and RoutedPipeline. */
module PipelineThreads {
  import opened Messages
  import opened BookManagerModel
  import opened ShardedBookManagers
  import opened Sharding
  import RoutedPipeline
  import Q = SpscProtocol

  function Drained(g: Hash, threads: nat, was: seq<Message>, ms: seq<Message>, i: nat, t: nat): seq<Message>
    requires threads > 0 && i <= |ms|
  {
    was + OfShard(g, threads, ms[..i], t)
  }

  lemma DrainedNext(g: Hash, threads: nat, was: seq<Message>, ms: seq<Message>, i: nat, t: nat)
    requires threads > 0 && i < |ms|
    ensures Drained(g, threads, was, ms, i + 1, t) ==
            Drained(g, threads, was, ms, i, t) + if ShardOf(g, threads, ms[i].ticker) == t then [ms[i]] else []
  {
    OfShardSnoc(g, threads, ms[..i], ms[i], t);
    assert ms[..i] + [ms[i]] == ms[..i + 1];
  }

  /** One consumer thread: the manager of its shard and its count of applied messages. */
  class BookThread {
    const shard: nat
    const threads: nat
    const shardHash: Hash
    const manager: ShardedBookManager
    var localCount: nat
    ghost var applied: seq<Message>

    ghost predicate Valid()
      reads this, manager, manager.symbolKeys, manager.symbolVals, manager.storage
    {
      && shard < threads
      && this !in manager.storage && manager !in manager.storage
      && manager.Valid()
      && manager.Value() == RunManager(manager.symbolHash, manager.orderHash, applied)
      && localCount == |applied|
    }

    constructor (shard: nat, threads: nat, shardHash: Hash, symbolHash: Hash, orderHash: Hash)
      requires shard < threads
      ensures Valid() && fresh(manager) && fresh(manager.storage)
      ensures fresh(manager.symbolKeys) && fresh(manager.symbolVals)
      ensures this.shard == shard && this.threads == threads && this.shardHash == shardHash
      ensures manager.symbolHash == symbolHash && manager.orderHash == orderHash && applied == []
    {
      this.shard, this.threads, this.shardHash := shard, threads, shardHash;
      manager := new ShardedBookManager(symbolHash, orderHash);
      localCount, applied := 0, [];
    }

    /** What the routed consumer does with an order it popped. */
    method Take(m: Message)
      requires Valid()
      modifies this`localCount, this`applied, manager, manager.symbolKeys, manager.symbolVals, manager.storage
      ensures Valid() && fresh(manager.storage - old(manager.storage))
      ensures applied == old(applied) + [m]
    {
      manager.Apply(m);
      localCount := localCount + 1;
      applied := applied + [m];
      assert applied[..|applied| - 1] == old(applied);
    }

    /** The broadcast consumer's inner loop over the payloads it reads from its cursor up to the index:
        it applies exactly those of its shard, in order. */
    method Drain(payloads: seq<Message>)
      requires Valid()
      modifies this`localCount, this`applied, manager, manager.symbolKeys, manager.symbolVals, manager.storage
      ensures Valid() && fresh(manager.storage - old(manager.storage))
      ensures applied == old(applied) + OfShard(shardHash, threads, payloads, shard)
    {
      ghost var was, storage := applied, manager.storage;
      var localSeq := 0;
      while localSeq < |payloads|
        invariant 0 <= localSeq <= |payloads|
        invariant Valid() && fresh(manager.storage - storage)
        invariant applied == Drained(shardHash, threads, was, payloads, localSeq, shard)
      {
        DrainedNext(shardHash, threads, was, payloads, localSeq, shard);
        Visit(payloads[localSeq]);
        localSeq := localSeq + 1;
      }
      assert payloads[..localSeq] == payloads;
    }

    method Visit(m: Message)
      requires Valid()
      modifies this`localCount, this`applied, manager, manager.symbolKeys, manager.symbolVals, manager.storage
      ensures Valid() && fresh(manager.storage - old(manager.storage))
      ensures applied == old(applied) + if ShardOf(shardHash, threads, m.ticker) == shard then [m] else []
    {
      if ShardOf(shardHash, threads, m.ticker) == shard {
        Take(m);
      }
    }
  }

  /** The routed producer: a batch per shard, sent whole when it holds 64, and the bounded queue of each shard
      between two operations. */
  class Router {
    const threads: nat
    const shardHash: Hash
    const batches: array<seq<Message>>
    const queues: array<Q.Queue<Message>>

    ghost predicate Valid()
      reads batches, queues
    {
      && 0 < threads == batches.Length == queues.Length
      && (forall t :: 0 <= t < threads ==> |batches[t]| < 64)
      && (forall t :: 0 <= t < threads ==> AtRest(queues[t]))
    }

    /** Queue plus batch is the shard's part of what has been routed. */
    ghost predicate Routed(orders: seq<Message>)
      requires Valid()
      reads batches, queues
    {
      forall t :: 0 <= t < threads ==> queues[t].pushed + batches[t] == OfShard(shardHash, threads, orders, t)
    }

    /** Before the final flush every queue was given whole batches of 64 only. */
    ghost predicate Whole()
      requires Valid()
      reads batches, queues
    {
      forall t :: 0 <= t < threads ==> |queues[t].pushed| % 64 == 0
    }

    constructor (threads: nat, shardHash: Hash, slots: seq<Message>)
      requires threads > 0 && slots != []
      ensures Valid() && fresh(batches) && fresh(queues) && Routed([]) && Whole()
      ensures this.threads == threads && this.shardHash == shardHash
    {
      this.threads, this.shardHash := threads, shardHash;
      batches := new seq<Message>[threads](_ => []);
      queues := new Q.Queue<Message>[threads](_ => Q.NewQueue(slots));
    }

    /** `push`: while the ring is full the producer waits, and each wait ends with a pop by the shard's consumer. */
    method Push(t: nat, m: Message)
      requires t < queues.Length && AtRest(queues[t])
      modifies queues
      ensures AtRest(queues[t]) && queues[t].pushed == old(queues[t].pushed) + [m]
      ensures forall u :: 0 <= u < queues.Length && u != t ==> queues[u] == old(queues[u])
    {
      var q := Q.Do(queues[t], Q.PLoad(m));
      ghost var pushed := q.pushed;
      Q.StepKeepsInv(queues[t], Q.PLoad(m));
      while Q.Full(q)
        invariant Q.Inv(q) && q.producer == Q.PLoaded(m, q.tail) && q.consumer.CIdle? && q.pushed == pushed
        decreases q.head - q.tail
        modifies {}
      {
        PopOne(q);
        q := Q.Do(Q.Do(Q.Do(Q.Do(q, Q.CLoad), Q.CCopy), Q.CStore), Q.PSpin);
      }
      PushRest(q);
      queues[t] := Q.Do(Q.Do(q, Q.PWrite), Q.PStore);
    }

    /** `push` every message of the shard's batch, in order. */
    method Flush(t: nat)
      requires t < batches.Length == queues.Length && AtRest(queues[t])
      modifies queues
      ensures AtRest(queues[t]) && queues[t].pushed == old(queues[t].pushed) + batches[t]
      ensures forall u :: 0 <= u < queues.Length && u != t ==> queues[u] == old(queues[u])
    {
      var k := 0;
      while k < |batches[t]|
        invariant 0 <= k <= |batches[t]|
        invariant AtRest(queues[t]) && queues[t].pushed == old(queues[t].pushed) + batches[t][..k]
        invariant forall u :: 0 <= u < queues.Length && u != t ==> queues[u] == old(queues[u])
      {
        assert batches[t][..k + 1] == batches[t][..k] + [batches[t][k]];
        Push(t, batches[t][k]);
        k := k + 1;
      }
      assert batches[t][..k] == batches[t];
    }

    method Route(m: Message, ghost before: seq<Message>)
      requires Valid() && Routed(before) && Whole()
      modifies batches, queues
      ensures Valid() && Routed(before + [m]) && Whole()
    {
      var shard := ShardOf(shardHash, threads, m.ticker);
      ghost var pushed, batch := queues[shard].pushed, batches[shard];
      RoutedNext(before, m);
      batches[shard] := batches[shard] + [m];
      if |batches[shard]| >= RoutedPipeline.BATCH_SIZE {
        SendBatch(shard);
        OneBatchMore(|pushed|, |batch| + 1);
      }
    }

    method SendBatch(t: nat)
      requires t < batches.Length == queues.Length && AtRest(queues[t])
      modifies batches, queues
      ensures AtRest(queues[t]) && queues[t].pushed == old(queues[t].pushed) + old(batches[t]) && batches[t] == []
      ensures forall u :: 0 <= u < queues.Length && u != t ==>
                queues[u] == old(queues[u]) && batches[u] == old(batches[u])
    {
      Flush(t);
      batches[t] := [];
    }

    lemma RoutedNext(before: seq<Message>, m: Message)
      requires Valid() && Routed(before)
      ensures forall t :: 0 <= t < threads ==>
                OfShard(shardHash, threads, before + [m], t) ==
                queues[t].pushed + batches[t] + if ShardOf(shardHash, threads, m.ticker) == t then [m] else []
    {
      forall t | 0 <= t < threads
        ensures OfShard(shardHash, threads, before + [m], t) ==
                queues[t].pushed + batches[t] + if ShardOf(shardHash, threads, m.ticker) == t then [m] else []
      {
        OfShardSnoc(shardHash, threads, before, m, t);
      }
    }

    /** The whole producer: after the final flush every queue was given exactly its shard's orders, in order. */
    method RouteAll(orders: seq<Message>)
      requires Valid() && Routed([]) && Whole()
      modifies batches, queues
      ensures forall t :: 0 <= t < threads ==>
                AtRest(queues[t]) && queues[t].pushed == OfShard(shardHash, threads, orders, t)
    {
      var i := 0;
      assert orders[..0] == [];
      while i < |orders|
        invariant 0 <= i <= |orders|
        invariant Valid() && Routed(orders[..i]) && Whole()
      {
        Route(orders[i], orders[..i]);
        assert orders[..i] + [orders[i]] == orders[..i + 1];
        i := i + 1;
      }
      assert orders[..i] == orders;
      FlushAll(orders);
    }

    method FlushAll(ghost orders: seq<Message>)
      requires Valid() && Routed(orders)
      modifies queues
      ensures forall t :: 0 <= t < threads ==>
                AtRest(queues[t]) && queues[t].pushed == OfShard(shardHash, threads, orders, t)
    {
      var s := 0;
      while s < threads
        invariant 0 <= s <= threads && Valid()
        invariant forall t :: 0 <= t < s ==> queues[t].pushed == OfShard(shardHash, threads, orders, t)
        invariant forall t :: s <= t < threads ==>
                    queues[t].pushed + batches[t] == OfShard(shardHash, threads, orders, t)
      {
        Flush(s);
        s := s + 1;
      }
    }
  }

  lemma OneBatchMore(n: nat, k: nat)
    requires n % 64 == 0 && k == 64
    ensures (n + k) % 64 == 0
  {
  }

  /** A queue no thread is in the middle of using. */
  ghost predicate AtRest(q: Q.Queue<Message>) {
    Q.Inv(q) && q.producer.PIdle? && q.consumer.CIdle?
  }

  /** With room, a push goes through. */
  lemma PushRest(q: Q.Queue<Message>)
    requires Q.Inv(q) && q.producer.PLoaded? && !Q.Full(q) && q.consumer.CIdle?
    ensures var q1 := Q.Do(Q.Do(q, Q.PWrite), Q.PStore);
            AtRest(q1) && q1.pushed == q.pushed + [q.producer.item]
  {
    Q.StepKeepsInv(q, Q.PWrite);
    Q.StepKeepsInv(Q.Do(q, Q.PWrite), Q.PStore);
  }

  /** A pop by the consumer makes room for a producer that waits. */
  lemma PopOne(q: Q.Queue<Message>)
    requires Q.Inv(q) && q.producer.PLoaded? && Q.Full(q) && q.producer.seenTail == q.tail && q.consumer.CIdle?
    ensures var q1 := Q.Do(Q.Do(Q.Do(Q.Do(q, Q.CLoad), Q.CCopy), Q.CStore), Q.PSpin);
            && Q.Inv(q1) && q1.consumer.CIdle? && q1.producer == Q.PLoaded(q.producer.item, q1.tail)
            && q1.pushed == q.pushed && q1.head == q.head && q1.tail == q.tail + 1
  {
    var q1 := Q.Do(q, Q.CLoad);
    var q2 := Q.Do(q1, Q.CCopy);
    var q3 := Q.Do(q2, Q.CStore);
    Q.StepKeepsInv(q, Q.CLoad);
    Q.StepKeepsInv(q1, Q.CCopy);
    Q.StepKeepsInv(q2, Q.CStore);
    Q.StepKeepsInv(q3, Q.PSpin);
  }
}
