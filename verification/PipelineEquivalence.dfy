/** The broadcast pipeline, the routed pipeline and one sequential manager build the same books. */
module PipelineEquivalence {
  import opened Messages
  import opened SymbolTable
  import opened BookManagerModel
  import opened Sharding
  import BookModel
  import B = BroadcastPipeline
  import R = RoutedPipeline

  /** The book for `key` in the manager of consumer `t`, which has applied `applied` in order. */
  ghost function BookIn(hs: Hash, h: Hash, applied: seq<Message>, key: u64): Option<BookModel.Book> {
    GetBook(hs, RunManager(hs, h, applied), key)
  }

  /** On every complete run, never lapped in the broadcast case, both pipelines give consumer `t` exactly the
      messages of its shard, in order. */
  lemma {:induction false} SameDeliveries(
    g: Hash, orders: seq<Message>, threads: nat,
    cap: nat, blank: Message, bActs: seq<B.Action>, slots: seq<Message>, rActs: seq<R.Action>)
    requires threads > 0 && cap > 0 && slots != []
    requires B.NeverLapped(g, orders, B.Start(cap, blank, threads), bActs)
    requires B.Finished(B.Run(g, orders, B.Start(cap, blank, threads), bActs))
    requires R.Finished(R.Run(g, orders, R.Start(slots, threads), rActs))
    ensures forall t :: 0 <= t < threads ==>
      && B.Run(g, orders, B.Start(cap, blank, threads), bActs).consumers[t].applied == OfShard(g, threads, orders, t)
      && R.Run(g, orders, R.Start(slots, threads), rActs).queues[t].popped == OfShard(g, threads, orders, t)
  {
    B.BroadcastDelivers(g, orders, cap, blank, threads, bActs);
    R.RoutedDelivers(g, orders, slots, threads, rActs);
  }

  /** On every complete run of either pipeline, never lapped in the broadcast case, with at least one thread
      and at most 512 distinct tickers, the ticker's own consumer holds the book that folding the
      ticker's messages in order builds, and so does one sequential manager. */
  lemma PipelinesAgree(
    g: Hash, hs: Hash, h: Hash, orders: seq<Message>, threads: nat, key: u64,
    cap: nat, blank: Message, bActs: seq<B.Action>, slots: seq<Message>, rActs: seq<R.Action>)
    requires threads > 0 && cap > 0 && slots != [] && |Distinct(orders)| <= 512
    requires B.NeverLapped(g, orders, B.Start(cap, blank, threads), bActs)
    requires B.Finished(B.Run(g, orders, B.Start(cap, blank, threads), bActs))
    requires R.Finished(R.Run(g, orders, R.Start(slots, threads), rActs))
    ensures var t := ShardOf(g, threads, key);
            var expected := if key in Distinct(orders) then Some(BookOf(h, orders, key)) else None;
            var b := B.Run(g, orders, B.Start(cap, blank, threads), bActs);
            var r := R.Run(g, orders, R.Start(slots, threads), rActs);
            && BookIn(hs, h, b.consumers[t].applied, key) == expected
            && BookIn(hs, h, r.queues[t].popped, key) == expected
            && BookIn(hs, h, orders, key) == expected
  {
    var t := ShardOf(g, threads, key);
    SameDeliveries(g, orders, threads, cap, blank, bActs, slots, rActs);
    ShardedAgreesIff(g, threads, hs, h, orders, key);
    GetBookExact(hs, h, orders, key);
  }

  /** Beyond 512 tickers the two pipelines still agree with each other on every ticker and every thread, and no
      thread but the ticker's own has its book; the own thread agrees with the sequential
      manager on a ticker if and only if both or neither have room for it. */
  lemma AgreementBeyondCapacity(
    g: Hash, hs: Hash, h: Hash, orders: seq<Message>, threads: nat, key: u64, t: nat,
    cap: nat, blank: Message, bActs: seq<B.Action>, slots: seq<Message>, rActs: seq<R.Action>)
    requires threads > 0 && cap > 0 && slots != [] && t < threads
    requires B.NeverLapped(g, orders, B.Start(cap, blank, threads), bActs)
    requires B.Finished(B.Run(g, orders, B.Start(cap, blank, threads), bActs))
    requires R.Finished(R.Run(g, orders, R.Start(slots, threads), rActs))
    ensures var applied := B.Run(g, orders, B.Start(cap, blank, threads), bActs).consumers[t].applied;
            && R.Run(g, orders, R.Start(slots, threads), rActs).queues[t].popped == applied
            && (t != ShardOf(g, threads, key) ==> BookIn(hs, h, applied, key) == None)
            && (t == ShardOf(g, threads, key) ==>
                  (BookIn(hs, h, applied, key) == BookIn(hs, h, orders, key) <==>
                   (key in Kept(applied) <==> key in Kept(orders))))
  {
    SameDeliveries(g, orders, threads, cap, blank, bActs, slots, rActs);
    if t == ShardOf(g, threads, key) {
      ShardedAgreesIff(g, threads, hs, h, orders, key);
    } else {
      OtherShardsLackIt(g, threads, hs, h, orders, t, key);
    }
  }
}
