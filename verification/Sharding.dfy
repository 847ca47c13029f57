/** How both pipelines split a message sequence over threads: `get_shard`, the subsequence each
    thread must apply, and what a thread's books owe to it. */
module Sharding {
  import opened Messages
  import opened OrderTable
  import opened Rings
  import opened SymbolTable
  import opened BookModel
  import opened BookManagerModel

  /** `h % num_book_threads` for the mixed ticker `h`. */
  function ShardOf(g: Hash, threads: nat, ticker: u64): (t: nat)
    requires threads > 0
    ensures t < threads
  {
    g(ticker) % threads
  }

  /** The shard is the remainder of the mixed ticker. */
  lemma ShardIsRemainder(g: Hash, threads: nat, ticker: u64, q: nat, t: nat)
    requires t < threads && g(ticker) == threads * q + t
    ensures ShardOf(g, threads, ticker) == t
  {
    ModIs(g(ticker), q, t, threads);
  }

  /** The messages of one shard, in order. */
  function OfShard(g: Hash, threads: nat, ms: seq<Message>, t: nat): seq<Message>
    requires threads > 0
  {
    if ms == [] then [] else
    OfShard(g, threads, ms[..|ms| - 1], t) +
    if ShardOf(g, threads, ms[|ms| - 1].ticker) == t then [ms[|ms| - 1]] else []
  }

  lemma OfShardSnoc(g: Hash, threads: nat, ms: seq<Message>, m: Message, t: nat)
    requires threads > 0
    ensures OfShard(g, threads, ms + [m], t) ==
            OfShard(g, threads, ms, t) + if ShardOf(g, threads, m.ticker) == t then [m] else []
  {
    assert (ms + [m])[..|ms|] == ms;
  }

  function SumTo(f: nat -> nat, n: nat): nat {
    if n == 0 then 0 else SumTo(f, n - 1) + f(n - 1)
  }

  lemma {:induction false} SumBump(f: nat -> nat, f1: nat -> nat, n: nat, k: nat)
    requires forall t: nat :: f1(t) == f(t) + if t == k then 1 else 0
    ensures SumTo(f1, n) == SumTo(f, n) + if k < n then 1 else 0
  {
    if n > 0 { SumBump(f, f1, n - 1, k); }
  }

  function ShardSizes(g: Hash, threads: nat, ms: seq<Message>): nat -> nat
    requires threads > 0
  {
    (t: nat) => |OfShard(g, threads, ms, t)|
  }

  /** The shards partition the messages: their sizes sum to the whole. */
  lemma {:induction false} ShardsPartition(g: Hash, threads: nat, ms: seq<Message>)
    requires threads > 0
    ensures SumTo(ShardSizes(g, threads, ms), threads) == |ms|
  {
    if ms == [] {
      SumZero(ShardSizes(g, threads, ms), threads);
    } else {
      var k := |ms| - 1;
      ShardsPartition(g, threads, ms[..k]);
      SumBump(ShardSizes(g, threads, ms[..k]), ShardSizes(g, threads, ms), threads,
              ShardOf(g, threads, ms[k].ticker));
    }
  }

  lemma {:induction false} SumZero(f: nat -> nat, n: nat)
    requires forall t: nat :: f(t) == 0
    ensures SumTo(f, n) == 0
  {
    if n > 0 { SumZero(f, n - 1); }
  }

  lemma {:induction false} SumSame(f: nat -> nat, f1: nat -> nat, n: nat)
    requires forall t: nat :: t < n ==> f(t) == f1(t)
    ensures SumTo(f, n) == SumTo(f1, n)
  {
    if n > 0 { SumSame(f, f1, n - 1); }
  }

  /** A shard carries its tickers' messages whole and no others. */
  lemma {:induction false} TickerWithinShard(g: Hash, threads: nat, ms: seq<Message>, t: nat, key: u64)
    requires threads > 0
    ensures OfTicker(OfShard(g, threads, ms, t), key) ==
            if ShardOf(g, threads, key) == t then OfTicker(ms, key) else []
  {
    if ms != [] {
      var k := |ms| - 1;
      TickerWithinShard(g, threads, ms[..k], t, key);
      var a := OfShard(g, threads, ms[..k], t);
      if ShardOf(g, threads, ms[k].ticker) == t {
        assert (a + [ms[k]])[..|a|] == a;
      } else {
        assert a + [] == a;
      }
    }
  }

  lemma {:induction false} DistinctWithinShard(g: Hash, threads: nat, ms: seq<Message>, t: nat, key: u64)
    requires threads > 0
    ensures key in Distinct(OfShard(g, threads, ms, t)) <==>
            ShardOf(g, threads, key) == t && key in Distinct(ms)
    ensures |Distinct(OfShard(g, threads, ms, t))| <= |Distinct(ms)|
  {
    if ms != [] {
      var k := |ms| - 1;
      DistinctWithinShard(g, threads, ms[..k], t, key);
      DistinctWithinShard(g, threads, ms[..k], t, ms[k].ticker);
      var a := OfShard(g, threads, ms[..k], t);
      if ShardOf(g, threads, ms[k].ticker) == t {
        assert (a + [ms[k]])[..|a|] == a;
      } else {
        assert a + [] == a;
      }
    }
  }

  /** A sharded manager and a single one agree on a ticker if and only if neither or both have room
      for it; in particular on every ticker when there are at most 512. */
  lemma ShardedAgreesIff(g: Hash, threads: nat, hs: Hash, h: Hash, ms: seq<Message>, key: u64)
    requires threads > 0
    ensures var shard := OfShard(g, threads, ms, ShardOf(g, threads, key));
            && (GetBook(hs, RunManager(hs, h, shard), key) == GetBook(hs, RunManager(hs, h, ms), key)
                <==> (key in Kept(shard) <==> key in Kept(ms)))
            && (key in Kept(shard) ==> GetBook(hs, RunManager(hs, h, shard), key) == Some(BookOf(h, ms, key)))
            && (|Distinct(ms)| <= 512 ==> (key in Kept(shard) <==> key in Kept(ms)))
  {
    var t := ShardOf(g, threads, key);
    var shard := OfShard(g, threads, ms, t);
    GetBookExact(hs, h, shard, key);
    GetBookExact(hs, h, ms, key);
    TickerWithinShard(g, threads, ms, t, key);
    DistinctWithinShard(g, threads, ms, t, key);
  }

  /** No other shard's manager knows the ticker. */
  lemma OtherShardsLackIt(g: Hash, threads: nat, hs: Hash, h: Hash, ms: seq<Message>, t: nat, key: u64)
    requires threads > 0 && t != ShardOf(g, threads, key)
    ensures GetBook(hs, RunManager(hs, h, OfShard(g, threads, ms, t)), key) == None
  {
    var shard := OfShard(g, threads, ms, t);
    GetBookExact(hs, h, shard, key);
    DistinctWithinShard(g, threads, ms, t, key);
  }

  // ---- where sharding holds more than one manager ----

  ghost function Members(ks: seq<u64>): set<u64> {
    set k | k in ks
  }

  lemma {:induction false} MembersCount(ks: seq<u64>)
    requires NoRepeats(ks)
    ensures |Members(ks)| == |ks|
  {
    if ks != [] {
      var i := |ks| - 1;
      MembersCount(ks[..i]);
      assert Members(ks) == Members(ks[..i]) + {ks[i]};
      assert ks[i] !in Members(ks[..i]);
    }
  }

  /** A shard that lacks one of the tickers has fewer of them. */
  lemma {:induction false} FewerWithinShard(g: Hash, threads: nat, ms: seq<Message>, t: nat, other: u64)
    requires threads > 0 && other in Distinct(ms) && ShardOf(g, threads, other) != t
    ensures |Distinct(OfShard(g, threads, ms, t))| < |Distinct(ms)|
  {
    var part, all := Distinct(OfShard(g, threads, ms, t)), Distinct(ms);
    forall k
      ensures k in part ==> k in all && k != other
    {
      if k in part { DistinctWithinShard(g, threads, ms, t, k); }
    }
    MembersCount(part);
    MembersCount(all);
    assert Members(part) <= Members(all) - {other};
    Fewer(Members(part), Members(all), other);
  }

  lemma {:induction false} Fewer(a: set<u64>, b: set<u64>, x: u64)
    requires a <= b - {x} && x in b
    ensures |a| < |b|
  {
    Within(a, b - {x});
  }

  lemma {:induction false} Within(a: set<u64>, b: set<u64>)
    requires a <= b
    ensures |a| <= |b|
  {
    assert b == a + (b - a);
  }

  /** One addition for each ticker. */
  function OnePer(ks: seq<u64>): seq<Message> {
    seq(|ks|, i requires 0 <= i < |ks| => Message(Add, ks[i], ks[i], 1, 1, 'B', 0))
  }

  lemma {:induction false} OnePerDistinct(ks: seq<u64>)
    requires NoRepeats(ks)
    ensures Distinct(OnePer(ks)) == ks
  {
    if ks != [] {
      var i := |ks| - 1;
      assert OnePer(ks)[..i] == OnePer(ks[..i]);
      OnePerDistinct(ks[..i]);
      assert ks == ks[..i] + [ks[i]];
    }
  }

  /** With 513 tickers that do not all share a shard, the last ticker's shard has room for
      it and one sequential manager has not: the two disagree. */
  lemma {:induction false} ShardHoldsMore(g: Hash, threads: nat, hs: Hash, h: Hash, ks: seq<u64>, i: nat)
    requires threads > 0 && NoRepeats(ks) && |ks| == 513 && i < 512
    requires ShardOf(g, threads, ks[i]) != ShardOf(g, threads, ks[512])
    ensures var (ms, key) := (OnePer(ks), ks[512]);
            && GetBook(hs, RunManager(hs, h, ms), key) == None
            && GetBook(hs, RunManager(hs, h, OfShard(g, threads, ms, ShardOf(g, threads, key))), key) ==
               Some(BookOf(h, ms, key))
  {
    var ms, key := OnePer(ks), ks[512];
    var t := ShardOf(g, threads, key);
    OnePerDistinct(ks);
    FewerWithinShard(g, threads, ms, t, ks[i]);
    DistinctWithinShard(g, threads, ms, t, key);
    ShardedAgreesIff(g, threads, hs, h, ms, key);
    GetBookExact(hs, h, ms, key);
  }
}
