/** Streams that leave the book out of step with the live orders, one for each condition that
    module BookRefinement finds to be exact. */
module BookLimits {
  import opened Messages
  import opened OrderTable
  import opened PriceLevels
  import opened LiveOrders
  import opened BookModel
  import opened BookRefinement
  import opened BookQuotes

  /** A departure that is not covered: an order of a side other than 'B' or 'S' rests with the asks, and
      when it leaves the cached best ask names a price nobody offers. */
  lemma OtherSideGoesStale(h: Hash, capacity: nat, ref: u64, ticker: u64, price: u32, shares: u32, side: char)
    requires capacity > 0 && price > 0 && side != 'B' && side != 'S'
    ensures BookValid(EmptyBook(capacity))
    ensures var add := Message(Add, ref, ticker, price, shares, side, 0);
            var b := Step(h, Step(h, EmptyBook(capacity), add), Message(Delete, ref, ticker, 0, 0, side, 0));
            View(b.live.slots) == map[] && b.asks.levels == [] && b.asks.best == price
  {
    var add := Message(Add, ref, ticker, price, shares, side, 0);
    var del := Message(Delete, ref, ticker, 0, 0, side, 0);
    var o := LiveOrder(ref, price, shares, side, true);
    EmptyTableOk(h, capacity);
    InsertedRefines(h, EmptyTable(capacity), ref, o);
    var b1 := Step(h, EmptyBook(capacity), add);
    assert b1.asks == Half([PriceLevel(price, shares)], price);
    LocateView(h, b1.live.slots, ref);
    ErasedRefines(h, b1.live, ref);
    assert map[ref := ToOrder(o)] - {ref} == map[];
    assert RemoveLevel(b1.asks.levels, price, shares, false) == [];
  }

  // ---- orders that do not fit ----

  function AddOf(ref: u64, ticker: u64, side: char, price: u32, shares: u32): Message {
    Message(Add, ref, ticker, price, shares, side, 0)
  }

  /** Two orders of 2^31 shares each at one price. */
  function TwoHalves(ticker: u64, side: char, price: u32, ref1: u64, ref2: u64): seq<Message> {
    [AddOf(ref1, ticker, side, price, 0x8000_0000), AddOf(ref2, ticker, side, price, 0x8000_0000)]
  }

  lemma {:induction false} TwoHalvesLive(ticker: u64, side: char, price: u32, ref1: u64, ref2: u64)
    requires price > 0 && ref1 != ref2
    ensures FeedFresh(TwoHalves(ticker, side, price, ref1, ref2))
    ensures SharesAt(AbsRun(map[], TwoHalves(ticker, side, price, ref1, ref2)), side == 'B', price) == 0x1_0000_0000
  {
    var ms, o := TwoHalves(ticker, side, price, ref1, ref2), Order(side, price, 0x8000_0000);
    var none: Orders := map[];
    assert ms[..0] == [] && ms[..1] == [ms[0]] && ms[..1][..0] == [];
    assert AbsRun(none, ms[..1]) == none[ref1 := o];
    SharesWith(none, ref1, o, side == 'B', price);
    assert none - {ref1} == none;
    SharesWith(none[ref1 := o], ref2, o, side == 'B', price);
    assert none[ref1 := o] - {ref2} == none[ref1 := o];
  }

  lemma {:induction false} TwoHalvesWrap(h: Hash, b: Book, m1: Message, m2: Message)
    requires BookValid(b) && b.bids.levels == b.asks.levels == [] && m1.kind.Add? && m2.kind.Add?
    requires m1.side == m2.side && m1.price == m2.price && m1.shares == m2.shares == 0x8000_0000
    ensures var b2 := Step(h, Step(h, b, m1), m2);
            (if m1.side == 'B' then b2.bids.levels else b2.asks.levels) == [PriceLevel(m1.price, 0)]
  {
    var d := m1.side == 'B';
    var one := AddLevel([], m1.price, m1.shares, d);
    assert one == [PriceLevel(m1.price, m1.shares)];
    assert AddLevel(one, m1.price, m1.shares, d) == [PriceLevel(m1.price, 0)];
  }

  /** Too many shares at one price: two fresh orders of 2^31 shares wrap their level to zero. */
  lemma {:induction false} SharesDoNotFit(
    h: Hash, capacity: nat, ticker: u64, side: char, price: u32, ref1: u64, ref2: u64)
    requires capacity > 0 && price > 0 && ref1 != ref2
    ensures var ms := TwoHalves(ticker, side, price, ref1, ref2);
            && FeedFresh(ms) && !InStep(h, capacity, ms, 2)
            && var b := Run(h, EmptyBook(capacity), ms);
            (if side == 'B' then b.bids.levels else b.asks.levels) == [PriceLevel(price, 0)]
  {
    var ms := TwoHalves(ticker, side, price, ref1, ref2);
    TwoHalvesLive(ticker, side, price, ref1, ref2);
    EmptyRefines(h, capacity);
    TwoHalvesWrap(h, EmptyBook(capacity), ms[0], ms[1]);
    RunTwo(h, EmptyBook(capacity), ms);
    InStepFits(h, capacity, ms);
  }

  lemma {:induction false} InStepFits(h: Hash, capacity: nat, ms: seq<Message>)
    requires capacity > 0
    ensures InStep(h, capacity, ms, |ms|) ==> Fits(AbsRun(map[], ms))
  {
    assert ms[..|ms|] == ms;
    if InStep(h, capacity, ms, |ms|) {
      SidesFit(Run(h, EmptyBook(capacity), ms), AbsRun(map[], ms));
    }
  }

  lemma {:induction false} RunTwo(h: Hash, b: Book, ms: seq<Message>)
    requires BookValid(b) && |ms| == 2
    ensures Run(h, b, ms) == Step(h, Step(h, b, ms[0]), ms[1])
  {
    assert ms[..1] == [ms[0]] && ms[..1][..0] == [];
    assert Run(h, b, ms[..1]) == Step(h, b, ms[0]);
  }

  /** `n` bids of one share, each at a price of its own. */
  function OnePerPrice(ticker: u64, n: nat): seq<Message>
    requires n < 0x1_0000_0000
  {
    seq(n, i requires 0 <= i < n => AddOf(i, ticker, 'B', i + 1, 1))
  }

  lemma {:induction false} OnePerPriceLive(ticker: u64, n: nat)
    requires n < 0x1_0000_0000
    ensures var a := AbsRun(map[], OnePerPrice(ticker, n));
            && (forall k :: k in a ==> k < n && a[k].side == 'B')
            && |LivePrices(a, true)| == n && LivePrices(a, false) == {}
            && (forall p :: p in LivePrices(a, true) ==> p <= n)
            && (forall d: bool, p: u32 :: SharesAt(a, d, p) <= n)
  {
    if n > 0 {
      var k := n - 1;
      assert OnePerPrice(ticker, n)[..k] == OnePerPrice(ticker, k);
      OnePerPriceLive(ticker, k);
      var a, o := AbsRun(map[], OnePerPrice(ticker, k)), Order('B', n, 1);
      assert AbsRun(map[], OnePerPrice(ticker, n)) == a[k := o];
      LivePricesWith(a, k, o, true);
      assert a - {k} == a;
      var a1 := a[k := o];
      forall d: bool, p: u32
        ensures SharesAt(a1, d, p) <= n
      {
        SharesWith(a, k, o, d, p);
      }
    }
  }

  /** Too many prices: the stream of `n` bids stays in step if and only if `n` is at most 256. */
  lemma {:induction false} PricesFitIff(h: Hash, capacity: nat, ticker: u64, n: nat)
    requires capacity > 0 && n < 0x1_0000_0000
    ensures (forall i :: 0 <= i <= n ==> InStep(h, capacity, OnePerPrice(ticker, n), i)) <==> n <= 256
  {
    var ms := OnePerPrice(ticker, n);
    forall i | 0 <= i <= n
      ensures Fits(AbsRun(map[], ms[..i])) <==> i <= 256
      ensures i < n ==> Fresh(AbsRun(map[], ms[..i]), ms[i])
    {
      assert ms[..i] == OnePerPrice(ticker, i);
      OnePerPriceLive(ticker, i);
    }
    AlwaysInStepIff(h, capacity, ms);
    if n <= 256 {
      assert FeedFresh(ms) && AlwaysCovers(ms);
    } else {
      assert !Fits(AbsRun(map[], ms[..n]));
    }
  }

  /** `n` prices from 1 up, with one share each. */
  function Ladder(n: nat): (x: Depth)
    requires n < 0x1_0000_0000
    ensures |x| == n && forall p: u32 :: p in x <==> 1 <= p <= n
  {
    if n == 0 then map[] else Ladder(n - 1)[n := 1]
  }

  lemma {:induction false} LadderGrows(k: nat)
    requires k + 1 < 0x1_0000_0000
    ensures Joined(Ladder(if k <= 256 then k else 256), k + 1, 1) == Ladder(if k < 256 then k + 1 else 256)
  {
  }

  lemma BetterBid(q: Quotes, a: Orders, m: Message)
    requires m.kind.Add? && m.side == 'B' && m.price > q.bestBid
    ensures QuoteStep(q, a, m) == Quotes(Joined(q.bids, m.price, m.shares), q.asks, m.price, q.bestAsk)
  {
  }

  lemma {:induction false} NextBid(before: seq<Message>, m: Message, k: nat)
    requires k + 1 < 0x1_0000_0000 && m.kind.Add? && m.side == 'B' && m.price == k + 1 && m.shares == 1
    requires QuoteRun(before) == Quotes(Ladder(if k <= 256 then k else 256), map[], k, 0)
    ensures QuoteRun(before + [m]) == Quotes(Ladder(if k < 256 then k + 1 else 256), map[], k + 1, 0)
  {
    assert (before + [m])[..|before|] == before;
    BetterBid(QuoteRun(before), AbsRun(map[], before), m);
    LadderGrows(k);
  }

  lemma {:induction false} OnePerPriceQuotes(ticker: u64, n: nat)
    requires n < 0x1_0000_0000
    ensures QuoteRun(OnePerPrice(ticker, n)) == Quotes(Ladder(if n <= 256 then n else 256), map[], n, 0)
  {
    if n > 0 {
      OnePerPriceQuotes(ticker, n - 1);
      NextBid(OnePerPrice(ticker, n - 1), AddOf(n - 1, ticker, 'B', n, 1), n - 1);
      OnePerPriceSnoc(ticker, n);
    } else {
      assert OnePerPrice(ticker, n) == [];
    }
  }

  lemma {:induction false} OnePerPriceSnoc(ticker: u64, n: nat)
    requires 0 < n < 0x1_0000_0000
    ensures OnePerPrice(ticker, n) == OnePerPrice(ticker, n - 1) + [AddOf(n - 1, ticker, 'B', n, 1)]
  {
  }

  lemma {:induction false} LadderLevels(l: seq<PriceLevel>, n: nat)
    requires 0 < n < 0x1_0000_0000 && Sorted(l, true) && DepthOf(l, true) == Ladder(n)
    ensures |l| == n && l[0].price == n
  {
    DepthCount(l, true);
    TopIsFront(l, true);
    assert n in Ladder(n);
  }

  lemma {:induction false} OnePerPriceFresh(ticker: u64, n: nat)
    requires n < 0x1_0000_0000
    ensures AlwaysFresh(OnePerPrice(ticker, n))
  {
    var ms := OnePerPrice(ticker, n);
    forall i | 0 <= i < n
      ensures Fresh(AbsRun(map[], ms[..i]), ms[i])
    {
      assert ms[..i] == OnePerPrice(ticker, i);
      OnePerPriceLive(ticker, i);
    }
  }

  /** After `n` such bids the array holds exactly `n` levels, best first, up to 256; beyond, it stays at prices
      256 down to 1 while the cached best bid follows the newest price. */
  lemma {:induction false} LevelsHeld(h: Hash, capacity: nat, ticker: u64, n: nat)
    requires capacity > 0 && 0 < n < 0x1_0000_0000
    ensures BookValid(EmptyBook(capacity))
    ensures var x := Run(h, EmptyBook(capacity), OnePerPrice(ticker, n)).bids;
            && |x.levels| == (if n <= 256 then n else 256)
            && x.levels[0].price == |x.levels|
            && x.best == n
  {
    var ms := OnePerPrice(ticker, n);
    OnePerPriceFresh(ticker, n);
    RunQuotes(h, capacity, ms);
    OnePerPriceQuotes(ticker, n);
    LadderLevels(Run(h, EmptyBook(capacity), ms).bids.levels, if n <= 256 then n else 256);
  }
}
