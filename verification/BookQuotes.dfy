/** What the level arrays and the cached best prices are after any stream with fresh references: the book against
    two maps from price to shares that hold at most 256 prices each. Nothing bounds prices, shares or sides, so
    this is also what a saturated book shows. */
module BookQuotes {
  import opened Messages
  import opened OrderTable
  import opened PriceLevels
  import opened LiveOrders
  import opened BookModel
  import opened BookRefinement

  type Depth = map<u32, u32>

  datatype Quotes = Quotes(bids: Depth, asks: Depth, bestBid: u32, bestAsk: u32)

  // ---- the rules of a feed, on maps ----

  /** Shares join a price; a new price is dropped when there are 256. */
  function Joined(x: Depth, price: u32, shares: u32): Depth {
    if price in x then x[price := (x[price] + shares) % 0x1_0000_0000]
    else if |x| < 256 then x[price := shares]
    else x
  }

  /** Shares leave a price, which leaves with its last share. */
  function Cut(x: Depth, price: u32, shares: u32): Depth {
    if price in x && shares < x[price] then x[price := x[price] - shares] else x - {price}
  }

  ghost predicate IsFront(x: Depth, descending: bool, p: u32) {
    if x == map[] then p == 0
    else p in x && forall q :: q in x ==> if descending then q <= p else p <= q
  }

  /** The highest bid or the lowest ask, 0 when there is none. */
  ghost function Front(x: Depth, descending: bool): (p: u32)
    ensures IsFront(x, descending, p)
  {
    FrontExists(x, descending);
    var p :| IsFront(x, descending, p); p
  }

  lemma {:induction false} FrontExists(x: Depth, descending: bool)
    ensures exists p: u32 :: IsFront(x, descending, p)
    decreases |x|
  {
    if x == map[] {
      assert IsFront(x, descending, 0);
    } else {
      var k :| k in x;
      var y := x - {k};
      assert y[k := x[k]] == x;
      FrontExists(y, descending);
      var p: u32 :| IsFront(y, descending, p);
      var best := if y == map[] then k else if descending == (k > p) then k else p;
      assert IsFront(x, descending, best);
    }
  }

  /** A side's array and cache after an addition. */
  function Entered(q: Quotes, side: char, price: u32, shares: u32): Quotes {
    if side == 'B' then q.(bids := Joined(q.bids, price, shares))
    else q.(asks := Joined(q.asks, price, shares))
  }

  function Left(q: Quotes, side: char, price: u32, shares: u32): Quotes {
    if side == 'B' then q.(bids := Cut(q.bids, price, shares))
    else q.(asks := Cut(q.asks, price, shares))
  }

  /** The best price of side 'B' or 'S' is looked up again when it is the price just left. */
  ghost function LookedUp(q: Quotes, side: char, price: u32): Quotes {
    if side == 'B' && price == q.bestBid then q.(bestBid := Front(q.bids, true))
    else if side == 'S' && price == q.bestAsk then q.(bestAsk := Front(q.asks, false))
    else q
  }

  /** One message on the quotes, given the live order it names: an addition offers its price to the cache whether or
      not the array took it; a departure looks its price up again; a replacement looks both sides up. */
  ghost function QuoteStep(q: Quotes, a: Orders, m: Message): Quotes {
    if m.kind.Add? then
      var q1 := Entered(q, m.side, m.price, m.shares);
      if m.side == 'B' then (if m.price > q.bestBid then q1.(bestBid := m.price) else q1)
      else if q.bestAsk == 0 || m.price < q.bestAsk then q1.(bestAsk := m.price)
      else q1
    else if m.ref !in a then q
    else
      var o := a[m.ref];
      match m.kind
      case Execute =>
        if m.shares < o.remaining then Left(q, o.side, o.price, m.shares)
        else LookedUp(Left(q, o.side, o.price, o.remaining), o.side, o.price)
      case Delete => LookedUp(Left(q, o.side, o.price, o.remaining), o.side, o.price)
      case _ =>
        var q1 := Entered(Left(q, o.side, o.price, o.remaining), o.side, m.price, m.shares);
        q1.(bestBid := Front(q1.bids, true), bestAsk := Front(q1.asks, false))
  }

  ghost function QuoteRun(ms: seq<Message>): Quotes {
    if ms == [] then Quotes(map[], map[], 0, 0)
    else QuoteStep(QuoteRun(ms[..|ms| - 1]), AbsRun(map[], ms[..|ms| - 1]), ms[|ms| - 1])
  }

  // ---- the arrays as maps ----

  /** A sorted array as the map of its prices to their totals. */
  ghost function DepthOf(l: seq<PriceLevel>, descending: bool): (x: Depth) {
    map p | p in PricesOf(l) && LevelAt(l, p, descending).Some? :: LevelAt(l, p, descending).value
  }

  ghost function QuotesOf(b: Book): Quotes {
    Quotes(DepthOf(b.bids.levels, true), DepthOf(b.asks.levels, false), b.bids.best, b.asks.best)
  }

  function Of(x: Depth, p: u32): Option<u32> {
    if p in x then Some(x[p]) else None
  }

  lemma {:induction false} DepthAt(l: seq<PriceLevel>, descending: bool, p: u32)
    requires Sorted(l, descending)
    ensures Of(DepthOf(l, descending), p) == LevelAt(l, p, descending)
  {
    if LevelAt(l, p, descending).Some? {
      assert l[Rank(l, p, descending)].price in PricesOf(l);
    }
  }

  lemma {:induction false} SameDepth(l: seq<PriceLevel>, descending: bool, x: Depth)
    requires Sorted(l, descending) && forall p: u32 :: LevelAt(l, p, descending) == Of(x, p)
    ensures DepthOf(l, descending) == x
  {
    var y := DepthOf(l, descending);
    forall p: u32
      ensures Of(y, p) == Of(x, p)
    {
      DepthAt(l, descending, p);
    }
    SameMap(x, y);
  }

  lemma SameMap(x: Depth, y: Depth)
    requires forall p: u32 :: Of(y, p) == Of(x, p)
    ensures x == y
  {
    assert forall p: u32 :: p in x <==> Of(x, p).Some?;
    assert forall p: u32 :: p in y <==> Of(y, p).Some?;
    forall p | p in x
      ensures p in y && x[p] == y[p]
    {
      assert Of(y, p) == Of(x, p);
    }
  }

  lemma {:induction false} DepthCount(l: seq<PriceLevel>, descending: bool)
    requires Sorted(l, descending)
    ensures |DepthOf(l, descending)| == |l|
  {
    PricesCount(l, descending);
    forall p | p in PricesOf(l)
      ensures LevelAt(l, p, descending).Some?
    {
      var i :| 0 <= i < |l| && l[i].price == p;
      LevelAtIndex(l, i, descending);
    }
    assert DepthOf(l, descending).Keys == PricesOf(l);
  }

  /** What an addition makes of one price, in the two views. */
  function PriceAfterAdd(before: Option<u32>, count: nat, shares: u32): Option<u32> {
    match before
    case Some(t) => Some((t + shares) % 0x1_0000_0000)
    case None => if count < 256 then Some(shares) else None
  }

  function PriceAfterCut(before: Option<u32>, shares: u32): Option<u32> {
    match before
    case Some(t) => if shares < t then Some(t - shares) else None
    case None => None
  }

  lemma JoinedAt(x: Depth, price: u32, shares: u32, p: u32)
    ensures Of(Joined(x, price, shares), p) ==
            if p != price then Of(x, p) else PriceAfterAdd(Of(x, price), |x|, shares)
  {
  }

  lemma CutAt(x: Depth, price: u32, shares: u32, p: u32)
    ensures Of(Cut(x, price, shares), p) == if p != price then Of(x, p) else PriceAfterCut(Of(x, price), shares)
  {
  }

  lemma {:induction false} LevelAfterAdd(l: seq<PriceLevel>, price: u32, shares: u32, descending: bool, p: u32)
    requires Sorted(l, descending)
    ensures LevelAt(AddLevel(l, price, shares, descending), p, descending) ==
            if p != price then LevelAt(l, p, descending)
            else PriceAfterAdd(LevelAt(l, price, descending), |l|, shares)
  {
    AddLevelMap(l, price, shares, descending, p);
  }

  lemma {:induction false} JoinedLike(l: seq<PriceLevel>, l1: seq<PriceLevel>, price: u32, shares: u32,
                                      descending: bool)
    requires Sorted(l, descending) && Sorted(l1, descending)
    requires forall p: u32 :: LevelAt(l1, p, descending) ==
               if p != price then LevelAt(l, p, descending)
               else PriceAfterAdd(LevelAt(l, price, descending), |l|, shares)
    ensures DepthOf(l1, descending) == Joined(DepthOf(l, descending), price, shares)
  {
    var x := DepthOf(l, descending);
    DepthCount(l, descending);
    DepthAt(l, descending, price);
    forall p: u32
      ensures LevelAt(l1, p, descending) == Of(Joined(x, price, shares), p)
    {
      DepthAt(l, descending, p);
      JoinedAt(x, price, shares, p);
    }
    SameDepth(l1, descending, Joined(x, price, shares));
  }

  lemma {:induction false} DepthAfterAdd(l: seq<PriceLevel>, price: u32, shares: u32, descending: bool)
    requires Sorted(l, descending)
    ensures DepthOf(AddLevel(l, price, shares, descending), descending) == Joined(DepthOf(l, descending), price, shares)
  {
    AddKeepsSorted(l, price, shares, descending);
    forall p: u32 {
      LevelAfterAdd(l, price, shares, descending, p);
    }
    JoinedLike(l, AddLevel(l, price, shares, descending), price, shares, descending);
  }

  lemma {:induction false} LevelAfterRemove(l: seq<PriceLevel>, price: u32, shares: u32, descending: bool, p: u32)
    requires Sorted(l, descending)
    ensures LevelAt(RemoveLevel(l, price, shares, descending), p, descending) ==
            if p != price then LevelAt(l, p, descending)
            else PriceAfterCut(LevelAt(l, price, descending), shares)
  {
    RemoveLevelMap(l, price, shares, descending, p);
  }

  lemma {:induction false} CutLike(l: seq<PriceLevel>, l1: seq<PriceLevel>, price: u32, shares: u32, descending: bool)
    requires Sorted(l, descending) && Sorted(l1, descending)
    requires forall p: u32 :: LevelAt(l1, p, descending) ==
               if p != price then LevelAt(l, p, descending)
               else PriceAfterCut(LevelAt(l, price, descending), shares)
    ensures DepthOf(l1, descending) == Cut(DepthOf(l, descending), price, shares)
  {
    var x := DepthOf(l, descending);
    DepthAt(l, descending, price);
    forall p: u32
      ensures LevelAt(l1, p, descending) == Of(Cut(x, price, shares), p)
    {
      DepthAt(l, descending, p);
      CutAt(x, price, shares, p);
    }
    SameDepth(l1, descending, Cut(x, price, shares));
  }

  lemma {:induction false} DepthAfterRemove(l: seq<PriceLevel>, price: u32, shares: u32, descending: bool)
    requires Sorted(l, descending)
    ensures DepthOf(RemoveLevel(l, price, shares, descending), descending) == Cut(DepthOf(l, descending), price, shares)
  {
    RemoveKeepsSorted(l, price, shares, descending);
    forall p: u32 {
      LevelAfterRemove(l, price, shares, descending, p);
    }
    CutLike(l, RemoveLevel(l, price, shares, descending), price, shares, descending);
  }

  lemma {:induction false} TopIsFront(l: seq<PriceLevel>, descending: bool)
    requires Sorted(l, descending)
    ensures Top(l) == Front(DepthOf(l, descending), descending)
  {
    var x := DepthOf(l, descending);
    if l != [] {
      LevelAtIndex(l, 0, descending);
      DepthAt(l, descending, l[0].price);
      var p := Front(x, descending);
      assert p in PricesOf(l);
      var i :| 0 <= i < |l| && l[i].price == p;
      assert i > 0 ==> Better(l[0].price, p, descending);
    } else {
      assert x == map[];
    }
  }

  // ---- one message ----

  lemma EnteredIs(b: Book, side: char, price: u32, shares: u32)
    requires BookValid(b)
    ensures QuotesOf(AddShares(b, side, price, shares)) == Entered(QuotesOf(b), side, price, shares)
  {
    DepthAfterAdd(b.bids.levels, price, shares, true);
    DepthAfterAdd(b.asks.levels, price, shares, false);
  }

  lemma LeftIs(b: Book, side: char, price: u32, shares: u32)
    requires BookValid(b)
    ensures QuotesOf(RemoveShares(b, side, price, shares)) == Left(QuotesOf(b), side, price, shares)
  {
    DepthAfterRemove(b.bids.levels, price, shares, true);
    DepthAfterRemove(b.asks.levels, price, shares, false);
  }

  lemma LookedUpIs(b: Book, side: char, price: u32)
    requires BookValid(b)
    ensures QuotesOf(RecalculateBbo(b, side, price)) == LookedUp(QuotesOf(b), side, price)
    ensures var q := QuotesOf(b);
            QuotesOf(RecalculateBboFull(b)) == q.(bestBid := Front(q.bids, true), bestAsk := Front(q.asks, false))
  {
    TopIsFront(b.bids.levels, true);
    TopIsFront(b.asks.levels, false);
  }

  lemma ReplacedSides(h: Hash, b: Book, a: Orders, m: Message)
    requires BookValid(b) && Finds(h, b.live, a, m.ref) && m.kind.Replace? && m.ref in a
    ensures var o := a[m.ref];
            var b2 := AddShares(RemoveShares(b, o.side, o.price, o.remaining), o.side, m.price, m.shares);
            Step(h, b, m).bids == Recalculated(b2.bids) && Step(h, b, m).asks == Recalculated(b2.asks)
  {
  }

  lemma ReplaceQuotes(h: Hash, b: Book, a: Orders, m: Message)
    requires BookValid(b) && Finds(h, b.live, a, m.ref) && m.kind.Replace? && m.ref in a
    ensures QuotesOf(Step(h, b, m)) == QuoteStep(QuotesOf(b), a, m)
  {
    var o := a[m.ref];
    var b1 := RemoveShares(b, o.side, o.price, o.remaining);
    var b2 := AddShares(b1, o.side, m.price, m.shares);
    LeftIs(b, o.side, o.price, o.remaining);
    EnteredIs(b1, o.side, m.price, m.shares);
    LookedUpIs(b2, o.side, m.price);
    ReplacedSides(h, b, a, m);
  }

  lemma ReduceQuotes(h: Hash, b: Book, a: Orders, m: Message)
    requires BookValid(b) && Finds(h, b.live, a, m.ref) && (m.kind.Execute? || m.kind.Delete?) && m.ref in a
    ensures QuotesOf(Step(h, b, m)) == QuoteStep(QuotesOf(b), a, m)
  {
    var o := a[m.ref];
    var shares := if m.kind.Execute? then Min(m.shares, o.remaining) else o.remaining;
    var b1 := RemoveShares(b, o.side, o.price, shares);
    LeftIs(b, o.side, o.price, shares);
    LookedUpIs(b1, o.side, o.price);
    ReducedSides(h, b, a, m);
    assert QuotesOf(Step(h, b, m)) ==
           QuotesOf(if shares == o.remaining then RecalculateBbo(b1, o.side, o.price) else b1);
  }

  lemma AddQuotes(h: Hash, b: Book, a: Orders, m: Message)
    requires BookValid(b) && m.kind.Add?
    ensures QuotesOf(Step(h, b, m)) == QuoteStep(QuotesOf(b), a, m)
  {
    EnteredIs(b, m.side, m.price, m.shares);
    assert QuotesOf(Step(h, b, m)) == QuotesOf(ImproveBbo(AddShares(b, m.side, m.price, m.shares), m.side, m.price));
  }

  /** Every handler, on every book, does to the arrays and the cache what the rules of the feed do to the maps. */
  lemma StepQuotes(h: Hash, b: Book, a: Orders, m: Message)
    requires BookValid(b) && Finds(h, b.live, a, m.ref)
    ensures QuotesOf(Step(h, b, m)) == QuoteStep(QuotesOf(b), a, m)
  {
    if m.kind.Add? {
      AddQuotes(h, b, a, m);
    } else if m.ref !in a {
    } else if m.kind.Replace? {
      ReplaceQuotes(h, b, a, m);
    } else {
      ReduceQuotes(h, b, a, m);
    }
  }

  // ---- whole runs ----

  ghost predicate AlwaysFresh(ms: seq<Message>) {
    forall i :: 0 <= i < |ms| ==> Fresh(AbsRun(map[], ms[..i]), ms[i])
  }

  lemma {:induction false} PrefixFresh(ms: seq<Message>)
    requires ms != [] && AlwaysFresh(ms)
    ensures AlwaysFresh(ms[..|ms| - 1]) && Fresh(AbsRun(map[], ms[..|ms| - 1]), ms[|ms| - 1])
  {
    var k := |ms| - 1;
    assert forall i :: 0 <= i < k ==> ms[..k][..i] == ms[..i];
  }

  /** Over every stream with fresh references, of any prices, shares and sides and however many prices there are,
      the arrays and the cached best prices are exactly what the rules of the feed make of the maps. */
  lemma {:induction false} RunQuotes(h: Hash, capacity: nat, ms: seq<Message>)
    requires capacity > 0 && AlwaysFresh(ms)
    ensures BookValid(EmptyBook(capacity))
    ensures TableRefines(h, Run(h, EmptyBook(capacity), ms).live, AbsRun(map[], ms))
    ensures QuotesOf(Run(h, EmptyBook(capacity), ms)) == QuoteRun(ms)
  {
    EmptyRefines(h, capacity);
    if ms != [] {
      var before, m := ms[..|ms| - 1], ms[|ms| - 1];
      PrefixFresh(ms);
      RunQuotes(h, capacity, before);
      var b, a := Run(h, EmptyBook(capacity), before), AbsRun(map[], before);
      TableFinds(h, b.live, a, m.ref);
      StepTable(h, b, a, m);
      StepQuotes(h, b, a, m);
    }
  }

  // ---- a side that only fills ----

  /** The best of a side's live prices, 0 when there are none. */
  ghost predicate BestOver(best: u32, prices: set<u32>, descending: bool) {
    if prices == {} then best == 0
    else best in prices && forall p :: p in prices ==> !Better(p, best, descending)
  }

  lemma BestOverWith(best: u32, prices: set<u32>, price: u32, descending: bool)
    requires BestOver(best, prices, descending) && price > 0 && 0 !in prices
    ensures var best1 := if descending then (if price > best then price else best)
                         else if best == 0 || price < best then price else best;
            BestOver(best1, prices + {price}, descending)
  {
  }

  lemma LivePositive(a: Orders, descending: bool)
    requires OrdersPositive(a)
    ensures 0 !in LivePrices(a, descending)
  {
  }

  lemma OtherSidePrices(a: Orders, ref: u64, o: Order, descending: bool)
    requires ref !in a && !OnSide(o, descending)
    ensures LivePrices(a[ref := o], descending) == LivePrices(a, descending)
  {
    var a1 := a[ref := o];
    assert a1[ref] == o;
    forall k | k in a && OnSide(a[k], descending)
      ensures a[k].price in LivePrices(a1, descending)
    {
      assert a1[k] == a[k];
    }
  }

  ghost predicate BothBest(q: Quotes, a: Orders) {
    BestOver(q.bestBid, LivePrices(a, true), true) && BestOver(q.bestAsk, LivePrices(a, false), false)
  }

  lemma AddKeepsBest(q: Quotes, a: Orders, m: Message)
    requires BothBest(q, a) && OrdersPositive(a) && m.kind.Add? && FieldsPositive(m) && m.ref !in a
    ensures BothBest(QuoteStep(q, a, m), AbsStep(a, m))
  {
    var o, d := Order(m.side, m.price, m.shares), m.side == 'B';
    LivePositive(a, d);
    LivePricesWith(a, m.ref, o, d);
    OtherSidePrices(a, m.ref, o, !d);
    BestOverWith(if d then q.bestBid else q.bestAsk, LivePrices(a, d), m.price, d);
  }

  ghost predicate OnlyAdds(ms: seq<Message>) {
    FeedFresh(ms) && forall i :: 0 <= i < |ms| ==> ms[i].kind.Add?
  }

  lemma {:induction false} PrefixAdds(ms: seq<Message>)
    requires ms != [] && OnlyAdds(ms)
    ensures var m := ms[|ms| - 1];
            && OnlyAdds(ms[..|ms| - 1]) && m.kind.Add? && FieldsPositive(m)
            && m.ref !in AbsRun(map[], ms[..|ms| - 1])
  {
    var k := |ms| - 1;
    assert forall i :: 0 <= i < k ==> ms[..k][..i] == ms[..i];
    assert Fresh(AbsRun(map[], ms[..k]), ms[k]);
  }

  lemma {:induction false} AddsKeepBest(ms: seq<Message>)
    requires OnlyAdds(ms)
    ensures BothBest(QuoteRun(ms), AbsRun(map[], ms)) && OrdersPositive(AbsRun(map[], ms))
  {
    if ms != [] {
      var before, m := ms[..|ms| - 1], ms[|ms| - 1];
      PrefixAdds(ms);
      AddsKeepBest(before);
      AddKeepsBest(QuoteRun(before), AbsRun(map[], before), m);
      StepKeepsOrdersPositive(AbsRun(map[], before), m);
    }
  }

  /** With no bound on prices: while a book only fills, each cached best is the best price of the live orders of its
      side, 0 when there are none, even where the array has dropped that price. */
  lemma {:induction false} FillingShowsBest(h: Hash, capacity: nat, ms: seq<Message>)
    requires capacity > 0 && OnlyAdds(ms)
    ensures BookValid(EmptyBook(capacity))
    ensures var (b, a) := (Run(h, EmptyBook(capacity), ms), AbsRun(map[], ms));
            && BestOver(b.bids.best, LivePrices(a, true), true)
            && BestOver(b.asks.best, LivePrices(a, false), false)
  {
    RunQuotes(h, capacity, ms);
    AddsKeepBest(ms);
  }
}
