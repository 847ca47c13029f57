/** What the book still guarantees when a side has more than 256 live prices and
    the arrays silently drop some of them. */
module BookEnvelope {
  import opened Messages
  import opened OrderTable
  import opened PriceLevels
  import opened LiveOrders
  import opened BookModel
  import opened BookRefinement

  /** Levels never overstate: strictly sorted, positive, and at most the live shares at their price. */
  ghost predicate LevelsEnvelope(l: seq<PriceLevel>, a: Orders, descending: bool) {
    && Sorted(l, descending) && |l| <= MAX_LEVELS
    && forall p: u32 :: LevelAt(l, p, descending).Some? ==>
                          0 < LevelAt(l, p, descending).value <= SharesAt(a, descending, p)
  }

  /** The cached best is 0 or the price of a live order, and at least as good as the first level. */
  ghost predicate BestEnvelope(l: seq<PriceLevel>, best: u32, a: Orders, descending: bool) {
    && (best == 0 || best in LivePrices(a, descending))
    && (l != [] ==> best != 0 && !Better(l[0].price, best, descending))
  }

  ghost predicate SideEnvelope(x: Half, a: Orders, descending: bool) {
    LevelsEnvelope(x.levels, a, descending) && BestEnvelope(x.levels, x.best, a, descending)
  }

  ghost predicate SidesEnvelope(b: Book, a: Orders) {
    SideEnvelope(b.bids, a, true) && SideEnvelope(b.asks, a, false)
  }

  ghost predicate Envelope(h: Hash, b: Book, a: Orders) {
    TableRefines(h, b.live, a) && OrdersPositive(a) && SidesEnvelope(b, a)
  }

  ghost predicate SumsFit(a: Orders) {
    forall descending: bool, p: u32 :: SharesAt(a, descending, p) < 0x1_0000_0000
  }

  lemma TopEnvelope(l: seq<PriceLevel>, a: Orders, descending: bool)
    requires LevelsEnvelope(l, a, descending) && OrdersPositive(a)
    ensures BestEnvelope(l, Top(l), a, descending)
  {
    if l != [] {
      LevelAtIndex(l, 0, descending);
      assert LevelAt(l, l[0].price, descending).Some?;
      LiveIffShares(a, descending, l[0].price);
      var k :| k in a && a[k].price == l[0].price;
      assert OrderPositive(a[k]);
    }
  }

  // ---- an order joins ----

  lemma JoinLevels(l: seq<PriceLevel>, a: Orders, ref: u64, o: Order, descending: bool)
    requires LevelsEnvelope(l, a, descending) && ref !in a && OrderPositive(o)
    requires SharesAt(a[ref := o], descending, o.price) < U32
    ensures var l1 := if OnSide(o, descending) then AddLevel(l, o.price, o.remaining, descending) else l;
            LevelsEnvelope(l1, a[ref := o], descending)
  {
    assert a - {ref} == a;
    AddKeepsSorted(l, o.price, o.remaining, descending);
    var l1 := if OnSide(o, descending) then AddLevel(l, o.price, o.remaining, descending) else l;
    SharesWith(a, ref, o, descending, o.price);
    forall p: u32 | LevelAt(l1, p, descending).Some?
      ensures 0 < LevelAt(l1, p, descending).value <= SharesAt(a[ref := o], descending, p)
    {
      AddLevelMap(l, o.price, o.remaining, descending, p);
      SharesWith(a, ref, o, descending, p);
      assert LevelAt(l, p, descending).Some? ==>
          0 < LevelAt(l, p, descending).value <= SharesAt(a, descending, p);
    }
  }

  lemma JoinBest(l: seq<PriceLevel>, best: u32, a: Orders, ref: u64, o: Order, descending: bool)
    requires Sorted(l, descending) && BestEnvelope(l, best, a, descending) && ref !in a && OrderPositive(o)
    ensures if OnSide(o, descending)
            then BestEnvelope(AddLevel(l, o.price, o.remaining, descending),
                              Improved(best, o.price, descending), a[ref := o], descending)
            else BestEnvelope(l, best, a[ref := o], descending)
  {
    var a1 := a[ref := o];
    if best in LivePrices(a, descending) {
      var k :| k in a && OnSide(a[k], descending) && a[k].price == best;
      assert a1[k] == a[k];
      assert best in LivePrices(a1, descending);
    }
    if OnSide(o, descending) {
      assert a1[ref] == o;
      assert o.price in LivePrices(a1, descending);
      var l1 := AddLevel(l, o.price, o.remaining, descending);
      assert l1 != [] ==> l1[0].price == o.price || (l != [] && l1[0].price == l[0].price);
    }
  }

  // ---- an order loses shares ----

  lemma LeaveLevels(l: seq<PriceLevel>, a: Orders, ref: u64, shares: u32, descending: bool)
    requires LevelsEnvelope(l, a, descending) && ref in a && shares <= a[ref].remaining
    ensures var l1 := if OnSide(a[ref], descending) then RemoveLevel(l, a[ref].price, shares, descending) else l;
            LevelsEnvelope(l1, Reduced(a, ref, shares), descending)
  {
    var o, a1 := a[ref], Reduced(a, ref, shares);
    RemoveKeepsSorted(l, o.price, shares, descending);
    var l1 := if OnSide(o, descending) then RemoveLevel(l, o.price, shares, descending) else l;
    forall p: u32 | LevelAt(l1, p, descending).Some?
      ensures 0 < LevelAt(l1, p, descending).value <= SharesAt(a1, descending, p)
    {
      RemoveLevelMap(l, o.price, shares, descending, p);
      SharesWithout(a, ref, descending, p);
      if shares < o.remaining {
        SharesWith(a, ref, a1[ref], descending, p);
      }
      assert LevelAt(l, p, descending).Some?;
    }
  }

  /** The cached best needs no refresh while the order that leaves was not at that price or not alone there. */
  lemma LeaveBest(l: seq<PriceLevel>, best: u32, a: Orders, ref: u64, shares: u32, descending: bool)
    requires Sorted(l, descending) && BestEnvelope(l, best, a, descending)
    requires OrdersPositive(a) && ref in a && shares <= a[ref].remaining
    requires shares < a[ref].remaining || !OnSide(a[ref], descending) || a[ref].price != best ||
             SharesAt(a - {ref}, descending, best) > 0
    ensures var l1 := if OnSide(a[ref], descending) then RemoveLevel(l, a[ref].price, shares, descending) else l;
            BestEnvelope(l1, best, Reduced(a, ref, shares), descending)
  {
    var o, a1 := a[ref], Reduced(a, ref, shares);
    if shares == o.remaining && SharesAt(a1, descending, best) > 0 {
      LiveIffShares(a1, descending, best);
    } else if best in LivePrices(a, descending) {
      var k :| k in a && OnSide(a[k], descending) && a[k].price == best;
      assert OrderPositive(a[k]);
      assert k in a1 && OnSide(a1[k], descending) && a1[k].price == best;
    }
    var l1 := RemoveLevel(l, o.price, shares, descending);
    assert l1 != [] ==> l1[0].price == l[0].price || (|l| > 1 && l1[0] == l[1]);
  }

  /** The order's departure leaves the cached best ask behind: its side is never refreshed, it is
      at the cached price, and no other ask rests there. */
  ghost predicate LeavesStale(b: Book, a: Orders, ref: u64)
    requires ref in a
  {
    !KnownSide(a[ref].side) && a[ref].price == b.asks.best && SharesAt(a - {ref}, false, a[ref].price) == 0
  }

  lemma StaleBreaks(x: Half, a: Orders, price: u32)
    requires OrdersPositive(a) && x.best == price > 0 && SharesAt(a, false, price) == 0
    ensures !SideEnvelope(x, a, false)
  {
    LiveIffShares(a, false, price);
  }

  lemma LeaveSides(b: Book, a: Orders, ref: u64, shares: u32)
    requires BookValid(b) && SidesEnvelope(b, a) && OrdersPositive(a) && ref in a && shares <= a[ref].remaining
    ensures var b1 := RemoveShares(b, a[ref].side, a[ref].price, shares);
            var b2 := if shares == a[ref].remaining then RecalculateBbo(b1, a[ref].side, a[ref].price) else b1;
            && OrdersPositive(Reduced(a, ref, shares))
            && (SidesEnvelope(b2, Reduced(a, ref, shares)) <==>
                !(shares == a[ref].remaining && LeavesStale(b, a, ref)))
  {
    var o, a1 := a[ref], Reduced(a, ref, shares);
    assert OrderPositive(o);
    LeaveLevels(b.bids.levels, a, ref, shares, true);
    LeaveLevels(b.asks.levels, a, ref, shares, false);
    var b1 := RemoveShares(b, o.side, o.price, shares);
    TopEnvelope(b1.bids.levels, a1, true);
    TopEnvelope(b1.asks.levels, a1, false);
    if shares == o.remaining && LeavesStale(b, a, ref) {
      StaleBreaks(b1.asks, a1, o.price);
    } else {
      if !(shares == o.remaining && o.side == 'B' && o.price == b.bids.best) {
        LeaveBest(b.bids.levels, b.bids.best, a, ref, shares, true);
      }
      if !(shares == o.remaining && o.side == 'S' && o.price == b.asks.best) {
        LeaveBest(b.asks.levels, b.asks.best, a, ref, shares, false);
      }
    }
  }

  // ---- one message, and whole runs ----

  lemma JoinSides(b: Book, a: Orders, ref: u64, o: Order)
    requires BookValid(b) && SidesEnvelope(b, a) && ref !in a && OrderPositive(o) && SumsFit(a[ref := o])
    ensures SidesEnvelope(ImproveBbo(AddShares(b, o.side, o.price, o.remaining), o.side, o.price), a[ref := o])
  {
    JoinLevels(b.bids.levels, a, ref, o, true);
    JoinLevels(b.asks.levels, a, ref, o, false);
    JoinBest(b.bids.levels, b.bids.best, a, ref, o, true);
    JoinBest(b.asks.levels, b.asks.best, a, ref, o, false);
  }

  lemma ReplaceSides(h: Hash, b: Book, a: Orders, m: Message)
    requires BookValid(b) && SidesEnvelope(b, a) && OrdersPositive(a)
    requires m.kind.Replace? && FieldsPositive(m) && Fresh(a, m)
    requires Finds(h, b.live, a, m.ref) && m.ref in a && SumsFit(AbsStep(a, m))
    ensures SidesEnvelope(Step(h, b, m), AbsStep(a, m))
  {
    var x, a1, a2 := a[m.ref], a - {m.ref}, AbsStep(a, m);
    var o := Order(x.side, m.price, m.shares);
    assert OrderPositive(x) && OrdersPositive(a1) && OrdersPositive(a2);
    LeaveLevels(b.bids.levels, a, m.ref, x.remaining, true);
    LeaveLevels(b.asks.levels, a, m.ref, x.remaining, false);
    var b1 := RemoveShares(b, x.side, x.price, x.remaining);
    JoinLevels(b1.bids.levels, a1, m.newRef, o, true);
    JoinLevels(b1.asks.levels, a1, m.newRef, o, false);
    var b2 := AddShares(b1, o.side, o.price, o.remaining);
    TopEnvelope(b2.bids.levels, a2, true);
    TopEnvelope(b2.asks.levels, a2, false);
    assert Step(h, b, m).bids == Recalculated(b2.bids) && Step(h, b, m).asks == Recalculated(b2.asks);
  }

  /** The message does not leave the cached best ask behind. */
  ghost predicate Refreshed(b: Book, a: Orders, m: Message) {
    Departs(a, m) ==> !LeavesStale(b, a, m.ref)
  }

  lemma ReduceSides(h: Hash, b: Book, a: Orders, m: Message)
    requires BookValid(b) && SidesEnvelope(b, a) && OrdersPositive(a) && Finds(h, b.live, a, m.ref) && m.ref in a
    requires m.kind.Execute? || m.kind.Delete?
    ensures SidesEnvelope(Step(h, b, m), AbsStep(a, m)) <==> Refreshed(b, a, m)
  {
    var x := a[m.ref];
    LeaveSides(b, a, m.ref, if m.kind.Execute? then Min(m.shares, x.remaining) else x.remaining);
    ReducedSides(h, b, a, m);
  }

  /** With any number of prices and orders of any side, a message keeps the envelope if and only if it does
      not leave the cached best ask behind. */
  lemma StepEnvelope(h: Hash, b: Book, a: Orders, m: Message)
    requires BookValid(b) && Envelope(h, b, a) && FieldsPositive(m) && Fresh(a, m) && SumsFit(AbsStep(a, m))
    ensures Envelope(h, Step(h, b, m), AbsStep(a, m)) <==> Refreshed(b, a, m)
  {
    StepTable(h, b, a, m);
    StepKeepsOrdersPositive(a, m);
    TableFinds(h, b.live, a, m.ref);
    if m.kind.Add? {
      JoinSides(b, a, m.ref, Order(m.side, m.price, m.shares));
    } else if m.ref !in a {
      assert a - {m.ref} == a;
    } else if m.kind.Replace? {
      ReplaceSides(h, b, a, m);
    } else {
      ReduceSides(h, b, a, m);
    }
  }

  ghost predicate SumsAlwaysFit(ms: seq<Message>) {
    forall i :: 0 <= i <= |ms| ==> SumsFit(AbsRun(map[], ms[..i]))
  }

  ghost predicate RefreshedAt(h: Hash, capacity: nat, ms: seq<Message>, i: nat)
    requires capacity > 0 && i < |ms|
  {
    BookValid(EmptyBook(capacity)) && Refreshed(Run(h, EmptyBook(capacity), ms[..i]), AbsRun(map[], ms[..i]), ms[i])
  }

  ghost predicate EnvelopeAt(h: Hash, capacity: nat, ms: seq<Message>, i: nat)
    requires capacity > 0 && i <= |ms|
  {
    BookValid(EmptyBook(capacity)) && Envelope(h, Run(h, EmptyBook(capacity), ms[..i]), AbsRun(map[], ms[..i]))
  }

  lemma {:induction false} EnvelopeStart(h: Hash, capacity: nat, ms: seq<Message>)
    requires capacity > 0
    ensures EnvelopeAt(h, capacity, ms, 0)
  {
    EmptyTableOk(h, capacity);
    assert ms[..0] == [];
  }

  lemma {:induction false} EnvelopeNext(h: Hash, capacity: nat, ms: seq<Message>, i: nat)
    requires capacity > 0 && i < |ms| && FeedFresh(ms) && SumsAlwaysFit(ms) && EnvelopeAt(h, capacity, ms, i)
    ensures EnvelopeAt(h, capacity, ms, i + 1) <==> RefreshedAt(h, capacity, ms, i)
  {
    assert ms[..i + 1][..i] == ms[..i];
    StepEnvelope(h, Run(h, EmptyBook(capacity), ms[..i]), AbsRun(map[], ms[..i]), ms[i]);
  }

  lemma {:induction false} RunEnvelopeUpTo(h: Hash, capacity: nat, ms: seq<Message>, i: nat)
    requires capacity > 0 && FeedFresh(ms) && SumsAlwaysFit(ms) && i <= |ms|
    requires forall k :: 0 <= k < i ==> RefreshedAt(h, capacity, ms, k)
    ensures EnvelopeAt(h, capacity, ms, i)
  {
    if i == 0 {
      EnvelopeStart(h, capacity, ms);
    } else {
      RunEnvelopeUpTo(h, capacity, ms, i - 1);
      EnvelopeNext(h, capacity, ms, i - 1);
    }
  }

  /** Saturation envelope: with no bound on the number of distinct prices, a run of fresh references, of any sides,
      whose per-price sums fit 32 bits stays in the envelope all along if and only if no
      departure leaves the cached best ask behind. */
  lemma {:induction false} AlwaysInEnvelopeIff(h: Hash, capacity: nat, ms: seq<Message>)
    requires capacity > 0 && FeedFresh(ms) && SumsAlwaysFit(ms)
    ensures (forall i :: 0 <= i <= |ms| ==> EnvelopeAt(h, capacity, ms, i)) <==>
            (forall i :: 0 <= i < |ms| ==> RefreshedAt(h, capacity, ms, i))
  {
    if forall i :: 0 <= i < |ms| ==> RefreshedAt(h, capacity, ms, i) {
      forall i | 0 <= i <= |ms|
        ensures EnvelopeAt(h, capacity, ms, i)
      {
        RunEnvelopeUpTo(h, capacity, ms, i);
      }
    }
    if forall i :: 0 <= i <= |ms| ==> EnvelopeAt(h, capacity, ms, i) {
      forall i | 0 <= i < |ms|
        ensures RefreshedAt(h, capacity, ms, i)
      {
        assert EnvelopeAt(h, capacity, ms, i + 1);
        EnvelopeNext(h, capacity, ms, i);
      }
    }
  }

  /** A feed of sides 'B' and 'S' never does, so every such run ends in the envelope. */
  lemma {:induction false} RunEnvelope(h: Hash, capacity: nat, ms: seq<Message>)
    requires capacity > 0 && FeedOk(ms) && SumsAlwaysFit(ms)
    ensures BookValid(EmptyBook(capacity))
    ensures Envelope(h, Run(h, EmptyBook(capacity), ms), AbsRun(map[], ms))
  {
    EmptyTableOk(h, capacity);
    assert FeedFresh(ms);
    forall i | 0 <= i < |ms|
      ensures RefreshedAt(h, capacity, ms, i)
    {
      assert forall k :: 0 <= k < i ==> ms[..i][..k] == ms[..k];
      RunOrdersOk(ms[..i]);
    }
    RunEnvelopeUpTo(h, capacity, ms, |ms|);
    assert ms[..|ms|] == ms;
  }
}
