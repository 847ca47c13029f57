/** The book of arrays, cache and hash table simulates the map of live orders,
    exactly as long as references are fresh and the live orders fit. */
module BookRefinement {
  import opened Messages
  import opened OrderTable
  import opened PriceLevels
  import opened LiveOrders
  import opened BookModel

  ghost function Resting(a: Orders, descending: bool, p: u32): Option<nat> {
    if SharesAt(a, descending, p) == 0 then None else Some(SharesAt(a, descending, p))
  }

  /** A level exists exactly where live orders rest, and holds exactly their shares. */
  ghost predicate LevelsOk(l: seq<PriceLevel>, a: Orders, descending: bool) {
    && Sorted(l, descending) && |l| <= MAX_LEVELS
    && forall p: u32 :: LevelAt(l, p, descending) == Resting(a, descending, p)
  }

  ghost predicate LevelsRefine(b: Book, a: Orders) {
    LevelsOk(b.bids.levels, a, true) && LevelsOk(b.asks.levels, a, false)
  }

  /** Each cached best price is that of the first level. */
  predicate BestsRefine(b: Book) {
    b.bids.best == Top(b.bids.levels) && b.asks.best == Top(b.asks.levels)
  }

  /** The level arrays and the cached best prices agree with the live orders. */
  ghost predicate SidesRefine(b: Book, a: Orders) {
    LevelsRefine(b, a) && BestsRefine(b)
  }

  ghost predicate TableRefines(h: Hash, t: Table, a: Orders) {
    TableOk(h, t) && View(t.slots) == a
  }

  /** Table and level arrays agree; nothing is said of the cached best prices. */
  ghost predicate Stored(h: Hash, b: Book, a: Orders) {
    TableRefines(h, b.live, a) && OrdersPositive(a) && LevelsRefine(b, a)
  }

  /** The three redundant views agree: table, level arrays and cached best prices. */
  ghost predicate Refines(h: Hash, b: Book, a: Orders) {
    Stored(h, b, a) && BestsRefine(b)
  }

  // ---- as many levels as live prices ----

  ghost function PricesOf(l: seq<PriceLevel>): set<u32> {
    set i | 0 <= i < |l| :: l[i].price
  }

  lemma {:induction false} PricesCount(l: seq<PriceLevel>, descending: bool)
    requires Sorted(l, descending)
    ensures |PricesOf(l)| == |l|
  {
    if l != [] {
      var k := |l| - 1;
      PricesCount(l[..k], descending);
      assert PricesOf(l) == PricesOf(l[..k]) + {l[k].price} by {
        forall i | 0 <= i < |l|
          ensures l[i].price in PricesOf(l[..k]) + {l[k].price}
        {
          if i < k { assert l[..k][i] == l[i]; }
        }
      }
    }
  }

  lemma LevelsCount(l: seq<PriceLevel>, a: Orders, descending: bool)
    requires LevelsOk(l, a, descending) && OrdersPositive(a)
    ensures |LivePrices(a, descending)| == |l|
    ensures FitsSide(a, descending)
  {
    PricesCount(l, descending);
    forall p: u32
      ensures p in PricesOf(l) <==> p in LivePrices(a, descending)
      ensures SharesAt(a, descending, p) < U32
    {
      LiveIffShares(a, descending, p);
      if p in PricesOf(l) {
        var i :| 0 <= i < |l| && l[i].price == p;
        LevelAtIndex(l, i, descending);
      }
      assert LevelAt(l, p, descending) == Resting(a, descending, p);
    }
    assert PricesOf(l) == LivePrices(a, descending);
  }

  // ---- an order joins ----

  lemma JoinOtherSide(l: seq<PriceLevel>, a: Orders, ref: u64, o: Order, descending: bool)
    requires LevelsOk(l, a, descending) && ref !in a && !OnSide(o, descending)
    ensures LevelsOk(l, a[ref := o], descending)
  {
    assert a - {ref} == a;
    forall p: u32
      ensures Resting(a[ref := o], descending, p) == Resting(a, descending, p)
    {
      SharesWith(a, ref, o, descending, p);
    }
  }

  /** A price no live order has yet needs a free level, and fitting says there is one. */
  lemma RoomForPrice(l: seq<PriceLevel>, a: Orders, ref: u64, o: Order, descending: bool)
    requires LevelsOk(l, a, descending) && OrdersPositive(a) && ref !in a && OnSide(o, descending)
    requires |LivePrices(a[ref := o], descending)| <= MAX_LEVELS
    requires SharesAt(a, descending, o.price) == 0
    ensures |l| < MAX_LEVELS
  {
    LevelsCount(l, a, descending);
    LiveIffShares(a, descending, o.price);
    LivePricesWith(a, ref, o, descending);
    var before := LivePrices(a, descending);
    assert |before + {o.price}| == |before| + 1;
  }

  lemma LivePricesWith(a: Orders, ref: u64, o: Order, descending: bool)
    requires ref !in a && OnSide(o, descending)
    ensures LivePrices(a[ref := o], descending) == LivePrices(a, descending) + {o.price}
  {
    var a1 := a[ref := o];
    assert a1[ref] == o;
    forall k | k in a && OnSide(a[k], descending)
      ensures a[k].price in LivePrices(a1, descending)
    {
      assert a1[k] == a[k];
    }
  }

  lemma JoinSameSide(l: seq<PriceLevel>, a: Orders, ref: u64, o: Order, descending: bool)
    requires LevelsOk(l, a, descending) && OrdersPositive(a) && ref !in a && OrderPositive(o) && OnSide(o, descending)
    requires FitsSide(a[ref := o], descending)
    ensures LevelsOk(AddLevel(l, o.price, o.remaining, descending), a[ref := o], descending)
  {
    var a1, l1 := a[ref := o], AddLevel(l, o.price, o.remaining, descending);
    assert a - {ref} == a;
    AddKeepsSorted(l, o.price, o.remaining, descending);
    forall p: u32
      ensures LevelAt(l1, p, descending) == Resting(a1, descending, p)
    {
      AddLevelMap(l, o.price, o.remaining, descending, p);
      SharesWith(a, ref, o, descending, p);
      assert LevelAt(l, p, descending) == Resting(a, descending, p);
      assert SharesAt(a1, descending, p) < U32;
      if p == o.price && SharesAt(a, descending, p) == 0 {
        RoomForPrice(l, a, ref, o, descending);
      }
    }
  }

  /** Adding a fresh order keeps levels and orders in step if and only if the orders still fit. */
  lemma JoinFresh(b: Book, a: Orders, ref: u64, o: Order)
    requires BookValid(b) && LevelsRefine(b, a) && OrdersPositive(a) && ref !in a && OrderPositive(o)
    ensures LevelsRefine(AddShares(b, o.side, o.price, o.remaining), a[ref := o]) <==> Fits(a[ref := o])
  {
    var a1, b1 := a[ref := o], AddShares(b, o.side, o.price, o.remaining);
    assert OrdersPositive(a1);
    if LevelsRefine(b1, a1) {
      LevelsCount(b1.bids.levels, a1, true);
      LevelsCount(b1.asks.levels, a1, false);
    }
    if Fits(a1) {
      if o.side == 'B' {
        JoinSameSide(b.bids.levels, a, ref, o, true);
        JoinOtherSide(b.asks.levels, a, ref, o, false);
      } else {
        JoinSameSide(b.asks.levels, a, ref, o, false);
        JoinOtherSide(b.bids.levels, a, ref, o, true);
      }
    }
  }

  /** Adding under a reference that is still live always desynchronises the levels. */
  lemma JoinStale(b: Book, a: Orders, ref: u64, o: Order)
    requires BookValid(b) && LevelsRefine(b, a) && OrdersPositive(a) && ref in a && OrderPositive(o)
    ensures !LevelsRefine(AddShares(b, o.side, o.price, o.remaining), a[ref := o])
  {
    var x := a[ref];
    assert OrderPositive(x);
    var d, p := x.side == 'B', x.price;
    var l := if d then b.bids.levels else b.asks.levels;
    SharesWithout(a, ref, d, p);
    SharesWith(a, ref, o, d, p);
    AddLevelMap(l, o.price, o.remaining, d, p);
    assert LevelAt(l, p, d) == Resting(a, d, p);
    var b1 := AddShares(b, o.side, o.price, o.remaining);
    var l1 := if d then b1.bids.levels else b1.asks.levels;
    assert LevelAt(l1, p, d) != Resting(a[ref := o], d, p);
  }

  // ---- an order loses shares ----

  lemma LeaveSide(l: seq<PriceLevel>, a: Orders, ref: u64, shares: u32, descending: bool)
    requires LevelsOk(l, a, descending) && ref in a && OrderPositive(a[ref]) && shares <= a[ref].remaining
    ensures var l1 := if OnSide(a[ref], descending) then RemoveLevel(l, a[ref].price, shares, descending) else l;
            LevelsOk(l1, Reduced(a, ref, shares), descending)
  {
    var o, a1 := a[ref], Reduced(a, ref, shares);
    RemoveKeepsSorted(l, o.price, shares, descending);
    var l1 := if OnSide(o, descending) then RemoveLevel(l, o.price, shares, descending) else l;
    forall p: u32
      ensures LevelAt(l1, p, descending) == Resting(a1, descending, p)
    {
      RemoveLevelMap(l, o.price, shares, descending, p);
      SharesWithout(a, ref, descending, p);
      assert LevelAt(l, p, descending) == Resting(a, descending, p);
      if shares < o.remaining {
        SharesWith(a, ref, a1[ref], descending, p);
      }
    }
  }

  lemma Leave(b: Book, a: Orders, ref: u64, shares: u32)
    requires BookValid(b) && LevelsRefine(b, a) && ref in a && OrderPositive(a[ref]) && shares <= a[ref].remaining
    ensures LevelsRefine(RemoveShares(b, a[ref].side, a[ref].price, shares), Reduced(a, ref, shares))
  {
    LeaveSide(b.bids.levels, a, ref, shares, true);
    LeaveSide(b.asks.levels, a, ref, shares, false);
  }

  // ---- the cached best ----

  /** The head of a refined side is its best live price, or 0 when nothing rests there. */
  lemma TopIsBest(l: seq<PriceLevel>, a: Orders, descending: bool)
    requires LevelsOk(l, a, descending) && OrdersPositive(a)
    ensures l == [] <==> LivePrices(a, descending) == {}
    ensures Top(l) == 0 <==> l == []
    ensures l != [] ==>
              && Top(l) in LivePrices(a, descending)
              && forall p :: p in LivePrices(a, descending) ==> p == Top(l) || Better(Top(l), p, descending)
  {
    LevelsCount(l, a, descending);
    forall p: u32
      ensures p in LivePrices(a, descending) <==> LevelAt(l, p, descending).Some?
    {
      LiveIffShares(a, descending, p);
      assert LevelAt(l, p, descending) == Resting(a, descending, p);
    }
    if l != [] {
      LevelAtIndex(l, 0, descending);
      var k :| k in a && a[k].price == l[0].price;
      assert OrderPositive(a[k]);
      forall p | p in LivePrices(a, descending)
        ensures p == Top(l) || Better(Top(l), p, descending)
      {
        var r := Rank(l, p, descending);
        assert l[r].price == p;
      }
    }
  }

  lemma TopAfterAdd(l: seq<PriceLevel>, price: u32, shares: u32, descending: bool)
    requires Sorted(l, descending) && price > 0 && (forall i :: 0 <= i < |l| ==> l[i].price > 0)
    requires HasLevel(l, price, descending) || |l| < MAX_LEVELS
    ensures Top(AddLevel(l, price, shares, descending)) == Improved(Top(l), price, descending)
  {
    var r := Rank(l, price, descending);
    if l != [] && r > 0 { assert Better(l[0].price, price, descending); }
  }

  lemma TopAfterRemove(l: seq<PriceLevel>, price: u32, shares: u32, descending: bool)
    requires Sorted(l, descending)
    requires price != Top(l) || LevelAt(RemoveLevel(l, price, shares, descending), price, descending).Some?
    ensures Top(RemoveLevel(l, price, shares, descending)) == Top(l)
  {
    var r := Rank(l, price, descending);
    var l1 := RemoveLevel(l, price, shares, descending);
    if |l1| < |l| {
      RemoveLevelMap(l, price, shares, descending, price);
      assert price != Top(l);
      assert r > 0;
    }
  }

  lemma PositivePrices(l: seq<PriceLevel>, a: Orders, descending: bool)
    requires LevelsOk(l, a, descending) && OrdersPositive(a)
    ensures forall i :: 0 <= i < |l| ==> l[i].price > 0
  {
    forall i | 0 <= i < |l|
      ensures l[i].price > 0
    {
      LevelAtIndex(l, i, descending);
      assert LevelAt(l, l[i].price, descending) == Resting(a, descending, l[i].price);
      LiveIffShares(a, descending, l[i].price);
      var k :| k in a && a[k].price == l[i].price;
      assert OrderPositive(a[k]);
    }
  }

  // ---- one message ----

  // The table's part of each handler.

  /** The lookup a handler starts with gives the live order of that reference. */
  ghost predicate Finds(h: Hash, t: Table, a: Orders, ref: u64)
    requires Counted(t)
  {
    match Locate(h, t.slots, ref)
    case None => ref !in a
    case Some(i) => ref in a && a[ref] == ToOrder(t.slots[i])
  }

  lemma TableFinds(h: Hash, t: Table, a: Orders, ref: u64)
    requires TableRefines(h, t, a)
    ensures Finds(h, t, a, ref)
  {
    LocateView(h, t.slots, ref);
  }

  lemma ReducedTable(h: Hash, t: Table, key: u64, i: nat, remaining: u32)
    requires TableOk(h, t) && Locate(h, t.slots, key) == Some(i)
    ensures var t1 := WithRemaining(t, i, remaining);
            && TableOk(h, t1)
            && key in View(t.slots)
            && View(t1.slots) == View(t.slots)[key := View(t.slots)[key].(remaining := remaining)]
  {
    var o := t.slots[i].(remaining := remaining);
    LocateView(h, t.slots, key);
    WithRemainingCounted(t, i, remaining);
    RewriteKeepsPath(h, t.slots, i, o);
    FillView(t.slots, i, o);
  }

  lemma ErasedFromUpdate(h: Hash, t: Table, a: Orders, key: u64, o: Order)
    requires TableOk(h, t) && key in a && View(t.slots) == a[key := o]
    ensures TableRefines(h, Erased(h, t, key), a - {key})
  {
    ErasedRefines(h, t, key);
    assert a[key := o] - {key} == a - {key};
  }

  lemma ExecuteTable(h: Hash, t: Table, a: Orders, key: u64, i: nat, exec: u32)
    requires TableRefines(h, t, a) && Locate(h, t.slots, key) == Some(i)
    requires key in a && a[key].remaining == t.slots[i].remaining && exec <= a[key].remaining
    ensures TableRefines(h, TableAfterExecute(h, t, key, i, exec), Reduced(a, key, exec))
  {
    var left := a[key].remaining - exec;
    var t1 := WithRemaining(t, i, left);
    ReducedTable(h, t, key, i, left);
    if left == 0 {
      ErasedFromUpdate(h, t1, a, key, a[key].(remaining := left));
      assert TableAfterExecute(h, t, key, i, exec) == Erased(h, t1, key);
    } else {
      assert TableAfterExecute(h, t, key, i, exec) == t1;
    }
  }

  lemma StepTable(h: Hash, b: Book, a: Orders, m: Message)
    requires BookValid(b) && TableRefines(h, b.live, a) && Fresh(a, m)
    ensures TableRefines(h, Step(h, b, m).live, AbsStep(a, m))
  {
    TableFinds(h, b.live, a, m.ref);
    match m.kind {
      case Add =>
        InsertedRefines(h, b.live, m.ref, LiveOrder(m.ref, m.price, m.shares, m.side, true));
      case Execute =>
        if m.ref in a {
          var i := Locate(h, b.live.slots, m.ref).value;
          ExecuteTable(h, b.live, a, m.ref, i, Min(m.shares, a[m.ref].remaining));
        }
      case Delete =>
        ErasedRefines(h, b.live, m.ref);
      case Replace =>
        if m.ref in a {
          ErasedRefines(h, b.live, m.ref);
          InsertedRefines(h, Erased(h, b.live, m.ref), m.newRef,
                          LiveOrder(m.newRef, m.price, m.shares, a[m.ref].side, true));
        }
    }
  }

  // The arrays' and the cache's part of each handler.

  /** An addition that keeps the levels in step also keeps the cached best in step. */
  lemma BestAfterAdd(b: Book, a: Orders, m: Message)
    requires BookValid(b) && LevelsRefine(b, a) && OrdersPositive(a) && m.kind.Add? && FieldsPositive(m)
    requires LevelsRefine(AddShares(b, m.side, m.price, m.shares), AbsStep(a, m)) && OrdersPositive(AbsStep(a, m))
    ensures var b1 := AddShares(b, m.side, m.price, m.shares);
            if m.side == 'B' then Top(b1.bids.levels) == Improved(Top(b.bids.levels), m.price, true)
            else Top(b1.asks.levels) == Improved(Top(b.asks.levels), m.price, false)
  {
    var d := m.side == 'B';
    var l := if d then b.bids.levels else b.asks.levels;
    var a1 := AbsStep(a, m);
    SharesWith(a, m.ref, a1[m.ref], d, m.price);
    AddLevelMap(l, m.price, m.shares, d, m.price);
    assert LevelAt(AddLevel(l, m.price, m.shares, d), m.price, d) == Resting(a1, d, m.price);
    PositivePrices(l, a, d);
    TopAfterAdd(l, m.price, m.shares, d);
  }

  /** With no refresh, the first ask is still the best one if and only if the order that departs is covered. */
  lemma TopAfterDeparture(l: seq<PriceLevel>, l1: seq<PriceLevel>, a: Orders, ref: u64)
    requires LevelsOk(l, a, false) && LevelsOk(l1, a - {ref}, false) && OrdersPositive(a)
    requires ref in a && !KnownSide(a[ref].side)
    ensures Top(l1) == Top(l) <==> Covered(a, ref)
    ensures Covered(a, ref) <==> a[ref].price != Top(l) || SharesAt(a - {ref}, false, a[ref].price) > 0
  {
    var a1, p := a - {ref}, a[ref].price;
    TopIsBest(l, a, false);
    TopIsBest(l1, a1, false);
    LiveIffShares(a1, false, p);
    LivePricesWith(a1, ref, a[ref], false);
    assert a1[ref := a[ref]] == a;
    if Covered(a, ref) {
      var k :| k in a && k != ref && OnSide(a[k], false) && a[k].price <= p;
      assert a1[k] == a[k];
      assert a[k].price in LivePrices(a1, false);
    } else {
      forall q | q in LivePrices(a1, false)
        ensures q > p
      {
        var k :| k in a1 && OnSide(a1[k], false) && a1[k].price == q;
        assert a[k] == a1[k];
      }
    }
  }

  /** Taking shares off an order keeps levels and both cached bests in step, except that an order of a side
      other than 'B' or 'S' must be covered when it departs, for its side is never refreshed. */
  lemma BboAfterLeave(b: Book, a: Orders, ref: u64, shares: u32)
    requires BookValid(b) && SidesRefine(b, a) && OrdersPositive(a) && ref in a && shares <= a[ref].remaining
    ensures var o := a[ref];
            var b1 := RemoveShares(b, o.side, o.price, shares);
            var b2 := if shares == o.remaining then RecalculateBbo(b1, o.side, o.price) else b1;
            && LevelsRefine(b2, Reduced(a, ref, shares)) && OrdersPositive(Reduced(a, ref, shares))
            && (BestsRefine(b2) <==> (shares == o.remaining ==> Covered(a, ref)))
  {
    var o, a1 := a[ref], Reduced(a, ref, shares);
    assert OrderPositive(o);
    Leave(b, a, ref, shares);
    var d := o.side == 'B';
    var l := if d then b.bids.levels else b.asks.levels;
    if shares < o.remaining {
      LiveIffShares(a1, d, o.price);
      assert a1[ref].price == o.price;
      assert o.price in LivePrices(a1, d);
      assert LevelAt(RemoveLevel(l, o.price, shares, d), o.price, d) == Resting(a1, d, o.price);
    } else if !KnownSide(o.side) {
      TopAfterDeparture(l, RemoveLevel(l, o.price, shares, d), a, ref);
    }
    if shares < o.remaining || o.price != Top(l) {
      TopAfterRemove(l, o.price, shares, d);
    }
  }

  /** When an order departs, levels and cached bests stay in step if and only if its side is 'B' or 'S', or it
      was not at the best ask, or another ask rests at its price. */
  lemma DepartureInStepIff(b: Book, a: Orders, ref: u64)
    requires BookValid(b) && SidesRefine(b, a) && OrdersPositive(a) && ref in a
    ensures var o := a[ref];
            var b2 := RecalculateBbo(RemoveShares(b, o.side, o.price, o.remaining), o.side, o.price);
            SidesRefine(b2, a - {ref}) <==>
            o.side == 'B' || o.side == 'S' || o.price != b.asks.best || SharesAt(a - {ref}, false, o.price) > 0
  {
    var o := a[ref];
    assert OrderPositive(o);
    BboAfterLeave(b, a, ref, o.remaining);
    if !KnownSide(o.side) {
      Leave(b, a, ref, o.remaining);
      TopAfterDeparture(b.asks.levels, RemoveLevel(b.asks.levels, o.price, o.remaining, false), a, ref);
    }
  }

  // Levels after each message.

  lemma AddLevels(h: Hash, b: Book, a: Orders, m: Message)
    requires BookValid(b) && LevelsRefine(b, a) && OrdersPositive(a) && m.kind.Add? && FieldsPositive(m)
    ensures LevelsRefine(Step(h, b, m), AbsStep(a, m)) <==> Fresh(a, m) && Fits(AbsStep(a, m))
  {
    var o, b1 := Order(m.side, m.price, m.shares), AddShares(b, m.side, m.price, m.shares);
    assert LevelsRefine(Step(h, b, m), AbsStep(a, m)) <==> LevelsRefine(b1, AbsStep(a, m));
    if Fresh(a, m) {
      JoinFresh(b, a, m.ref, o);
    } else {
      JoinStale(b, a, m.ref, o);
    }
  }

  lemma ReplaceLevels(h: Hash, b: Book, a: Orders, m: Message)
    requires BookValid(b) && LevelsRefine(b, a) && OrdersPositive(a) && m.kind.Replace? && FieldsPositive(m)
    requires Finds(h, b.live, a, m.ref) && m.ref in a
    ensures LevelsRefine(Step(h, b, m), AbsStep(a, m)) <==> Fresh(a, m) && Fits(AbsStep(a, m))
    ensures BestsRefine(Step(h, b, m))
  {
    var x := a[m.ref];
    var a1, o := a - {m.ref}, Order(x.side, m.price, m.shares);
    assert OrderPositive(x) && OrdersPositive(a1);
    Leave(b, a, m.ref, x.remaining);
    var b1 := RemoveShares(b, x.side, x.price, x.remaining);
    var b2 := AddShares(b1, o.side, o.price, o.remaining);
    assert Step(h, b, m).bids == Recalculated(b2.bids) && Step(h, b, m).asks == Recalculated(b2.asks);
    if Fresh(a, m) {
      JoinFresh(b1, a1, m.newRef, o);
    } else {
      JoinStale(b1, a1, m.newRef, o);
    }
  }

  /** What an execution or deletion does to both sides. */
  lemma ReducedSides(h: Hash, b: Book, a: Orders, m: Message)
    requires BookValid(b) && Finds(h, b.live, a, m.ref) && m.ref in a
    requires m.kind.Execute? || m.kind.Delete?
    ensures var x := a[m.ref];
            var shares := if m.kind.Execute? then Min(m.shares, x.remaining) else x.remaining;
            var b1 := RemoveShares(b, x.side, x.price, shares);
            var b2 := if shares == x.remaining then RecalculateBbo(b1, x.side, x.price) else b1;
            && Step(h, b, m).bids == b2.bids && Step(h, b, m).asks == b2.asks
            && AbsStep(a, m) == Reduced(a, m.ref, shares)
            && (Departs(a, m) <==> shares == x.remaining)
  {
  }

  lemma LeaveLevels(h: Hash, b: Book, a: Orders, m: Message)
    requires BookValid(b) && LevelsRefine(b, a) && OrdersPositive(a) && Finds(h, b.live, a, m.ref)
    requires m.kind.Execute? || m.kind.Delete?
    ensures LevelsRefine(Step(h, b, m), AbsStep(a, m)) && OrdersPositive(AbsStep(a, m))
  {
    if m.ref in a {
      var x := a[m.ref];
      var shares := if m.kind.Execute? then Min(m.shares, x.remaining) else x.remaining;
      assert OrderPositive(x);
      Leave(b, a, m.ref, shares);
      ReducedSides(h, b, a, m);
    } else {
      assert a - {m.ref} == a;
    }
  }

  lemma SidesFit(b: Book, a: Orders)
    requires LevelsRefine(b, a) && OrdersPositive(a)
    ensures Fits(a)
  {
    LevelsCount(b.bids.levels, a, true);
    LevelsCount(b.asks.levels, a, false);
  }

  lemma StepLevels(h: Hash, b: Book, a: Orders, m: Message)
    requires BookValid(b) && LevelsRefine(b, a) && OrdersPositive(a) && FieldsPositive(m)
    requires Finds(h, b.live, a, m.ref)
    ensures LevelsRefine(Step(h, b, m), AbsStep(a, m)) <==> Fresh(a, m) && Fits(AbsStep(a, m))
  {
    if m.kind.Add? {
      AddLevels(h, b, a, m);
    } else if m.kind.Replace? {
      if m.ref in a {
        ReplaceLevels(h, b, a, m);
      } else {
        SidesFit(b, a);
      }
    } else {
      LeaveLevels(h, b, a, m);
      SidesFit(Step(h, b, m), AbsStep(a, m));
    }
  }

  // Cached best prices after each message.

  lemma StepBests(h: Hash, b: Book, a: Orders, m: Message)
    requires BookValid(b) && SidesRefine(b, a) && OrdersPositive(a) && FieldsPositive(m)
    requires Finds(h, b.live, a, m.ref)
    requires LevelsRefine(Step(h, b, m), AbsStep(a, m)) && OrdersPositive(AbsStep(a, m))
    ensures BestsRefine(Step(h, b, m)) <==> Covers(a, m)
  {
    if m.kind.Add? {
      AddBests(h, b, a, m);
    } else if m.ref !in a {
    } else if m.kind.Replace? {
      ReplaceLevels(h, b, a, m);
    } else {
      var x := a[m.ref];
      BboAfterLeave(b, a, m.ref, if m.kind.Execute? then Min(m.shares, x.remaining) else x.remaining);
      ReducedSides(h, b, a, m);
    }
  }

  lemma AddBests(h: Hash, b: Book, a: Orders, m: Message)
    requires BookValid(b) && SidesRefine(b, a) && OrdersPositive(a) && m.kind.Add? && FieldsPositive(m)
    requires LevelsRefine(Step(h, b, m), AbsStep(a, m)) && OrdersPositive(AbsStep(a, m))
    ensures BestsRefine(Step(h, b, m))
  {
    var b1 := AddShares(b, m.side, m.price, m.shares);
    assert LevelsRefine(b1, AbsStep(a, m));
    BestAfterAdd(b, a, m);
  }

  /** One message keeps table and arrays in step with the live orders if and only if its
      reference is fresh and the live orders it leaves fit the arrays. */
  lemma StepStored(h: Hash, b: Book, a: Orders, m: Message)
    requires Stored(h, b, a) && FieldsPositive(m)
    ensures BookValid(b)
    ensures Stored(h, Step(h, b, m), AbsStep(a, m)) <==> Fresh(a, m) && Fits(AbsStep(a, m))
  {
    TableFinds(h, b.live, a, m.ref);
    StepLevels(h, b, a, m);
    StepKeepsOrdersPositive(a, m);
    if Fresh(a, m) {
      StepTable(h, b, a, m);
    }
  }

  /** One message keeps table, arrays and cached bests in step with the live orders if and only if its reference
      is fresh, the live orders it leaves fit the arrays, and no order departs uncovered. */
  lemma StepRefines(h: Hash, b: Book, a: Orders, m: Message)
    requires Refines(h, b, a) && FieldsPositive(m)
    ensures BookValid(b)
    ensures Refines(h, Step(h, b, m), AbsStep(a, m)) <==> Fresh(a, m) && Fits(AbsStep(a, m)) && Covers(a, m)
  {
    StepStored(h, b, a, m);
    TableFinds(h, b.live, a, m.ref);
    if Stored(h, Step(h, b, m), AbsStep(a, m)) {
      StepBests(h, b, a, m);
    }
  }

  // ---- whole runs ----

  /** Prices and share counts are positive, and references are fresh when they arrive. */
  ghost predicate FeedFresh(ms: seq<Message>) {
    forall i :: 0 <= i < |ms| ==> FieldsPositive(ms[i]) && Fresh(AbsRun(map[], ms[..i]), ms[i])
  }

  /** The same, and every side is 'B' or 'S'. */
  ghost predicate FeedOk(ms: seq<Message>) {
    forall i :: 0 <= i < |ms| ==> FieldsOk(ms[i]) && Fresh(AbsRun(map[], ms[..i]), ms[i])
  }

  /** The live orders fit after every message. */
  ghost predicate AlwaysFits(ms: seq<Message>) {
    forall i :: 0 <= i <= |ms| ==> Fits(AbsRun(map[], ms[..i]))
  }

  /** No order departs uncovered. */
  ghost predicate AlwaysCovers(ms: seq<Message>) {
    forall i :: 0 <= i < |ms| ==> Covers(AbsRun(map[], ms[..i]), ms[i])
  }

  lemma {:induction false} RunOrdersOk(ms: seq<Message>)
    requires FeedOk(ms)
    ensures OrdersOk(AbsRun(map[], ms))
  {
    if ms != [] {
      var k := |ms| - 1;
      assert forall i :: 0 <= i < k ==> ms[..k][..i] == ms[..i];
      RunOrdersOk(ms[..k]);
      StepKeepsOrdersOk(AbsRun(map[], ms[..k]), ms[k]);
    }
  }

  /** A feed of sides 'B' and 'S' covers every departure. */
  lemma {:induction false} KnownSidesCover(ms: seq<Message>)
    requires FeedOk(ms)
    ensures FeedFresh(ms) && AlwaysCovers(ms)
  {
    forall i | 0 <= i < |ms|
      ensures Covers(AbsRun(map[], ms[..i]), ms[i])
    {
      assert forall k :: 0 <= k < i ==> ms[..i][..k] == ms[..k];
      RunOrdersOk(ms[..i]);
    }
  }

  lemma EmptyRefines(h: Hash, capacity: nat)
    requires capacity > 0
    ensures BookValid(EmptyBook(capacity)) && Refines(h, EmptyBook(capacity), map[])
  {
    EmptyTableOk(h, capacity);
  }

  lemma {:induction false} PrefixFits(ms: seq<Message>)
    requires ms != [] && FeedFresh(ms) && AlwaysFits(ms)
    ensures var before := ms[..|ms| - 1];
            && FeedFresh(before) && AlwaysFits(before)
            && FieldsPositive(ms[|ms| - 1]) && Fresh(AbsRun(map[], before), ms[|ms| - 1])
            && Fits(AbsStep(AbsRun(map[], before), ms[|ms| - 1]))
  {
    var k := |ms| - 1;
    assert forall i :: 0 <= i <= k ==> ms[..k][..i] == ms[..i];
    assert ms[..|ms|] == ms;
  }

  lemma {:induction false} PrefixCovers(ms: seq<Message>)
    requires ms != [] && AlwaysCovers(ms)
    ensures AlwaysCovers(ms[..|ms| - 1]) && Covers(AbsRun(map[], ms[..|ms| - 1]), ms[|ms| - 1])
  {
    var k := |ms| - 1;
    assert forall i :: 0 <= i <= k ==> ms[..k][..i] == ms[..i];
  }

  /** Over every feed whose live orders fit throughout, whatever the sides, table and arrays
      agree with the live orders. */
  lemma {:induction false} RunStored(h: Hash, capacity: nat, ms: seq<Message>)
    requires capacity > 0 && FeedFresh(ms) && AlwaysFits(ms)
    ensures BookValid(EmptyBook(capacity))
    ensures Stored(h, Run(h, EmptyBook(capacity), ms), AbsRun(map[], ms))
  {
    EmptyRefines(h, capacity);
    if ms != [] {
      var before := ms[..|ms| - 1];
      PrefixFits(ms);
      RunStored(h, capacity, before);
      StepStored(h, Run(h, EmptyBook(capacity), before), AbsRun(map[], before), ms[|ms| - 1]);
    }
  }

  /** Whole-book refinement: over every feed whose live orders fit throughout and in which no order
      departs uncovered, the book simulates the map of live orders. */
  lemma {:induction false} RunRefines(h: Hash, capacity: nat, ms: seq<Message>)
    requires capacity > 0 && FeedFresh(ms) && AlwaysFits(ms) && AlwaysCovers(ms)
    ensures BookValid(EmptyBook(capacity))
    ensures Refines(h, Run(h, EmptyBook(capacity), ms), AbsRun(map[], ms))
  {
    EmptyRefines(h, capacity);
    if ms != [] {
      var before := ms[..|ms| - 1];
      PrefixFits(ms);
      PrefixCovers(ms);
      RunRefines(h, capacity, before);
      StepRefines(h, Run(h, EmptyBook(capacity), before), AbsRun(map[], before), ms[|ms| - 1]);
    }
  }

  /** The book is in step with the live orders after `i` messages. */
  ghost predicate InStep(h: Hash, capacity: nat, ms: seq<Message>, i: nat)
    requires capacity > 0 && i <= |ms|
  {
    BookValid(EmptyBook(capacity)) && Refines(h, Run(h, EmptyBook(capacity), ms[..i]), AbsRun(map[], ms[..i]))
  }

  lemma {:induction false} InStepThroughout(h: Hash, capacity: nat, ms: seq<Message>, i: nat)
    requires capacity > 0 && FeedFresh(ms) && AlwaysFits(ms) && AlwaysCovers(ms) && i <= |ms|
    ensures InStep(h, capacity, ms, i)
  {
    assert forall k :: 0 <= k <= i ==> ms[..i][..k] == ms[..k];
    RunRefines(h, capacity, ms[..i]);
  }

  /** The hypotheses are exact: a stream of messages with positive prices and shares, of any sides, keeps the book
      in step with the live orders all along if and only if references are fresh, the live orders
      fit all along, and no order departs uncovered. */
  lemma {:induction false} AlwaysInStepIff(h: Hash, capacity: nat, ms: seq<Message>)
    requires capacity > 0 && forall i :: 0 <= i < |ms| ==> FieldsPositive(ms[i])
    ensures (forall i :: 0 <= i <= |ms| ==> InStep(h, capacity, ms, i)) <==>
            FeedFresh(ms) && AlwaysFits(ms) && AlwaysCovers(ms)
  {
    if FeedFresh(ms) && AlwaysFits(ms) && AlwaysCovers(ms) {
      forall i | 0 <= i <= |ms|
        ensures InStep(h, capacity, ms, i)
      {
        InStepThroughout(h, capacity, ms, i);
      }
    }
    if forall i :: 0 <= i <= |ms| ==> InStep(h, capacity, ms, i) {
      forall i | 0 <= i <= |ms|
        ensures Fits(AbsRun(map[], ms[..i]))
      {
        assert InStep(h, capacity, ms, i);
        SidesFit(Run(h, EmptyBook(capacity), ms[..i]), AbsRun(map[], ms[..i]));
      }
      forall i | 0 <= i < |ms|
        ensures Fresh(AbsRun(map[], ms[..i]), ms[i]) && Covers(AbsRun(map[], ms[..i]), ms[i])
      {
        LawfulIfInStep(h, capacity, ms, i);
      }
    }
  }

  lemma {:induction false} LawfulIfInStep(h: Hash, capacity: nat, ms: seq<Message>, i: nat)
    requires capacity > 0 && i < |ms| && FieldsPositive(ms[i])
    requires InStep(h, capacity, ms, i) && InStep(h, capacity, ms, i + 1)
    ensures Fresh(AbsRun(map[], ms[..i]), ms[i]) && Covers(AbsRun(map[], ms[..i]), ms[i])
  {
    assert ms[..i + 1][..i] == ms[..i];
    StepRefines(h, Run(h, EmptyBook(capacity), ms[..i]), AbsRun(map[], ms[..i]), ms[i]);
  }

  /** What a reader of the book sees after such a run: levels are the live prices with their
      resting shares, and each cached best is the best live price, or 0 when none rests. */
  lemma RunBbo(h: Hash, capacity: nat, ms: seq<Message>, descending: bool)
    requires capacity > 0 && FeedFresh(ms) && AlwaysFits(ms) && AlwaysCovers(ms)
    ensures BookValid(EmptyBook(capacity))
    ensures var a := AbsRun(map[], ms);
            var b := Run(h, EmptyBook(capacity), ms);
            var x := if descending then b.bids else b.asks;
            && (forall p: u32 :: LevelAt(x.levels, p, descending).Some? <==> p in LivePrices(a, descending))
            && (forall p: u32 :: p in LivePrices(a, descending) ==>
                  LevelAt(x.levels, p, descending) == Some(SharesAt(a, descending, p)))
            && (LivePrices(a, descending) == {} ==> x.best == 0)
            && (LivePrices(a, descending) != {} ==>
                  && x.best in LivePrices(a, descending)
                  && forall p :: p in LivePrices(a, descending) ==> p == x.best || Better(x.best, p, descending))
  {
    RunRefines(h, capacity, ms);
    var a, b := AbsRun(map[], ms), Run(h, EmptyBook(capacity), ms);
    var l := if descending then b.bids.levels else b.asks.levels;
    TopIsBest(l, a, descending);
    forall p: u32
      ensures LevelAt(l, p, descending) ==
              if p in LivePrices(a, descending) then Some(SharesAt(a, descending, p)) else None
    {
      LiveIffShares(a, descending, p);
      assert LevelAt(l, p, descending) == Resting(a, descending, p);
    }
  }
}
