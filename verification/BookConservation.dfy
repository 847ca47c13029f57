/** No share is created or lost: what entered the book left it again or rests in the level arrays. */
module BookConservation {
  import opened Messages
  import opened OrderTable
  import opened PriceLevels
  import opened LiveOrders
  import opened BookModel
  import opened BookRefinement

  /** Shares a run moved, by the reason they moved. */
  datatype Ledger = Ledger(added: nat, replacedIn: nat, executed: nat, deleted: nat, replacedOut: nat)

  function Entered(g: Ledger): nat {
    g.added + g.replacedIn
  }

  function Left(g: Ledger): nat {
    g.executed + g.deleted + g.replacedOut
  }

  /** Books one message against the live orders it finds; an execution is capped at what remains. */
  function Booked(g: Ledger, a: Orders, m: Message): Ledger {
    match m.kind
    case Add => g.(added := g.added + m.shares)
    case Execute => if m.ref in a then g.(executed := g.executed + Min(m.shares, a[m.ref].remaining)) else g
    case Delete => if m.ref in a then g.(deleted := g.deleted + a[m.ref].remaining) else g
    case Replace =>
      if m.ref in a then
        g.(replacedIn := g.replacedIn + m.shares, replacedOut := g.replacedOut + a[m.ref].remaining)
      else g
  }

  function LedgerOf(ms: seq<Message>): Ledger {
    if ms == [] then Ledger(0, 0, 0, 0, 0)
    else Booked(LedgerOf(ms[..|ms| - 1]), AbsRun(map[], ms[..|ms| - 1]), ms[|ms| - 1])
  }

  // ---- the sum of the level totals ----

  function SumLevels(l: seq<PriceLevel>): nat {
    if l == [] then 0 else l[0].total + SumLevels(l[1..])
  }

  function BookShares(b: Book): nat {
    SumLevels(b.bids.levels) + SumLevels(b.asks.levels)
  }

  lemma {:induction false} SumConcat(l: seq<PriceLevel>, k: seq<PriceLevel>)
    ensures SumLevels(l + k) == SumLevels(l) + SumLevels(k)
  {
    if l == [] {
      assert l + k == k;
    } else {
      assert (l + k)[1..] == l[1..] + k;
      SumConcat(l[1..], k);
    }
  }

  lemma {:induction false} SumSplit(l: seq<PriceLevel>, r: nat)
    requires r < |l|
    ensures SumLevels(l) == SumLevels(l[..r]) + l[r].total + SumLevels(l[r + 1..])
  {
    assert l == l[..r] + l[r..];
    SumConcat(l[..r], l[r..]);
    assert l[r..][1..] == l[r + 1..];
  }

  lemma {:induction false} SumUpdate(l: seq<PriceLevel>, r: nat, x: PriceLevel)
    requires r < |l|
    ensures SumLevels(l[r := x]) == SumLevels(l) - l[r].total + x.total
  {
    SumSplit(l, r);
    SumSplit(l[r := x], r);
    assert l[r := x][..r] == l[..r] && l[r := x][r + 1..] == l[r + 1..];
  }

  lemma {:induction false} SumInsert(l: seq<PriceLevel>, r: nat, x: PriceLevel)
    requires r <= |l|
    ensures SumLevels(l[..r] + [x] + l[r..]) == SumLevels(l) + x.total
  {
    SumConcat(l[..r] + [x], l[r..]);
    SumConcat(l[..r], [x]);
    SumConcat(l[..r], l[r..]);
    assert l == l[..r] + l[r..];
  }

  lemma {:induction false} SumAdd(l: seq<PriceLevel>, price: u32, shares: u32, descending: bool)
    requires LevelAt(l, price, descending).Some? ==> LevelAt(l, price, descending).value + shares < U32
    requires LevelAt(l, price, descending).None? ==> |l| < MAX_LEVELS
    ensures SumLevels(AddLevel(l, price, shares, descending)) == SumLevels(l) + shares
  {
    var r := Rank(l, price, descending);
    if HasLevel(l, price, descending) {
      SumUpdate(l, r, PriceLevel(price, Plus32(l[r].total, shares)));
    } else {
      SumInsert(l, r, PriceLevel(price, shares));
    }
  }

  lemma {:induction false} SumRemove(l: seq<PriceLevel>, price: u32, shares: u32, descending: bool)
    requires LevelAt(l, price, descending).Some? && shares <= LevelAt(l, price, descending).value
    ensures SumLevels(RemoveLevel(l, price, shares, descending)) == SumLevels(l) - shares
  {
    var r := Rank(l, price, descending);
    if shares >= l[r].total {
      SumSplit(l, r);
      SumConcat(l[..r], l[r + 1..]);
    } else {
      SumUpdate(l, r, PriceLevel(price, l[r].total - shares));
    }
  }

  lemma BookJoin(b: Book, a: Orders, ref: u64, o: Order)
    requires BookValid(b) && LevelsRefine(b, a) && OrdersPositive(a)
    requires ref !in a && OrderPositive(o) && Fits(a[ref := o])
    ensures BookShares(AddShares(b, o.side, o.price, o.remaining)) == BookShares(b) + o.remaining
  {
    var d := o.side == 'B';
    var l := if d then b.bids.levels else b.asks.levels;
    assert a - {ref} == a;
    SharesWith(a, ref, o, d, o.price);
    assert LevelAt(l, o.price, d) == Resting(a, d, o.price);
    assert SharesAt(a[ref := o], d, o.price) < U32;
    if SharesAt(a, d, o.price) == 0 {
      RoomForPrice(l, a, ref, o, d);
    }
    SumAdd(l, o.price, o.remaining, d);
  }

  lemma BookLeave(b: Book, a: Orders, ref: u64, shares: u32)
    requires BookValid(b) && LevelsRefine(b, a) && ref in a && OrderPositive(a[ref]) && shares <= a[ref].remaining
    ensures BookShares(RemoveShares(b, a[ref].side, a[ref].price, shares)) == BookShares(b) - shares
  {
    var o := a[ref];
    var d := o.side == 'B';
    var l := if d then b.bids.levels else b.asks.levels;
    SharesWithout(a, ref, d, o.price);
    assert LevelAt(l, o.price, d) == Resting(a, d, o.price);
    SumRemove(l, o.price, shares, d);
  }

  /** What entered has left or rests; and what rests in the arrays is what the live orders still hold. */
  ghost predicate Balanced(g: Ledger, b: Book, a: Orders) {
    && Entered(g) == Left(g) + BookShares(b)
    && BookShares(b) == SumOf(a, Remaining())
  }

  ghost function Remaining(): Order -> nat {
    (o: Order) => o.remaining as nat
  }

  /** `shares` of a live order leave the arrays and the ledger books as many. */
  lemma ReduceConserves(h: Hash, b: Book, a: Orders, m: Message, g: Ledger)
    requires BookValid(b) && LevelsRefine(b, a) && OrdersPositive(a) && Finds(h, b.live, a, m.ref) && m.ref in a
    requires (m.kind.Execute? || m.kind.Delete?) && Entered(g) == Left(g) + BookShares(b)
    ensures var g1 := Booked(g, a, m); Entered(g1) == Left(g1) + BookShares(Step(h, b, m))
  {
    var x := a[m.ref];
    assert OrderPositive(x);
    BookLeave(b, a, m.ref, if m.kind.Execute? then Min(m.shares, x.remaining) else x.remaining);
    ReducedSides(h, b, a, m);
  }

  lemma ReplaceConserves(h: Hash, b: Book, a: Orders, m: Message, g: Ledger)
    requires BookValid(b) && LevelsRefine(b, a) && OrdersPositive(a) && Finds(h, b.live, a, m.ref) && m.ref in a
    requires m.kind.Replace? && FieldsPositive(m) && Fresh(a, m) && Fits(AbsStep(a, m))
    requires Entered(g) == Left(g) + BookShares(b)
    ensures var g1 := Booked(g, a, m); Entered(g1) == Left(g1) + BookShares(Step(h, b, m))
  {
    var x := a[m.ref];
    assert OrderPositive(x);
    BookLeave(b, a, m.ref, x.remaining);
    Leave(b, a, m.ref, x.remaining);
    var b1 := RemoveShares(b, x.side, x.price, x.remaining);
    BookJoin(b1, a - {m.ref}, m.newRef, Order(x.side, m.price, m.shares));
    var b2 := AddShares(b1, x.side, m.price, m.shares);
    assert Step(h, b, m).bids == Recalculated(b2.bids) && Step(h, b, m).asks == Recalculated(b2.asks);
  }

  lemma StepConserves(h: Hash, b: Book, a: Orders, m: Message, g: Ledger)
    requires BookValid(b) && LevelsRefine(b, a) && OrdersPositive(a) && Finds(h, b.live, a, m.ref)
    requires FieldsPositive(m) && Fresh(a, m) && Fits(AbsStep(a, m))
    requires Entered(g) == Left(g) + BookShares(b)
    ensures var g1 := Booked(g, a, m); Entered(g1) == Left(g1) + BookShares(Step(h, b, m))
  {
    if m.kind.Add? {
      BookJoin(b, a, m.ref, Order(m.side, m.price, m.shares));
    } else if m.ref in a {
      if m.kind.Replace? {
        ReplaceConserves(h, b, a, m, g);
      } else {
        ReduceConserves(h, b, a, m, g);
      }
    }
  }

  lemma StepConservesOrders(a: Orders, m: Message, g: Ledger)
    requires Fresh(a, m) && Entered(g) == Left(g) + SumOf(a, Remaining())
    ensures var g1 := Booked(g, a, m); Entered(g1) == Left(g1) + SumOf(AbsStep(a, m), Remaining())
  {
    var w := Remaining();
    if m.kind.Add? {
      assert a - {m.ref} == a;
      SumWith(a, w, m.ref, Order(m.side, m.price, m.shares));
    } else if m.ref in a {
      SumWithout(a, w, m.ref);
      var a1 := a - {m.ref};
      if m.kind.Replace? {
        assert a1 - {m.newRef} == a1;
        SumWith(a1, w, m.newRef, Order(a[m.ref].side, m.price, m.shares));
      } else if m.kind.Execute? && m.shares < a[m.ref].remaining {
        SumWith(a, w, m.ref, a[m.ref].(remaining := a[m.ref].remaining - m.shares));
      }
    } else {
      assert a - {m.ref} == a;
    }
  }

  lemma StepBalanced(h: Hash, b: Book, a: Orders, m: Message, g: Ledger)
    requires BookValid(b) && Stored(h, b, a) && FieldsPositive(m) && Fresh(a, m) && Fits(AbsStep(a, m))
    requires Balanced(g, b, a)
    ensures Balanced(Booked(g, a, m), Step(h, b, m), AbsStep(a, m))
  {
    TableFinds(h, b.live, a, m.ref);
    StepConserves(h, b, a, m, g);
    StepConservesOrders(a, m, g);
  }

  /** Share conservation: over every run the arrays have room for, the shares that entered are the shares
      executed, deleted or replaced out plus the sum of all level totals, and those
      totals are the remaining shares of the live orders. */
  lemma {:induction false} RunConserves(h: Hash, capacity: nat, ms: seq<Message>)
    requires capacity > 0 && FeedFresh(ms) && AlwaysFits(ms)
    ensures BookValid(EmptyBook(capacity))
    ensures Balanced(LedgerOf(ms), Run(h, EmptyBook(capacity), ms), AbsRun(map[], ms))
  {
    EmptyRefines(h, capacity);
    if ms != [] {
      var before := ms[..|ms| - 1];
      PrefixFits(ms);
      RunConserves(h, capacity, before);
      RunStored(h, capacity, before);
      StepBalanced(h, Run(h, EmptyBook(capacity), before), AbsRun(map[], before), ms[|ms| - 1], LedgerOf(before));
    }
  }
}
