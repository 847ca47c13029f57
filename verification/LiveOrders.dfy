/** The book as its messages describe it: a map from order reference to live order,
    with no table, no arrays and no cache. Message semantics follow Nasdaq
    TotalView-ITCH 5.0, sections 1.3 and 1.4. */
module LiveOrders {
  import opened Messages
  import opened PriceLevels

  type Orders = map<u64, Order>

  function Min(a: u32, b: u32): u32 {
    if a < b then a else b
  }

  function AbsStep(a: Orders, m: Message): Orders {
    match m.kind
    case Add => a[m.ref := Order(m.side, m.price, m.shares)]
    case Execute => if m.ref in a then Reduced(a, m.ref, Min(m.shares, a[m.ref].remaining)) else a
    case Delete => a - {m.ref}
    case Replace =>
      if m.ref in a then (a - {m.ref})[m.newRef := Order(a[m.ref].side, m.price, m.shares)] else a
  }

  /** `shares` taken off a live order, which leaves when nothing remains. */
  function Reduced(a: Orders, ref: u64, shares: u32): Orders
    requires ref in a && shares <= a[ref].remaining
  {
    if shares == a[ref].remaining then a - {ref}
    else a[ref := a[ref].(remaining := a[ref].remaining - shares)]
  }

  function AbsRun(a: Orders, ms: seq<Message>): Orders {
    if ms == [] then a else AbsStep(AbsRun(a, ms[..|ms| - 1]), ms[|ms| - 1])
  }

  /** What an added or replacing order brings has a positive price and a positive share count. */
  predicate FieldsPositive(m: Message) {
    m.kind.Add? || m.kind.Replace? ==> m.price > 0 && m.shares > 0
  }

  /** Field ranges of the feed: positive prices and share counts, and a side 'B' or 'S'. */
  predicate FieldsOk(m: Message) {
    FieldsPositive(m) && (m.kind.Add? ==> KnownSide(m.side))
  }

  predicate KnownSide(side: char) {
    side == 'B' || side == 'S'
  }

  /** The feed never reuses the reference of an order that is still live. */
  predicate Fresh(a: Orders, m: Message) {
    && (m.kind.Add? ==> m.ref !in a)
    && (m.kind.Replace? && m.ref in a ==> m.newRef !in a - {m.ref})
  }

  predicate OrderPositive(o: Order) {
    o.price > 0 && o.remaining > 0
  }

  predicate OrderOk(o: Order) {
    OrderPositive(o) && KnownSide(o.side)
  }

  ghost predicate OrdersPositive(a: Orders) {
    forall k :: k in a ==> OrderPositive(a[k])
  }

  ghost predicate OrdersOk(a: Orders) {
    forall k :: k in a ==> OrderOk(a[k])
  }

  lemma StepKeepsOrdersPositive(a: Orders, m: Message)
    requires OrdersPositive(a) && FieldsPositive(m)
    ensures OrdersPositive(AbsStep(a, m))
  {
  }

  lemma StepKeepsOrdersOk(a: Orders, m: Message)
    requires OrdersOk(a) && FieldsOk(m)
    ensures OrdersOk(AbsStep(a, m))
  {
  }

  /** The message takes the last share of a live order off the book without putting an order in its place. */
  predicate Departs(a: Orders, m: Message) {
    m.ref in a && (m.kind.Delete? || (m.kind.Execute? && m.shares >= a[m.ref].remaining))
  }

  /** No refresh of the cached best ask is missed when `ref` departs: its side is known, or
      another ask is at least as good. */
  ghost predicate Covered(a: Orders, ref: u64)
    requires ref in a
  {
    KnownSide(a[ref].side) ||
    exists k :: k in a && k != ref && OnSide(a[k], false) && a[k].price <= a[ref].price
  }

  ghost predicate Covers(a: Orders, m: Message) {
    Departs(a, m) ==> Covered(a, m.ref)
  }

  // ---- sums over live orders ----

  ghost function Pick(a: Orders): (k: u64)
    requires a != map[]
    ensures k in a
  {
    var k :| k in a; k
  }

  ghost function SumOf(a: Orders, w: Order -> nat): nat
    decreases |a|
  {
    if a == map[] then 0 else
    var k := Pick(a);
    assert |a - {k}| < |a| by { Smaller(a, k); }
    w(a[k]) + SumOf(a - {k}, w)
  }

  lemma Smaller(a: Orders, k: u64)
    requires k in a
    ensures |a - {k}| == |a| - 1
  {
    assert (a - {k})[k := a[k]] == a;
  }

  lemma {:induction false} SumWithout(a: Orders, w: Order -> nat, k: u64)
    requires k in a
    ensures SumOf(a, w) == w(a[k]) + SumOf(a - {k}, w)
    decreases |a|
  {
    var j := Pick(a);
    if j != k {
      Smaller(a, j);
      Smaller(a, k);
      SumWithout(a - {j}, w, k);
      SumWithout(a - {k}, w, j);
      assert a - {j} - {k} == a - {k} - {j};
    }
  }

  lemma SumWith(a: Orders, w: Order -> nat, k: u64, o: Order)
    ensures SumOf(a[k := o], w) == w(o) + SumOf(a - {k}, w)
  {
    SumWithout(a[k := o], w, k);
    assert a[k := o] - {k} == a - {k};
  }

  lemma {:induction false} SumPositive(a: Orders, w: Order -> nat)
    ensures SumOf(a, w) > 0 <==> exists k :: k in a && w(a[k]) > 0
    decreases |a|
  {
    if a != map[] {
      var k := Pick(a);
      Smaller(a, k);
      SumPositive(a - {k}, w);
      if j :| j in a && w(a[j]) > 0 {
        SumWithout(a, w, j);
      }
    }
  }

  /** Bids are the orders on side 'B'; every other side rests with the asks. */
  predicate OnSide(o: Order, descending: bool) {
    (o.side == 'B') == descending
  }

  ghost function AtPrice(descending: bool, p: u32): Order -> nat {
    (o: Order) => if OnSide(o, descending) && o.price == p then o.remaining as nat else 0
  }

  /** The resting shares of all live orders at one price. */
  ghost function SharesAt(a: Orders, descending: bool, p: u32): nat {
    SumOf(a, AtPrice(descending, p))
  }

  ghost function LivePrices(a: Orders, descending: bool): set<u32> {
    set k | k in a && OnSide(a[k], descending) :: a[k].price
  }

  lemma SharesWith(a: Orders, k: u64, o: Order, descending: bool, p: u32)
    ensures SharesAt(a[k := o], descending, p) ==
            SharesAt(a - {k}, descending, p) + if OnSide(o, descending) && o.price == p then o.remaining else 0
  {
    SumWith(a, AtPrice(descending, p), k, o);
  }

  lemma SharesWithout(a: Orders, k: u64, descending: bool, p: u32)
    requires k in a
    ensures SharesAt(a, descending, p) ==
            SharesAt(a - {k}, descending, p) +
            if OnSide(a[k], descending) && a[k].price == p then a[k].remaining else 0
  {
    SumWithout(a, AtPrice(descending, p), k);
  }

  lemma LiveIffShares(a: Orders, descending: bool, p: u32)
    requires OrdersPositive(a)
    ensures p in LivePrices(a, descending) <==> SharesAt(a, descending, p) > 0
  {
    SumPositive(a, AtPrice(descending, p));
    if k :| k in a && AtPrice(descending, p)(a[k]) > 0 {
      assert OnSide(a[k], descending) && a[k].price == p;
    }
    if p in LivePrices(a, descending) {
      var k :| k in a && OnSide(a[k], descending) && a[k].price == p;
      assert AtPrice(descending, p)(a[k]) > 0;
    }
  }

  /** What the arrays have room for: at most 256 prices a side, each holding under 2^32 shares. */
  ghost predicate Fits(a: Orders) {
    FitsSide(a, true) && FitsSide(a, false)
  }

  ghost predicate FitsSide(a: Orders, descending: bool) {
    && |LivePrices(a, descending)| <= 256
    && forall p: u32 :: SharesAt(a, descending, p) < 0x1_0000_0000
  }
}
