/** What each handler of OrderBook does to the whole book, as a function on values.
    It is total: it also says what happens to stale references, price zero, unknown
    sides, full arrays and 32-bit overflow. */
module BookModel {
  import opened Messages
  import opened OrderTable
  import opened PriceLevels
  import opened LiveOrders

  /** One side's levels with its cached best price; 0 stands for "none". */
  datatype Half = Half(levels: seq<PriceLevel>, best: u32)

  datatype Book = Book(live: Table, bids: Half, asks: Half)

  ghost predicate HalfValid(x: Half, descending: bool) {
    Sorted(x.levels, descending) && |x.levels| <= MAX_LEVELS
  }

  ghost predicate BookValid(b: Book) {
    Counted(b.live) && HalfValid(b.bids, true) && HalfValid(b.asks, false)
  }

  function EmptyBook(capacity: nat): Book
    requires capacity > 0
  {
    Book(EmptyTable(capacity), Half([], 0), Half([], 0))
  }

  function Top(l: seq<PriceLevel>): u32 {
    if l == [] then 0 else l[0].price
  }

  function Improved(best: u32, price: u32, descending: bool): u32 {
    if descending then if price > best then price else best
    else if best == 0 || price < best then price else best
  }

  function AddShares(b: Book, side: char, price: u32, shares: u32): (r: Book)
    requires BookValid(b)
    ensures BookValid(r)
  {
    AddKeepsSorted(b.bids.levels, price, shares, true);
    AddKeepsSorted(b.asks.levels, price, shares, false);
    if side == 'B' then b.(bids := b.bids.(levels := AddLevel(b.bids.levels, price, shares, true)))
    else b.(asks := b.asks.(levels := AddLevel(b.asks.levels, price, shares, false)))
  }

  function RemoveShares(b: Book, side: char, price: u32, shares: u32): (r: Book)
    requires BookValid(b)
    ensures BookValid(r)
  {
    RemoveKeepsSorted(b.bids.levels, price, shares, true);
    RemoveKeepsSorted(b.asks.levels, price, shares, false);
    if side == 'B' then b.(bids := b.bids.(levels := RemoveLevel(b.bids.levels, price, shares, true)))
    else b.(asks := b.asks.(levels := RemoveLevel(b.asks.levels, price, shares, false)))
  }

  function ImproveBbo(b: Book, side: char, price: u32): Book {
    if side == 'B' then b.(bids := b.bids.(best := Improved(b.bids.best, price, true)))
    else b.(asks := b.asks.(best := Improved(b.asks.best, price, false)))
  }

  function Recalculated(x: Half): Half {
    x.(best := Top(x.levels))
  }

  /** Only the side whose best price was just vacated is refreshed; a side other than 'B' or 'S' never is. */
  function RecalculateBbo(b: Book, side: char, removed: u32): Book {
    if side == 'B' && removed == b.bids.best then b.(bids := Recalculated(b.bids))
    else if side == 'S' && removed == b.asks.best then b.(asks := Recalculated(b.asks))
    else b
  }

  function RecalculateBboFull(b: Book): Book {
    b.(bids := Recalculated(b.bids), asks := Recalculated(b.asks))
  }

  function HandleAdd(h: Hash, b: Book, m: Message): (r: Book)
    requires BookValid(b)
    ensures BookValid(r)
  {
    var b1 := b.(live := Inserted(h, b.live, m.ref, LiveOrder(m.ref, m.price, m.shares, m.side, true)));
    ImproveBbo(AddShares(b1, m.side, m.price, m.shares), m.side, m.price)
  }

  /** `lo->remaining_shares` written into the slot that `find` returned. */
  function WithRemaining(t: Table, i: nat, shares: u32): Table
    requires i < |t.slots|
  {
    t.(slots := t.slots[i := t.slots[i].(remaining := shares)])
  }

  lemma WithRemainingCounted(t: Table, i: nat, shares: u32)
    requires Counted(t) && i < |t.slots|
    ensures Counted(WithRemaining(t, i, shares))
  {
    CountUpdate(t.slots, i, t.slots[i].(remaining := shares));
  }

  /** The table after `exec` shares are taken from slot `i`: the order leaves when none remain. */
  function TableAfterExecute(h: Hash, t: Table, ref: u64, i: nat, exec: u32): (r: Table)
    requires Counted(t) && i < |t.slots| && exec <= t.slots[i].remaining
    ensures Counted(r)
  {
    var left := t.slots[i].remaining - exec;
    WithRemainingCounted(t, i, left);
    if left == 0 then Erased(h, WithRemaining(t, i, left), ref) else WithRemaining(t, i, left)
  }

  function HandleExecute(h: Hash, b: Book, m: Message): (r: Book)
    requires BookValid(b)
    ensures BookValid(r)
  {
    match Locate(h, b.live.slots, m.ref)
    case None => b
    case Some(i) =>
      var lo := b.live.slots[i];
      var exec := Min(m.shares, lo.remaining);
      var b1 := RemoveShares(b, lo.side, lo.price, exec).(live := TableAfterExecute(h, b.live, m.ref, i, exec));
      if lo.remaining == exec then RecalculateBbo(b1, lo.side, lo.price) else b1
  }

  function HandleDelete(h: Hash, b: Book, m: Message): (r: Book)
    requires BookValid(b)
    ensures BookValid(r)
  {
    match Locate(h, b.live.slots, m.ref)
    case None => b
    case Some(i) =>
      var lo := b.live.slots[i];
      var b1 := RemoveShares(b.(live := Erased(h, b.live, m.ref)), lo.side, lo.price, lo.remaining);
      RecalculateBbo(b1, lo.side, lo.price)
  }

  function HandleReplace(h: Hash, b: Book, m: Message): (r: Book)
    requires BookValid(b)
    ensures BookValid(r)
  {
    match Locate(h, b.live.slots, m.ref)
    case None => b
    case Some(i) =>
      var lo := b.live.slots[i];
      var b1 := RemoveShares(b, lo.side, lo.price, lo.remaining);
      var live := Inserted(h, Erased(h, b.live, m.ref), m.newRef,
                           LiveOrder(m.newRef, m.price, m.shares, lo.side, true));
      RecalculateBboFull(AddShares(b1.(live := live), lo.side, m.price, m.shares))
  }

  /** Whatever the message, the arrays stay strictly sorted and within bounds and the table stays counted. */
  function Step(h: Hash, b: Book, m: Message): (r: Book)
    requires BookValid(b)
    ensures BookValid(r)
  {
    match m.kind
    case Add => HandleAdd(h, b, m)
    case Execute => HandleExecute(h, b, m)
    case Delete => HandleDelete(h, b, m)
    case Replace => HandleReplace(h, b, m)
  }

  /** `OrderBook::apply` folded over a message sequence. */
  function Run(h: Hash, b: Book, ms: seq<Message>): (r: Book)
    requires BookValid(b)
    ensures BookValid(r)
  {
    if ms == [] then b else Step(h, Run(h, b, ms[..|ms| - 1]), ms[|ms| - 1])
  }
}
