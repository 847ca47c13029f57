/** OrderBook as the source writes it: two level arrays, two counts, two cached
    prices and the order table, all changed in place. Every handler is proved to
    compute its function of module BookModel, on every message. */
module OrderBooks {
  import opened Messages
  import opened OrderTable
  import opened FlatOrderMaps
  import opened PriceLevels
  import opened LiveOrders
  import Model = BookModel

  class OrderBook {
    const bidLevels: array<PriceLevel>
    const askLevels: array<PriceLevel>
    const liveOrders: FlatOrderMap
    var bidLevelCount: nat
    var askLevelCount: nat
    var bestBid: u32
    var bestAsk: u32

    ghost function Repr(): set<object>
      reads liveOrders
    {
      {this, bidLevels, askLevels, liveOrders, liveOrders.slots}
    }

    ghost predicate Shape()
      reads this, liveOrders
    {
      && bidLevels.Length == askLevels.Length == MAX_LEVELS && bidLevels != askLevels
      && bidLevelCount <= MAX_LEVELS && askLevelCount <= MAX_LEVELS
    }

    ghost function Value(): Model.Book
      requires Shape()
      reads this, bidLevels, askLevels, liveOrders, liveOrders.slots
    {
      Model.Book(liveOrders.Value(),
                 Model.Half(bidLevels[..bidLevelCount], bestBid),
                 Model.Half(askLevels[..askLevelCount], bestAsk))
    }

    ghost predicate Valid()
      reads this, bidLevels, askLevels, liveOrders, liveOrders.slots
    {
      Shape() && liveOrders.Valid() && Model.BookValid(Value())
    }

    constructor (hash: Hash)
      ensures Valid() && fresh(Repr()) && liveOrders.hash == hash
      ensures Value() == Model.EmptyBook(DEFAULT_CAPACITY)
    {
      bidLevels := new PriceLevel[MAX_LEVELS](_ => PriceLevel(0, 0));
      askLevels := new PriceLevel[MAX_LEVELS](_ => PriceLevel(0, 0));
      liveOrders := new FlatOrderMap(hash);
      bidLevelCount, askLevelCount, bestBid, bestAsk := 0, 0, 0, 0;
    }

    method AddShares(side: char, price: u32, shares: u32)
      requires Valid()
      modifies this`bidLevelCount, this`askLevelCount, bidLevels, askLevels
      ensures Valid()
      ensures Value() == Model.AddShares(old(Value()), side, price, shares)
    {
      ghost var b := Model.AddShares(Value(), side, price, shares);
      if side == 'B' {
        bidLevelCount := AddToLevels(bidLevels, bidLevelCount, price, shares, true);
      } else {
        askLevelCount := AddToLevels(askLevels, askLevelCount, price, shares, false);
      }
      assert Value() == b;
    }

    method RemoveShares(side: char, price: u32, shares: u32)
      requires Valid()
      modifies this`bidLevelCount, this`askLevelCount, bidLevels, askLevels
      ensures Valid()
      ensures Value() == Model.RemoveShares(old(Value()), side, price, shares)
    {
      ghost var b := Model.RemoveShares(Value(), side, price, shares);
      if side == 'B' {
        bidLevelCount := RemoveFromLevels(bidLevels, bidLevelCount, price, shares, true);
      } else {
        askLevelCount := RemoveFromLevels(askLevels, askLevelCount, price, shares, false);
      }
      assert Value() == b;
    }

    method RecalculateBestBid()
      requires Valid()
      modifies this`bestBid
      ensures Valid() && Value() == old(Value()).(bids := Model.Recalculated(old(Value()).bids))
    {
      bestBid := if bidLevelCount > 0 then bidLevels[0].price else 0;
    }

    method RecalculateBestAsk()
      requires Valid()
      modifies this`bestAsk
      ensures Valid() && Value() == old(Value()).(asks := Model.Recalculated(old(Value()).asks))
    {
      bestAsk := if askLevelCount > 0 then askLevels[0].price else 0;
    }

    method RecalculateBbo(side: char, removed: u32)
      requires Valid()
      modifies this`bestBid, this`bestAsk
      ensures Valid() && Value() == Model.RecalculateBbo(old(Value()), side, removed)
    {
      if side == 'B' && removed == bestBid {
        RecalculateBestBid();
      } else if side == 'S' && removed == bestAsk {
        RecalculateBestAsk();
      }
    }

    method HandleAdd(m: Message)
      requires Valid()
      modifies Repr()
      ensures Valid() && fresh(Repr() - old(Repr()))
      ensures Value() == Model.HandleAdd(liveOrders.hash, old(Value()), m)
    {
      liveOrders.Insert(m.ref, LiveOrder(m.ref, m.price, m.shares, m.side, true));
      AddShares(m.side, m.price, m.shares);
      if m.side == 'B' {
        if m.price > bestBid { bestBid := m.price; }
      } else {
        if bestAsk == 0 || m.price < bestAsk { bestAsk := m.price; }
      }
    }

    /** `lo->remaining_shares -= exec_shares`, through the slot that `find` returned. */
    method WriteRemaining(i: nat, shares: u32)
      requires Valid() && i < liveOrders.slots.Length
      modifies liveOrders.slots
      ensures Valid()
      ensures Value() == old(Value()).(live := Model.WithRemaining(old(Value()).live, i, shares))
    {
      Model.WithRemainingCounted(Value().live, i, shares);
      liveOrders.slots[i] := liveOrders.slots[i].(remaining := shares);
      assert liveOrders.Value() == Model.WithRemaining(old(Value()).live, i, shares);
    }

    /** The table's part of an execution: the shares are taken, and an emptied order is erased. */
    method TakeShares(ref: u64, i: nat, exec: u32) returns (left: u32)
      requires Valid() && i < liveOrders.slots.Length && exec <= liveOrders.slots[i].remaining
      modifies liveOrders, liveOrders.slots
      ensures Valid() && liveOrders.slots == old(liveOrders.slots)
      ensures left == old(liveOrders.slots[i].remaining) - exec
      ensures Value() == old(Value()).(
                live := Model.TableAfterExecute(liveOrders.hash, old(Value()).live, ref, i, exec))
    {
      left := liveOrders.slots[i].remaining - exec;
      WriteRemaining(i, left);
      if left == 0 {
        liveOrders.Erase(ref);
      }
    }

    method HandleExecute(m: Message)
      requires Valid()
      modifies Repr()
      ensures Valid() && fresh(Repr() - old(Repr()))
      ensures Value() == Model.HandleExecute(liveOrders.hash, old(Value()), m)
    {
      var r := liveOrders.Find(m.ref);
      if r.None? { return; }
      var lo := liveOrders.slots[r.value];
      var exec := if m.shares > lo.remaining then lo.remaining else m.shares;
      RemoveShares(lo.side, lo.price, exec);
      var left := TakeShares(m.ref, r.value, exec);
      if left == 0 {
        RecalculateBbo(lo.side, lo.price);
      }
    }

    method HandleDelete(m: Message)
      requires Valid()
      modifies Repr()
      ensures Valid() && fresh(Repr() - old(Repr()))
      ensures Value() == Model.HandleDelete(liveOrders.hash, old(Value()), m)
    {
      var r := liveOrders.Find(m.ref);
      if r.None? { return; }
      var lo := liveOrders.slots[r.value];
      RemoveShares(lo.side, lo.price, lo.remaining);
      liveOrders.Erase(m.ref);
      RecalculateBbo(lo.side, lo.price);
    }

    method HandleReplace(m: Message)
      requires Valid()
      modifies Repr()
      ensures Valid() && fresh(Repr() - old(Repr()))
      ensures Value() == Model.HandleReplace(liveOrders.hash, old(Value()), m)
    {
      var r := liveOrders.Find(m.ref);
      if r.None? { return; }
      var lo := liveOrders.slots[r.value];
      RemoveShares(lo.side, lo.price, lo.remaining);
      liveOrders.Erase(m.ref);
      liveOrders.Insert(m.newRef, LiveOrder(m.newRef, m.price, m.shares, lo.side, true));
      AddShares(lo.side, m.price, m.shares);
      RecalculateBestBid();
      RecalculateBestAsk();
    }

    method Apply(m: Message)
      requires Valid()
      modifies Repr()
      ensures Valid() && fresh(Repr() - old(Repr()))
      ensures Value() == Model.Step(liveOrders.hash, old(Value()), m)
    {
      match m.kind
      case Add => HandleAdd(m);
      case Execute => HandleExecute(m);
      case Delete => HandleDelete(m);
      case Replace => HandleReplace(m);
    }
  }
}
