/** ShardedBookManager as the source writes it: two parallel symbol arrays probed in
    place, and 512 book objects with disjoint storage. */
module ShardedBookManagers {
  import opened Messages
  import opened Probing
  import opened SymbolTable
  import OrderTable
  import opened OrderBooks
  import BookModel
  import opened BookManagerModel

  /** The books hold `values`, each in storage that no other book shares. */
  ghost predicate Store(books: seq<OrderBook>, values: seq<BookModel.Book>, hash: Hash, storage: set<object>)
    reads storage
  {
    && |books| == |values|
    && (forall i :: 0 <= i < |books| ==> books[i] in storage && books[i].liveOrders in storage)
    && (forall i :: 0 <= i < |books| ==> books[i].Repr() <= storage)
    && (forall i, j :: 0 <= i < j < |books| ==> books[i].Repr() !! books[j].Repr())
    && (forall i :: 0 <= i < |books| ==> books[i].liveOrders.hash == hash)
    && (forall i :: 0 <= i < |books| ==> books[i].Valid() && books[i].Value() == values[i])
  }

  twostate lemma BookUntouched(b: OrderBook)
    requires old(b.Valid())
    requires unchanged(b) && unchanged(b.bidLevels) && unchanged(b.askLevels)
    requires unchanged(b.liveOrders) && unchanged(b.liveOrders.slots)
    ensures b.Valid() && b.Value() == old(b.Value()) && b.Repr() == old(b.Repr())
  {
  }

  /** A message applied to one book of a store reaches no other book. */
  method ApplyAt(books: seq<OrderBook>, ghost values: seq<BookModel.Book>, hash: Hash, ghost storage: set<object>,
                 i: nat, m: Message)
    returns (ghost values': seq<BookModel.Book>, ghost storage': set<object>)
    requires Store(books, values, hash, storage) && i < |books| && BookModel.BookValid(values[i])
    modifies books[i].Repr()
    ensures storage <= storage' && fresh(storage' - storage)
    ensures values' == values[i := BookModel.Step(hash, values[i], m)]
    ensures Store(books, values', hash, storage')
  {
    label before:
    books[i].Apply(m);
    forall j | 0 <= j < |books| && j != i
      ensures books[j].Valid() && books[j].Value() == values[j] && books[j].Repr() == old(books[j].Repr())
    {
      assert old(books[j].Repr()) !! old(books[i].Repr());
      BookUntouched@before(books[j]);
    }
    storage' := storage + books[i].Repr();
    values' := values[i := BookModel.Step(hash, values[i], m)];
  }

  /** `n` fresh books. */
  method NewStore(n: nat, hash: Hash) returns (books: seq<OrderBook>, ghost storage: set<object>)
    ensures |books| == n && fresh(storage)
    ensures Store(books, seq(n, _ => BookModel.EmptyBook(OrderTable.DEFAULT_CAPACITY)), hash, storage)
  {
    books, storage := [], {};
    ghost var values: seq<BookModel.Book> := [];
    ghost var empty := BookModel.EmptyBook(OrderTable.DEFAULT_CAPACITY);
    while |books| < n
      invariant |books| <= n && fresh(storage)
      invariant |values| == |books| && forall i :: 0 <= i < |values| ==> values[i] == empty
      invariant Store(books, values, hash, storage)
    {
      books, storage, values := NewBook(books, values, hash, storage);
    }
    assert values == seq(n, _ => empty);
  }

  method NewBook(books: seq<OrderBook>, ghost values: seq<BookModel.Book>, hash: Hash, ghost storage: set<object>)
    returns (books': seq<OrderBook>, ghost storage': set<object>, ghost values': seq<BookModel.Book>)
    requires Store(books, values, hash, storage)
    ensures storage <= storage' && fresh(storage' - storage)
    ensures |books'| == |books| + 1
    ensures values' == values + [BookModel.EmptyBook(OrderTable.DEFAULT_CAPACITY)]
    ensures Store(books', values', hash, storage')
  {
    var b := new OrderBook(hash);
    assert Store(books, values, hash, storage);
    books' := books + [b];
    storage' := storage + b.Repr();
    values' := values + [b.Value()];
  }

  class ShardedBookManager {
    const symbolHash: Hash
    const orderHash: Hash
    const symbolKeys: array<u64>
    const symbolVals: array<Option<nat>>
    const books: seq<OrderBook>
    var bookCount: nat
    var totalMessages: nat

    ghost var storage: set<object>
    ghost var bookValues: seq<BookModel.Book>

    constructor (symbolHash: Hash, orderHash: Hash)
      ensures Valid() && fresh(storage) && fresh(symbolKeys) && fresh(symbolVals)
      ensures this.symbolHash == symbolHash && this.orderHash == orderHash
      ensures symbolKeys.Length == symbolVals.Length == 1024 && |books| == 512
      ensures Value() == NewManager()
    {
      this.symbolHash, this.orderHash := symbolHash, orderHash;
      symbolKeys := new u64[SYMBOL_CAPACITY](_ => 0);
      symbolVals := new Option<nat>[SYMBOL_CAPACITY](_ => None);
      var bs, st := NewStore(MAX_SYMBOLS, orderHash);
      books, storage := bs, st;
      bookCount, totalMessages := 0, 0;
      bookValues := NewManager().books;
      new;
      assert Symbols() == NoSymbols();
    }

    ghost function Symbols(): Symbols
      reads this, symbolKeys, symbolVals
    {
      SymbolTable.Symbols(symbolKeys[..], symbolVals[..], bookCount)
    }

    ghost function Value(): Manager
      reads this, symbolKeys, symbolVals
    {
      Manager(Symbols(), bookValues, totalMessages)
    }

    ghost predicate Valid()
      reads this, symbolKeys, symbolVals, storage
    {
      && Separate()
      && ManagerValid(Value())
      && Store(books, bookValues, orderHash, storage)
    }

    /** The probe loop shared by `find_or_insert_symbol` and `get_book`. */
    method FindSlot(ticker: u64) returns (r: Option<nat>)
      requires Shaped(Symbols())
      ensures r == SlotFor(symbolHash, Symbols(), ticker)
    {
      ghost var s, home := Symbols(), Home(symbolHash(ticker), SYMBOL_CAPACITY);
      var idx := symbolHash(ticker) % SYMBOL_CAPACITY;
      var probe := 0;
      while probe < SYMBOL_CAPACITY && symbolVals[idx].Some? && symbolKeys[idx] != ticker
        invariant probe <= SYMBOL_CAPACITY && idx < SYMBOL_CAPACITY
        invariant probe < SYMBOL_CAPACITY ==> idx == At(home, probe, SYMBOL_CAPACITY)
        invariant forall e :: 0 <= e < probe ==> !StopsAt(s, ticker, At(home, e, SYMBOL_CAPACITY))
      {
        StepIsNext(home, probe, SYMBOL_CAPACITY);
        idx := (idx + 1) % SYMBOL_CAPACITY;
        probe := probe + 1;
      }
      SymbolStopIs(s, home, ticker, probe);
      return if probe == SYMBOL_CAPACITY then None else Some(idx);
    }

    method FindOrInsertSymbol(ticker: u64) returns (v: Option<nat>)
      requires Shaped(Symbols())
      modifies this`bookCount, symbolKeys, symbolVals
      ensures Symbols() == Resolved(symbolHash, old(Symbols()), ticker).0
      ensures v == Resolved(symbolHash, old(Symbols()), ticker).1
    {
      ghost var s := Symbols();
      var slot := FindSlot(ticker);
      if slot.None? { return None; }
      var i := slot.value;
      if symbolVals[i].Some? { return symbolVals[i]; }
      if bookCount >= MAX_SYMBOLS { return None; }
      v := Some(bookCount);
      symbolKeys[i] := ticker;
      symbolVals[i] := v;
      bookCount := bookCount + 1;
      assert symbolKeys[..] == s.keys[i := ticker] && symbolVals[..] == s.vals[i := v];
    }

    ghost predicate Separate()
      reads this
    {
      {this, symbolKeys, symbolVals} !! storage
    }

    method ApplyBook(i: nat, m: Message)
      requires Separate() && Store(books, bookValues, orderHash, storage)
      requires i < |books| && BookModel.BookValid(bookValues[i])
      modifies this`totalMessages, this`bookValues, this`storage, storage
      ensures Separate() && Store(books, bookValues, orderHash, storage) && fresh(storage - old(storage))
      ensures Symbols() == old(Symbols()) && totalMessages == old(totalMessages) + 1
      ensures bookValues == old(bookValues)[i := BookModel.Step(orderHash, old(bookValues)[i], m)]
    {
      ghost var values, reached := ApplyAt(books, bookValues, orderHash, storage, i, m);
      CountMessage(values, reached);
    }

    method CountMessage(ghost values: seq<BookModel.Book>, ghost reached: set<object>)
      requires {this, symbolKeys, symbolVals} !! reached && Store(books, values, orderHash, reached)
      modifies this`totalMessages, this`bookValues, this`storage
      ensures bookValues == values && storage == reached && totalMessages == old(totalMessages) + 1
      ensures Separate() && Store(books, bookValues, orderHash, storage)
    {
      bookValues, storage, totalMessages := values, reached, totalMessages + 1;
    }

    method Apply(m: Message)
      requires Valid()
      modifies this, symbolKeys, symbolVals, storage
      ensures Valid() && fresh(storage - old(storage))
      ensures Value() == Applied(symbolHash, orderHash, old(Value()), m)
    {
      var v := FindOrInsertSymbol(m.ticker);
      if v.Some? {
        ApplyBook(v.value, m);
      }
      assert Value() == Applied(symbolHash, orderHash, old(Value()), m);
    }

    method FindBook(ticker: u64) returns (book: OrderBook?)
      requires Valid()
      ensures book == null <==> GetBook(symbolHash, Value(), ticker).None?
      ensures book != null ==> book in storage && book.liveOrders in storage && book.Repr() <= storage
      ensures book != null ==> book.Valid() && Some(book.Value()) == GetBook(symbolHash, Value(), ticker)
    {
      var slot := FindSlot(ticker);
      if slot.None? || symbolVals[slot.value].None? { return null; }
      book := books[symbolVals[slot.value].value];
    }
  }
}
