/** ShardedBookManager as a value: the symbol table, 512 books and the message count. */
module BookManagerModel {
  import opened Messages
  import opened OrderTable
  import opened SymbolTable
  import opened BookModel

  datatype Manager = Manager(symbols: Symbols, books: seq<Book>, total: nat)

  ghost predicate ManagerValid(g: Manager) {
    && Shaped(g.symbols) && |g.books| == MAX_SYMBOLS
    && (forall i :: 0 <= i < SYMBOL_CAPACITY && g.symbols.vals[i].Some? ==> g.symbols.vals[i].value < MAX_SYMBOLS)
    && (forall v :: 0 <= v < MAX_SYMBOLS ==> BookValid(g.books[v]))
  }

  ghost function NewManager(): (g: Manager)
    ensures ManagerValid(g)
  {
    Manager(NoSymbols(), seq(MAX_SYMBOLS, _ => EmptyBook(DEFAULT_CAPACITY)), 0)
  }

  function Applied(hs: Hash, h: Hash, g: Manager, m: Message): (r: Manager)
    requires ManagerValid(g)
    ensures ManagerValid(r)
  {
    var (symbols, v) := Resolved(hs, g.symbols, m.ticker);
    match v
    case None => g.(symbols := symbols)
    case Some(v) => Manager(symbols, g.books[v := Step(h, g.books[v], m)], g.total + 1)
  }

  function GetBook(hs: Hash, g: Manager, key: u64): Option<Book>
    requires ManagerValid(g)
  {
    match IndexOf(hs, g.symbols, key)
    case None => None
    case Some(v) => Some(g.books[v])
  }

  ghost function RunManager(hs: Hash, h: Hash, ms: seq<Message>): (g: Manager)
    ensures ManagerValid(g)
  {
    if ms == [] then NewManager() else Applied(hs, h, RunManager(hs, h, ms[..|ms| - 1]), ms[|ms| - 1])
  }

  // ---- what a message sequence says about each symbol ----

  /** The messages of one ticker, in order. */
  function OfTicker(ms: seq<Message>, key: u64): seq<Message> {
    if ms == [] then [] else
    OfTicker(ms[..|ms| - 1], key) + if ms[|ms| - 1].ticker == key then [ms[|ms| - 1]] else []
  }

  /** The distinct tickers in order of first appearance. */
  function Distinct(ms: seq<Message>): (ks: seq<u64>)
    ensures forall u, v :: 0 <= u < v < |ks| ==> ks[u] != ks[v]
  {
    if ms == [] then [] else
    var ks := Distinct(ms[..|ms| - 1]);
    if ms[|ms| - 1].ticker in ks then ks else ks + [ms[|ms| - 1].ticker]
  }

  /** The tickers a manager has room for: the first 512 distinct ones. */
  function Kept(ms: seq<Message>): seq<u64> {
    var ks := Distinct(ms);
    if |ks| <= 512 then ks else ks[..512]
  }

  function CountKept(ms: seq<Message>, ks: seq<u64>): nat {
    if ms == [] then 0 else CountKept(ms[..|ms| - 1], ks) + if ms[|ms| - 1].ticker in ks then 1 else 0
  }

  /** What one ticker's messages alone would build. */
  function BookOf(h: Hash, ms: seq<Message>, key: u64): (b: Book)
    ensures BookValid(b)
  {
    Run(h, EmptyBook(DEFAULT_CAPACITY), OfTicker(ms, key))
  }

  lemma {:induction false} UnseenHasNone(ms: seq<Message>, key: u64)
    requires key !in Distinct(ms)
    ensures OfTicker(ms, key) == []
  {
    if ms != [] { UnseenHasNone(ms[..|ms| - 1], key); }
  }

  lemma BookOfStep(h: Hash, ms: seq<Message>, key: u64)
    requires ms != []
    ensures var before := BookOf(h, ms[..|ms| - 1], key);
            BookOf(h, ms, key) == if ms[|ms| - 1].ticker == key then Step(h, before, ms[|ms| - 1]) else before
  {
    var k := |ms| - 1;
    var a := OfTicker(ms[..k], key);
    if ms[k].ticker == key {
      assert (a + [ms[k]])[..|a|] == a;
    } else {
      assert a + [] == a;
    }
  }

  /** A later new ticker changes no earlier count: its own messages only start with it. */
  lemma {:induction false} CountKeptGrows(ms: seq<Message>, ks: seq<u64>, key: u64)
    requires key !in Distinct(ms)
    ensures CountKept(ms, ks + [key]) == CountKept(ms, ks)
  {
    if ms != [] { CountKeptGrows(ms[..|ms| - 1], ks, key); }
  }

  /** How message `ms[k]` moves the kept tickers. */
  lemma KeptStep(ms: seq<Message>)
    requires ms != []
    ensures var (before, key) := (Kept(ms[..|ms| - 1]), ms[|ms| - 1].ticker);
            && |before| <= MAX_SYMBOLS
            && (key in before ==> Kept(ms) == before)
            && (key !in before && |before| < MAX_SYMBOLS ==>
                  Kept(ms) == before + [key] && key !in Distinct(ms[..|ms| - 1]))
            && (key !in before && |before| == MAX_SYMBOLS ==> Kept(ms) == before)
  {
  }

  // ---- isolation ----

  /** The book that belongs at index `v`: the fold of the v-th kept ticker's messages, or a fresh one. */
  function BookAt(h: Hash, ms: seq<Message>, v: nat): Book {
    if v < |Kept(ms)| then BookOf(h, ms, Kept(ms)[v]) else EmptyBook(DEFAULT_CAPACITY)
  }

  ghost predicate BooksAre(h: Hash, books: seq<Book>, ms: seq<Message>) {
    |books| == MAX_SYMBOLS && forall v :: 0 <= v < MAX_SYMBOLS ==> books[v] == BookAt(h, ms, v)
  }

  ghost predicate Isolated(hs: Hash, h: Hash, g: Manager, ms: seq<Message>) {
    && Represents(hs, g.symbols, Kept(ms))
    && BooksAre(h, g.books, ms)
    && g.total == CountKept(ms, Kept(ms))
  }

  lemma {:induction false} UnseenIsEmpty(h: Hash, ms: seq<Message>, key: u64)
    requires key !in Distinct(ms)
    ensures BookOf(h, ms, key) == EmptyBook(DEFAULT_CAPACITY)
  {
    UnseenHasNone(ms, key);
  }

  /** The book at a kept ticker's index was already the fold of its earlier messages. */
  lemma {:induction false} KeptBefore(h: Hash, ms: seq<Message>, v: nat)
    requires ms != [] && v < |Kept(ms)|
    ensures BookAt(h, ms[..|ms| - 1], v) == BookOf(h, ms[..|ms| - 1], Kept(ms)[v])
  {
    var before := ms[..|ms| - 1];
    KeptStep(ms);
    if v == |Kept(before)| {
      UnseenIsEmpty(h, before, ms[|ms| - 1].ticker);
    }
  }

  lemma {:induction false} BookAtStep(h: Hash, ms: seq<Message>, v: nat)
    requires ms != []
    ensures var (before, m) := (ms[..|ms| - 1], ms[|ms| - 1]);
            && BookValid(BookAt(h, before, v))
            && BookAt(h, ms, v) == if v < |Kept(ms)| && Kept(ms)[v] == m.ticker
                                   then Step(h, BookAt(h, before, v), m) else BookAt(h, before, v)
  {
    var before, m := ms[..|ms| - 1], ms[|ms| - 1];
    KeptStep(ms);
    if v < |Kept(ms)| {
      KeptBefore(h, ms, v);
      BookOfStep(h, ms, Kept(ms)[v]);
    }
  }

  lemma BooksStep(h: Hash, books: seq<Book>, ms: seq<Message>, v: nat)
    requires ms != [] && BooksAre(h, books, ms[..|ms| - 1])
    requires v < |Kept(ms)| <= MAX_SYMBOLS && Kept(ms)[v] == ms[|ms| - 1].ticker && NoRepeats(Kept(ms))
    ensures BookValid(books[v])
    ensures BooksAre(h, books[v := Step(h, books[v], ms[|ms| - 1])], ms)
  {
    forall u | 0 <= u < MAX_SYMBOLS
      ensures BookValid(books[u])
      ensures books[v := Step(h, books[v], ms[|ms| - 1])][u] == BookAt(h, ms, u)
    {
      BookAtStep(h, ms, u);
    }
  }

  lemma BooksSkip(h: Hash, books: seq<Book>, ms: seq<Message>)
    requires ms != [] && BooksAre(h, books, ms[..|ms| - 1])
    requires ms[|ms| - 1].ticker !in Kept(ms)
    ensures BooksAre(h, books, ms)
  {
    forall u | 0 <= u < MAX_SYMBOLS
      ensures books[u] == BookAt(h, ms, u)
    {
      BookAtStep(h, ms, u);
    }
  }

  lemma IsolatedStep(hs: Hash, h: Hash, g: Manager, ms: seq<Message>)
    requires ms != [] && ManagerValid(g) && Isolated(hs, h, g, ms[..|ms| - 1])
    ensures Isolated(hs, h, Applied(hs, h, g, ms[|ms| - 1]), ms)
  {
    var before, m := ms[..|ms| - 1], ms[|ms| - 1];
    var ks0, ks := Kept(before), Kept(ms);
    KeptStep(ms);
    ResolvedRepresents(hs, g.symbols, ks0, m.ticker);
    IndexOfExact(hs, g.symbols, ks0, m.ticker);
    if m.ticker in ks0 {
      var v :| 0 <= v < |ks0| && ks0[v] == m.ticker;
      BooksStep(h, g.books, ms, v);
    } else if |ks0| < MAX_SYMBOLS {
      CountKeptGrows(before, ks0, m.ticker);
      BooksStep(h, g.books, ms, |ks0|);
    } else {
      BooksSkip(h, g.books, ms);
    }
  }

  /** Symbol isolation: over every message sequence the symbol table is a bijection between the first
      at most 512 distinct tickers and the indices below `book_count_`; each book is the fold of exactly
      its own ticker's messages; and `total_messages_` counts exactly the messages not dropped. */
  lemma {:induction false} RunIsolated(hs: Hash, h: Hash, ms: seq<Message>)
    ensures Isolated(hs, h, RunManager(hs, h, ms), ms)
  {
    if ms == [] {
      NoSymbolsRepresents(hs);
    } else {
      RunIsolated(hs, h, ms[..|ms| - 1]);
      IsolatedStep(hs, h, RunManager(hs, h, ms[..|ms| - 1]), ms);
    }
  }

  /** What a caller of `get_book` sees after any run. */
  lemma {:induction false} GetBookExact(hs: Hash, h: Hash, ms: seq<Message>, key: u64)
    ensures var ks := Distinct(ms);
            GetBook(hs, RunManager(hs, h, ms), key) ==
            if key in (if |ks| <= 512 then ks else ks[..512]) then Some(BookOf(h, ms, key)) else None
  {
    RunIsolated(hs, h, ms);
    var g, ks := RunManager(hs, h, ms), Kept(ms);
    IndexOfExact(hs, g.symbols, ks, key);
    if key in ks {
      var v :| 0 <= v < |ks| && ks[v] == key;
      assert g.books[v] == BookAt(h, ms, v);
    }
  }
}
