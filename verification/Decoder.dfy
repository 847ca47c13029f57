/** SimdDecoder's framing: a flat stream of length-prefixed messages decoded into orders. */
module Decoder {
  import opened Messages
  import opened Bytes

  const ADD_ORDER_SIZE: nat := 36
  const ORDER_EXECUTED_SIZE: nat := 31
  const ORDER_DELETE_SIZE: nat := 19
  const ORDER_REPLACE_SIZE: nat := 35

  /** The dispatch tables: which types have a handler, and how long a message must be for it. */
  function HandlerFor(msgType: u8): Option<Kind> {
    if msgType == 'A' as int then Some(Add)
    else if msgType == 'D' as int then Some(Delete)
    else if msgType == 'E' as int then Some(Execute)
    else if msgType == 'U' as int then Some(Replace)
    else None
  }

  function SizeOf(kind: Kind): nat {
    match kind
    case Add => ADD_ORDER_SIZE
    case Execute => ORDER_EXECUTED_SIZE
    case Delete => ORDER_DELETE_SIZE
    case Replace => ORDER_REPLACE_SIZE
  }

  /** The handlers: prices and shares are swapped to host order, references and tickers are only loaded. */
  function Decode(kind: Kind, raw: seq<u8>): Message
    requires |raw| >= SizeOf(kind)
  {
    var ref := Word64(raw[11..19]);
    match kind
    case Add =>
      Message(Add, ref, Word64(raw[24..32]), Swap32(Word32(raw[32..36])), Swap32(Word32(raw[20..24])),
              raw[19] as char, 0)
    case Execute => Message(Execute, ref, 0, 0, Swap32(Word32(raw[19..23])), 0 as char, 0)
    case Delete => Message(Delete, ref, 0, 0, 0, 0 as char, 0)
    case Replace =>
      Message(Replace, ref, 0, Swap32(Word32(raw[31..35])), Swap32(Word32(raw[27..31])), 0 as char,
              Word64(raw[19..27]))
  }

  function FrameLength(s: seq<u8>): nat
    requires |s| >= 2
  {
    s[0] as int * 0x100 + s[1]
  }

  /** What one complete frame yields: at most one order. */
  function FrameOrders(s: seq<u8>): (r: seq<Message>)
    requires |s| >= 3 && |s| >= 2 + FrameLength(s)
    ensures |r| <= 1
  {
    match HandlerFor(s[2])
    case None => []
    case Some(kind) => if FrameLength(s) >= SizeOf(kind) then [Decode(kind, s[2..])] else []
  }

  /** The stream as a grammar: frames up to the first incomplete one. */
  function Parse(s: seq<u8>): seq<Message> {
    if |s| < 3 || 2 + FrameLength(s) > |s| then []
    else FrameOrders(s) + Parse(s[2 + FrameLength(s)..])
  }

  /** The first `n` orders, or all if there are fewer. */
  function Take(ms: seq<Message>, n: nat): (r: seq<Message>)
    ensures |r| == (if |ms| < n then |ms| else n) && r <= ms
  {
    if |ms| <= n then ms else ms[..n]
  }

  /** One turn of the loop: the frame at `offset` is decoded into the next output slot if it has a
      handler and is long enough. */
  method DecodeFrame(stream: seq<u8>, offset: nat, msgLen: nat, output: array<Message>, count: nat)
    returns (count': nat)
    requires offset + 3 <= |stream| && count < output.Length
    requires msgLen == FrameLength(stream[offset..]) && offset + 2 + msgLen <= |stream|
    modifies output
    ensures count <= count' <= count + 1
    ensures output[..count'] == old(output[..count]) + FrameOrders(stream[offset..])
    ensures output[count'..] == old(output[..])[count'..]
  {
    ghost var rest := stream[offset..];
    var handler := HandlerFor(stream[offset + 2]);
    if handler.Some? && msgLen >= SizeOf(handler.value) {
      assert rest[2..] == stream[offset + 2..];
      output[count] := Decode(handler.value, stream[offset + 2..]);
      return count + 1;
    }
    return count;
  }

  /** `decode_stream`: every read is in bounds, and the output holds the parse, cut at `max_output`. */
  method DecodeStream(stream: seq<u8>, output: array<Message>, maxOutput: nat) returns (count: nat)
    requires maxOutput <= output.Length
    modifies output
    ensures count <= maxOutput
    ensures output[..count] == Take(Parse(stream), maxOutput)
    ensures output[count..] == old(output[..])[count..]
  {
    var offset := 0;
    count := 0;
    ghost var all, rest, before := Parse(stream), stream, output[..];
    while offset + 3 <= |stream| && count < maxOutput
      invariant offset <= |stream| && rest == stream[offset..] && count <= maxOutput
      invariant all == output[..count] + Parse(rest)
      invariant output[count..] == before[count..]
      decreases |stream| - offset
    {
      var msgLen := stream[offset] as int * 0x100 + stream[offset + 1];
      if offset + 2 + msgLen > |stream| {
        TakeAll(all, output[..count], rest, maxOutput);
        return;
      }
      ghost var done := output[..count];
      count := DecodeFrame(stream, offset, msgLen, output, count);
      offset := offset + 2 + msgLen;
      NextFrame(all, done, rest, stream[offset..]);
      rest := stream[offset..];
    }
    TakeParsed(all, output[..count], rest, maxOutput);
  }

  lemma {:induction false} NextFrame(all: seq<Message>, done: seq<Message>, rest: seq<u8>, next: seq<u8>)
    requires |rest| >= 3 && |rest| >= 2 + FrameLength(rest) && next == rest[2 + FrameLength(rest)..]
    requires all == done + Parse(rest)
    ensures all == (done + FrameOrders(rest)) + Parse(next)
  {
    Associative(done, FrameOrders(rest), Parse(next));
  }

  lemma {:induction false} TakeAll(all: seq<Message>, done: seq<Message>, rest: seq<u8>, n: nat)
    requires all == done + Parse(rest) && |done| <= n
    requires |rest| < 3 || 2 + FrameLength(rest) > |rest|
    ensures done == Take(all, n)
  {
    assert Parse(rest) == [];
  }

  lemma {:induction false} TakeParsed(all: seq<Message>, done: seq<Message>, rest: seq<u8>, n: nat)
    requires all == done + Parse(rest) && |done| <= n
    requires |done| == n || |rest| < 3
    ensures done == Take(all, n)
  {
    if |done| < n { TakeAll(all, done, rest, n); }
  }

  // ---- laws of the framing ----

  /** The bytes end exactly at the end of a frame. */
  predicate Framed(s: seq<u8>) {
    s == [] || (|s| >= 2 && 2 + FrameLength(s) <= |s| && Framed(s[2 + FrameLength(s)..]))
  }

  /** Decoding distributes over concatenation at a frame boundary. */
  lemma {:induction false} ParseConcat(a: seq<u8>, b: seq<u8>)
    requires Framed(a)
    ensures Parse(a + b) == Parse(a) + Parse(b)
  {
    if a == [] {
      assert a + b == b;
    } else {
      var rest := a[2 + FrameLength(a)..];
      ParseConcat(rest, b);
      if FrameLength(a) == 0 {
        EmptyFrame(a, b);
      } else {
        FirstFrame(a, b);
        Associative(FrameOrders(a), Parse(rest), Parse(b));
      }
    }
  }

  lemma Associative(x: seq<Message>, y: seq<Message>, z: seq<Message>)
    ensures (x + y) + z == x + (y + z)
  {
  }

  lemma {:induction false} FirstFrame(a: seq<u8>, b: seq<u8>)
    requires |a| >= 3 && |a| >= 2 + FrameLength(a)
    ensures var n := 2 + FrameLength(a);
            && Parse(a) == FrameOrders(a) + Parse(a[n..])
            && Parse(a + b) == FrameOrders(a) + Parse(a[n..] + b)
  {
    DropConcat(a, b, 2 + FrameLength(a));
    FirstFrameOf(a, a, a[2 + FrameLength(a)..]);
    FirstFrameOf(a, a + b, a[2 + FrameLength(a)..] + b);
  }

  lemma {:induction false} FirstFrameOf(a: seq<u8>, s: seq<u8>, rest: seq<u8>)
    requires |a| >= 3 && |a| >= 2 + FrameLength(a) && a <= s && rest == s[2 + FrameLength(a)..]
    ensures Parse(s) == FrameOrders(a) + Parse(rest)
  {
    SameFrame(a, s);
    ParseFirst(s);
  }

  lemma {:induction false} DropConcat(a: seq<u8>, b: seq<u8>, n: nat)
    requires n <= |a|
    ensures (a + b)[n..] == a[n..] + b
  {
  }

  lemma {:induction false} ParseFirst(s: seq<u8>)
    requires |s| >= 3 && |s| >= 2 + FrameLength(s)
    ensures Parse(s) == FrameOrders(s) + Parse(s[2 + FrameLength(s)..])
  {
  }

  /** A frame yields the same order whatever follows it. */
  lemma SameFrame(a: seq<u8>, s: seq<u8>)
    requires |a| >= 3 && |a| >= 2 + FrameLength(a) && a <= s
    ensures FrameOrders(s) == FrameOrders(a)
  {
    match HandlerFor(a[2])
    case None =>
    case Some(kind) =>
      if FrameLength(a) >= SizeOf(kind) { SameDecode(kind, a[2..], s[2..]); }
  }

  lemma SameDecode(kind: Kind, x: seq<u8>, y: seq<u8>)
    requires |x| >= SizeOf(kind) && x <= y
    ensures Decode(kind, x) == Decode(kind, y)
  {
    assert x[11..19] == y[11..19];
    match kind {
      case Add => assert x[24..32] == y[24..32] && x[32..36] == y[32..36] && x[20..24] == y[20..24];
      case Execute => assert x[19..23] == y[19..23];
      case Delete =>
      case Replace => assert x[31..35] == y[31..35] && x[27..31] == y[27..31] && x[19..27] == y[19..27];
    }
  }

  /** A zero-length frame reads its "type" from the next frame and yields nothing. */
  lemma {:induction false} EmptyFrame(a: seq<u8>, b: seq<u8>)
    requires |a| >= 2 && FrameLength(a) == 0
    ensures Parse(a + b) == Parse(a[2..] + b) && Parse(a) == Parse(a[2..])
  {
    assert (a + b)[2..] == a[2..] + b;
  }

  lemma {:induction false} ParseExtended(a: seq<u8>, b: seq<u8>)
    ensures Parse(a) <= Parse(a + b)
  {
    if |a| >= 3 && 2 + FrameLength(a) <= |a| {
      FirstFrame(a, b);
      ParseExtended(a[2 + FrameLength(a)..], b);
    }
  }

  /** Cutting the buffer anywhere leaves a prefix of the orders. */
  lemma {:induction false} ParseTruncated(s: seq<u8>, k: nat)
    requires k <= |s|
    ensures Parse(s[..k]) <= Parse(s)
  {
    ParseExtended(s[..k], s[k..]);
    assert s[..k] + s[k..] == s;
  }

  // ---- round trip ----

  /** A message as ITCH 5.0 sends it; `head` is the stock locate, tracking number and timestamp. */
  datatype Wire =
    | WAdd(head: seq<u8>, ref: u64, side: u8, shares: u32, stock: seq<u8>, price: u32)
    | WExecuted(head: seq<u8>, ref: u64, shares: u32, matchNumber: u64)
    | WDelete(head: seq<u8>, ref: u64)
    | WReplace(head: seq<u8>, ref: u64, newRef: u64, shares: u32, price: u32)

  predicate WireOk(w: Wire) {
    |w.head| == 10 && (w.WAdd? ==> |w.stock| == 8)
  }

  function Payload(w: Wire): (b: seq<u8>)
    requires WireOk(w)
    ensures |b| == SizeOf(KindOf(w)) && HandlerFor(b[0]) == Some(KindOf(w))
  {
    match w
    case WAdd(head, ref, side, shares, stock, price) =>
      [0x41] + head + Big64(ref) + [side] + Big32(shares) + stock + Big32(price)
    case WExecuted(head, ref, shares, n) => [0x45] + head + Big64(ref) + Big32(shares) + Big64(n)
    case WDelete(head, ref) => [0x44] + head + Big64(ref)
    case WReplace(head, ref, newRef, shares, price) =>
      [0x55] + head + Big64(ref) + Big64(newRef) + Big32(shares) + Big32(price)
  }

  function KindOf(w: Wire): Kind {
    match w
    case WAdd(_, _, _, _, _, _) => Add
    case WExecuted(_, _, _, _) => Execute
    case WDelete(_, _) => Delete
    case WReplace(_, _, _, _, _) => Replace
  }

  /** The fields that survive decoding: prices, shares, side and stock; references byte-swapped; nothing else. */
  function Retained(w: Wire): Message
    requires WireOk(w)
  {
    match w
    case WAdd(_, ref, side, shares, stock, price) =>
      Message(Add, Swap64(ref), Word64(stock), price, shares, side as char, 0)
    case WExecuted(_, ref, shares, _) => Message(Execute, Swap64(ref), 0, 0, shares, 0 as char, 0)
    case WDelete(_, ref) => Message(Delete, Swap64(ref), 0, 0, 0, 0 as char, 0)
    case WReplace(_, ref, newRef, shares, price) =>
      Message(Replace, Swap64(ref), 0, price, shares, 0 as char, Swap64(newRef))
  }

  lemma DecodeAdd(w: Wire)
    requires WireOk(w) && w.WAdd?
    ensures Decode(Add, Payload(w)) == Retained(w)
  {
    var raw := Payload(w);
    assert raw[11..19] == Big64(w.ref) && raw[19] == w.side && raw[20..24] == Big32(w.shares);
    assert raw[24..32] == w.stock && raw[32..36] == Big32(w.price);
    Big64Read(w.ref);
    Big32Read(w.shares);
    Big32Read(w.price);
  }

  lemma DecodeReplace(w: Wire)
    requires WireOk(w) && w.WReplace?
    ensures Decode(Replace, Payload(w)) == Retained(w)
  {
    var raw := Payload(w);
    assert raw[11..19] == Big64(w.ref) && raw[19..27] == Big64(w.newRef);
    assert raw[27..31] == Big32(w.shares) && raw[31..35] == Big32(w.price);
    Big64Read(w.ref);
    Big64Read(w.newRef);
    Big32Read(w.shares);
    Big32Read(w.price);
  }

  lemma DecodePayload(w: Wire)
    requires WireOk(w)
    ensures Decode(KindOf(w), Payload(w)) == Retained(w)
  {
    var raw := Payload(w);
    match w {
      case WAdd(_, _, _, _, _, _) => DecodeAdd(w);
      case WReplace(_, _, _, _, _) => DecodeReplace(w);
      case WExecuted(head, ref, shares, n) =>
        assert raw[11..19] == Big64(ref) && raw[19..23] == Big32(shares);
        Big64Read(ref);
        Big32Read(shares);
      case WDelete(head, ref) =>
        assert raw[11..19] == Big64(ref);
        Big64Read(ref);
    }
  }

  /** What a stream may carry: a message of the four types, with any bytes after it, or anything else. */
  datatype Packet = Known(wire: Wire, pad: seq<u8>) | Other(body: seq<u8>)

  function Body(p: Packet): seq<u8>
    requires p.Known? ==> WireOk(p.wire)
  {
    match p
    case Known(w, pad) => Payload(w) + pad
    case Other(body) => body
  }

  /** The bytes stand for no order: no type byte at all, another type, or too few bytes for the type. */
  predicate NoOrder(body: seq<u8>) {
    body == [] ||
    |body| < (match body[0]
              case 0x41 => 36
              case 0x44 => 19
              case 0x45 => 31
              case 0x55 => 35
              case _ => 0x1_0000)
  }

  predicate PacketOk(p: Packet) {
    && (p.Known? ==> WireOk(p.wire))
    && (p.Other? ==> NoOrder(p.body))
    && |Body(p)| < 0x1_0000
  }

  function Frame(p: Packet): seq<u8>
    requires PacketOk(p)
  {
    Big16(|Body(p)|) + Body(p)
  }

  function Encoded(ps: seq<Packet>): seq<u8>
    requires forall p :: p in ps ==> PacketOk(p)
  {
    if ps == [] then [] else Frame(ps[0]) + Encoded(ps[1..])
  }

  function AllRetained(ps: seq<Packet>): seq<Message>
    requires forall p :: p in ps ==> PacketOk(p)
  {
    if ps == [] then [] else
    assert PacketOk(ps[0]);
    (if ps[0].Known? then [Retained(ps[0].wire)] else []) + AllRetained(ps[1..])
  }

  lemma FrameRead(p: Packet)
    requires PacketOk(p)
    ensures var f := Frame(p); FrameLength(f) == |Body(p)| && f[2..] == Body(p) && |f| == 2 + FrameLength(f)
  {
  }

  lemma KnownOrders(w: Wire, pad: seq<u8>)
    requires WireOk(w) && PacketOk(Known(w, pad))
    ensures FrameOrders(Frame(Known(w, pad))) == [Retained(w)]
  {
    var f := Frame(Known(w, pad));
    FrameRead(Known(w, pad));
    SameDecode(KindOf(w), Payload(w), f[2..]);
    DecodePayload(w);
  }

  lemma OtherOrders(body: seq<u8>)
    requires PacketOk(Other(body)) && body != []
    ensures FrameOrders(Frame(Other(body))) == []
  {
    FrameRead(Other(body));
  }

  lemma {:induction false} ParseFrame(p: Packet)
    requires PacketOk(p)
    ensures Framed(Frame(p)) && Parse(Frame(p)) == if p.Known? then [Retained(p.wire)] else []
  {
    var f := Frame(p);
    FrameRead(p);
    assert f[2 + FrameLength(f)..] == [];
    match p
    case Known(w, pad) => KnownOrders(w, pad);
    case Other(body) => if body != [] { OtherOrders(body); }
  }

  /** Decoding inverts the wire encoding on every retained field: a stream yields exactly the orders of its messages of
      the four types, in turn, whatever frames of other types, and of any length, stand between. */
  lemma {:induction false} RoundTrip(ps: seq<Packet>)
    requires forall p :: p in ps ==> PacketOk(p)
    ensures Parse(Encoded(ps)) == AllRetained(ps)
  {
    if ps != [] {
      ParseFrame(ps[0]);
      ParseConcat(Frame(ps[0]), Encoded(ps[1..]));
      RoundTrip(ps[1..]);
    }
  }

  /** A decoded reference is the one sent if and only if its bytes read the same both ways; every reference
      can be recovered by swapping once more, so distinct references stay distinct. */
  lemma ReferenceKeptIff(w: Wire)
    requires WireOk(w)
    ensures Retained(w).ref == w.ref <==> Reversed(Bytes64(w.ref)) == Bytes64(w.ref)
    ensures Swap64(Retained(w).ref) == w.ref
  {
    Big64Read(w.ref);
  }
}
