/** The 4-lane Add Order decoder for NEON and AVX2, with the intrinsics as functions on lanes and bytes,
    proved equal to the scalar handler on every record. */
module SimdDecoder {
  import opened Messages
  import opened Bytes
  import opened Decoder

  datatype Target = Neon | Avx2 | ScalarOnly

  // ---- vector registers ----

  /** The bytes of a 128-bit register of four 32-bit lanes. */
  function LaneBytes(v: seq<u32>): (b: seq<u8>)
    requires |v| == 4
    ensures |b| == 16
  {
    Bytes32(v[0]) + Bytes32(v[1]) + Bytes32(v[2]) + Bytes32(v[3])
  }

  function Lanes(b: seq<u8>): (v: seq<u32>)
    requires |b| == 16
    ensures |v| == 4
  {
    [Word32(b[0..4]), Word32(b[4..8]), Word32(b[8..12]), Word32(b[12..16])]
  }

  /** `vrev32q_u8`: reverse the bytes inside each 32-bit lane. */
  function RevLanes(b: seq<u8>): (r: seq<u8>)
    requires |b| == 16
    ensures |r| == 16
  {
    seq(16, i requires 0 <= i < 16 => b[i / 4 * 4 + 3 - i % 4])
  }

  /** `_mm_shuffle_epi8` with indices below 16. */
  function Shuffle(b: seq<u8>, mask: seq<nat>): (r: seq<u8>)
    requires |b| == |mask| == 16 && forall i :: 0 <= i < 16 ==> mask[i] < 16
    ensures |r| == 16
  {
    seq(16, i requires 0 <= i < 16 => b[mask[i]])
  }

  /** `_mm_set_epi8` lists its arguments from byte 15 down to byte 0. */
  const BSWAP_MASK: seq<nat> := [3, 2, 1, 0, 7, 6, 5, 4, 11, 10, 9, 8, 15, 14, 13, 12]

  /** `_mm_set_epi32` likewise lists lanes from 3 down to 0. */
  function SetEpi32(e3: u32, e2: u32, e1: u32, e0: u32): seq<u32> {
    [e0, e1, e2, e3]
  }

  function SetEpi64(e3: u64, e2: u64, e1: u64, e0: u64): seq<u64> {
    [e0, e1, e2, e3]
  }

  function SwapLanes(target: Target, v: seq<u32>): (r: seq<u32>)
    requires |v| == 4
    ensures |r| == 4
  {
    Lanes(if target.Neon? then RevLanes(LaneBytes(v)) else Shuffle(LaneBytes(v), BSWAP_MASK))
  }

  /** The NEON reversal and the AVX2 shuffle are the same permutation of bytes. */
  lemma ReverseIsShuffle(b: seq<u8>)
    requires |b| == 16
    ensures RevLanes(b) == Shuffle(b, BSWAP_MASK)
  {
    var r, m := RevLanes(b), Shuffle(b, BSWAP_MASK);
    assert r[0] == m[0] && r[1] == m[1] && r[2] == m[2] && r[3] == m[3];
    assert r[4] == m[4] && r[5] == m[5] && r[6] == m[6] && r[7] == m[7];
    assert r[8] == m[8] && r[9] == m[9] && r[10] == m[10] && r[11] == m[11];
    assert r[12] == m[12] && r[13] == m[13] && r[14] == m[14] && r[15] == m[15];
  }

  /** On either target the vector swap is the scalar swap in every lane. */
  lemma SwapLanesIsScalar(target: Target, v: seq<u32>)
    requires |v| == 4
    ensures SwapLanes(target, v) == [Swap32(v[0]), Swap32(v[1]), Swap32(v[2]), Swap32(v[3])]
  {
    var b := LaneBytes(v);
    ReverseIsShuffle(b);
    var r := Shuffle(b, BSWAP_MASK);
    assert r[0..4] == Reversed(Bytes32(v[0]));
    assert r[4..8] == Reversed(Bytes32(v[1]));
    assert r[8..12] == Reversed(Bytes32(v[2]));
    assert r[12..16] == Reversed(Bytes32(v[3]));
  }

  // ---- the batch decoder ----

  /** One packed ItchAddOrder. */
  type AddRecord = raw: seq<u8> | |raw| == ADD_ORDER_SIZE witness seq(ADD_ORDER_SIZE, _ => 0)

  /** `decode_add_order`, the scalar handler. */
  function Scalar(raw: AddRecord): Message {
    Decode(Add, raw)
  }

  function RawPrice(raw: AddRecord): u32 {
    Word32(raw[32..36])
  }

  function RawShares(raw: AddRecord): u32 {
    Word32(raw[20..24])
  }

  function Ticker(raw: AddRecord): u64 {
    Word64(raw[24..32])
  }

  /** Four fields gathered in the order each target's intrinsic takes them. */
  function Gather(target: Target, a: u32, b: u32, c: u32, d: u32): (v: seq<u32>)
    ensures v == [a, b, c, d]
  {
    if target.Neon? then [a, b, c, d] else SetEpi32(d, c, b, a)
  }

  /** Two halves combined on NEON, one reversed list on AVX2. */
  function GatherTickers(target: Target, a: u64, b: u64, c: u64, d: u64): (v: seq<u64>)
    ensures v == [a, b, c, d]
  {
    if target.Neon? then [a, b] + [c, d] else SetEpi64(d, c, b, a)
  }

  function SwapGathered(target: Target, a: u32, b: u32, c: u32, d: u32): (v: seq<u32>)
    ensures v == [Swap32(a), Swap32(b), Swap32(c), Swap32(d)]
  {
    SwapLanesIsScalar(target, Gather(target, a, b, c, d));
    SwapLanes(target, Gather(target, a, b, c, d))
  }

  /** What a lane of the three vectors must hold for its record. */
  predicate LaneHolds(raw: AddRecord, ticker: u64, price: u32, shares: u32) {
    ticker == Ticker(raw) && price == Swap32(RawPrice(raw)) && shares == Swap32(RawShares(raw))
  }

  /** The vectors of a block of four records. */
  method LoadBlock(target: Target, block: seq<AddRecord>)
    returns (tickers: seq<u64>, prices: seq<u32>, shares: seq<u32>)
    requires |block| == 4
    ensures |tickers| == |prices| == |shares| == 4
    ensures forall j :: 0 <= j < 4 ==> LaneHolds(block[j], tickers[j], prices[j], shares[j])
  {
    var a, b, c, d := block[0], block[1], block[2], block[3];
    tickers := GatherTickers(target, Ticker(a), Ticker(b), Ticker(c), Ticker(d));
    prices := SwapGathered(target, RawPrice(a), RawPrice(b), RawPrice(c), RawPrice(d));
    shares := SwapGathered(target, RawShares(a), RawShares(b), RawShares(c), RawShares(d));
    forall j | 0 <= j < 4
      ensures LaneHolds(block[j], tickers[j], prices[j], shares[j])
    {
      match j
      case 0 => case 1 => case 2 => case _ =>
    }
  }

  method StoreLane(raw: AddRecord, ticker: u64, price: u32, shares: u32, output: array<Message>, i: nat)
    requires i < output.Length && LaneHolds(raw, ticker, price, shares)
    modifies output
    ensures output[..] == old(output[..])[i := Scalar(raw)]
  {
    output[i] := Message(Add, Word64(raw[11..19]), ticker, price, shares, raw[19] as char, 0);
  }

  /** A block's four stores; `outIdx` runs along with the record index. */
  method DecodeBlock(target: Target, msgs: seq<AddRecord>, i: nat, output: array<Message>, outIdx: nat)
    returns (outIdx': nat)
    requires i + 4 <= |msgs| <= output.Length && outIdx == i
    modifies output
    ensures outIdx' == outIdx + 4
    ensures forall k :: i <= k < i + 4 ==> output[k] == Scalar(msgs[k])
    ensures forall k :: 0 <= k < output.Length && !(i <= k < i + 4) ==> output[k] == old(output[k])
  {
    ghost var before := output[..];
    var block := msgs[i..i + 4];
    var tickers, prices, shares := LoadBlock(target, block);
    var j := 0;
    outIdx' := outIdx;
    while j < 4
      invariant 0 <= j <= 4 && outIdx' == i + j
      invariant forall k :: i <= k < i + j ==> output[k] == Scalar(msgs[k])
      invariant forall k :: 0 <= k < output.Length && !(i <= k < i + j) ==> output[k] == before[k]
    {
      StoreLane(block[j], tickers[j], prices[j], shares[j], output, outIdx');
      assert block[j] == msgs[i + j];
      j, outIdx' := j + 1, outIdx' + 1;
    }
  }

  /** The records left over after the last full block. */
  method DecodeTail(msgs: seq<AddRecord>, start: nat, output: array<Message>, outIdx: nat) returns (outIdx': nat)
    requires start <= |msgs| <= output.Length && outIdx == start
    modifies output
    ensures outIdx' == |msgs|
    ensures forall k :: start <= k < |msgs| ==> output[k] == Scalar(msgs[k])
    ensures forall k :: 0 <= k < output.Length && !(start <= k < |msgs|) ==> output[k] == old(output[k])
  {
    var i := start;
    outIdx' := outIdx;
    while i < |msgs|
      invariant start <= i <= |msgs| && outIdx' == i
      invariant forall k :: start <= k < i ==> output[k] == Scalar(msgs[k])
      invariant forall k :: 0 <= k < output.Length && !(start <= k < i) ==> output[k] == old(output[k])
    {
      StoreLane(msgs[i], Ticker(msgs[i]), Swap32(RawPrice(msgs[i])), Swap32(RawShares(msgs[i])), output, outIdx');
      i, outIdx' := i + 1, outIdx' + 1;
    }
  }

  /** For every batch and target, the block loop and the scalar tail together write each output index once
      with exactly what the scalar handler decodes, and touch nothing beyond. */
  method DecodeAddOrdersSimd(target: Target, msgs: seq<AddRecord>, output: array<Message>) returns (outIdx: nat)
    requires |msgs| <= output.Length
    modifies output
    ensures outIdx == |msgs|
    ensures forall k :: 0 <= k < outIdx ==> output[k] == Scalar(msgs[k])
    ensures forall k :: outIdx <= k < output.Length ==> output[k] == old(output[k])
  {
    var i := 0;
    outIdx := 0;
    if !target.ScalarOnly? {
      while i + 4 <= |msgs|
        invariant 0 <= i <= |msgs| && outIdx == i
        invariant forall k :: 0 <= k < i ==> output[k] == Scalar(msgs[k])
        invariant forall k :: i <= k < output.Length ==> output[k] == old(output[k])
      {
        outIdx := DecodeBlock(target, msgs, i, output, outIdx);
        i := i + 4;
      }
    }
    outIdx := DecodeTail(msgs, i, output, outIdx);
  }
}
