/** Little-endian words on byte sequences, and the byte swaps built from them. */
module Bytes {
  import opened Messages

  /** Four digits in base 256, least significant first. */
  function Join(a: int, b: int, c: int, d: int): int {
    a + 0x100 * (b + 0x100 * (c + 0x100 * d))
  }

  function Word32(b: seq<u8>): u32
    requires |b| == 4
  {
    Join(b[0], b[1], b[2], b[3])
  }

  function Bytes32(v: u32): (b: seq<u8>)
    ensures |b| == 4
  {
    [v % 0x100, v / 0x100 % 0x100, v / 0x100 / 0x100 % 0x100, v / 0x100 / 0x100 / 0x100]
  }

  function Reversed(b: seq<u8>): (r: seq<u8>)
    ensures |r| == |b|
  {
    seq(|b|, i requires 0 <= i < |b| => b[|b| - 1 - i])
  }

  lemma WordOfBytes(v: u32)
    ensures Word32(Bytes32(v)) == v
  {
    var hi := v / 0x100;
    assert hi / 0x100 % 0x100 + 0x100 * (hi / 0x100 / 0x100) == hi / 0x100;
  }

  lemma BytesOfWord(b: seq<u8>)
    requires |b| == 4
    ensures Bytes32(Word32(b)) == b
  {
    var top: int := b[2] as int + 0x100 * b[3] as int;
    var hi: int := b[1] as int + 0x100 * top;
    Digit(b[3], b[2]);
    Digit(top, b[1]);
    Digit(hi, b[0]);
  }

  lemma Digit(q: nat, r: u8)
    ensures (r as int + 0x100 * q) / 0x100 == q && (r as int + 0x100 * q) % 0x100 == r
  {
  }

  lemma ReversedTwice(b: seq<u8>)
    ensures Reversed(Reversed(b)) == b
  {
  }

  /** `__builtin_bswap32` on a little-endian host. */
  function Swap32(v: u32): u32 {
    Word32(Reversed(Bytes32(v)))
  }

  /** Swapping twice restores the word. */
  lemma Swap32Involution(v: u32)
    ensures Swap32(Swap32(v)) == v
  {
    BytesOfWord(Reversed(Bytes32(v)));
    ReversedTwice(Bytes32(v));
    WordOfBytes(v);
  }

  /** The swap of a loaded word is the big-endian reading of its bytes. */
  lemma SwapReadsBigEndian(b: seq<u8>)
    requires |b| == 4
    ensures Swap32(Word32(b)) == Join(b[3], b[2], b[1], b[0])
  {
    BytesOfWord(b);
  }

  function Word64(b: seq<u8>): u64
    requires |b| == 8
  {
    Word32(b[..4]) + 0x1_0000_0000 * Word32(b[4..])
  }

  function Bytes64(v: u64): (b: seq<u8>)
    ensures |b| == 8
  {
    Bytes32(v % 0x1_0000_0000) + Bytes32(v / 0x1_0000_0000)
  }

  lemma HalfWords(hi: u32, lo: u32)
    ensures (lo as int + 0x1_0000_0000 * hi as int) % 0x1_0000_0000 == lo
    ensures (lo as int + 0x1_0000_0000 * hi as int) / 0x1_0000_0000 == hi
  {
  }

  lemma HalfBytes(v: u64, hi: u32, lo: u32)
    requires v % 0x1_0000_0000 == lo && v / 0x1_0000_0000 == hi
    ensures Bytes64(v) == Bytes32(lo) + Bytes32(hi)
  {
  }

  lemma BytesOfWord64(b: seq<u8>)
    requires |b| == 8
    ensures Bytes64(Word64(b)) == b
  {
    var lo, hi := Word32(b[..4]), Word32(b[4..]);
    BytesOfWord(b[..4]);
    BytesOfWord(b[4..]);
    HalfWords(hi, lo);
    HalfBytes(Word64(b), hi, lo);
    assert b == b[..4] + b[4..];
  }

  lemma WordOfBytes64(v: u64)
    ensures Word64(Bytes64(v)) == v
  {
    WordOfBytes(v % 0x1_0000_0000);
    WordOfBytes(v / 0x1_0000_0000);
    assert Bytes64(v)[..4] == Bytes32(v % 0x1_0000_0000);
    assert Bytes64(v)[4..] == Bytes32(v / 0x1_0000_0000);
  }

  function Swap64(v: u64): u64 {
    Word64(Reversed(Bytes64(v)))
  }

  // ---- big-endian encoding, as ITCH 5.0 specifies for every integer field ----

  function Big16(v: nat): (b: seq<u8>)
    requires v < 0x1_0000
    ensures |b| == 2
  {
    [v / 0x100, v % 0x100]
  }

  function Big32(v: u32): (b: seq<u8>)
    ensures |b| == 4
  {
    Reversed(Bytes32(v))
  }

  function Big64(v: u64): (b: seq<u8>)
    ensures |b| == 8
  {
    Reversed(Bytes64(v))
  }

  /** A 32-bit field written big-endian is read back by load and swap. */
  lemma Big32Read(v: u32)
    ensures Swap32(Word32(Big32(v))) == v
  {
    Swap32Involution(v);
  }

  /** A 64-bit field written big-endian and only loaded comes back byte-swapped: unchanged
      exactly when its bytes read the same both ways. */
  lemma Big64Read(v: u64)
    ensures Word64(Big64(v)) == Swap64(v)
    ensures Swap64(v) == v <==> Reversed(Bytes64(v)) == Bytes64(v)
    ensures Swap64(Swap64(v)) == v
  {
    BytesOfWord64(Reversed(Bytes64(v)));
    ReversedTwice(Bytes64(v));
    WordOfBytes64(v);
  }
}
