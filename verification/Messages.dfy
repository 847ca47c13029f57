/** Machine words, the decoded order message and the per-order record, as in
    include/itch_messages.h and include/order_book.h. */
module Messages {

  const U32: int := 0x1_0000_0000

  type u8 = x: int | 0 <= x < 0x100
  type u32 = x: int | 0 <= x < 0x1_0000_0000
  type u64 = x: int | 0 <= x < 0x1_0000_0000_0000_0000

  /** The order reference written into an erased slot. */
  const TOMBSTONE: u64 := 0xFFFF_FFFF_FFFF_FFFF

  /** A hash is any total function: only determinism matters to the model. */
  type Hash = u64 -> nat

  datatype Option<+T> = None | Some(value: T)

  datatype Kind = Add | Execute | Delete | Replace

  datatype Message = Message(
    kind: Kind, ref: u64, ticker: u64, price: u32, shares: u32, side: char, newRef: u64)

  datatype LiveOrder = LiveOrder(ref: u64, price: u32, remaining: u32, side: char, occupied: bool)

  /** What a live order means, away from the slot that stores it. */
  datatype Order = Order(side: char, price: u32, remaining: u32)
}
