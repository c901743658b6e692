// Market messages and orders, with the integer widths of the C++ structs.
module Market {
  const TWO32 := 0x1_0000_0000
  const TWO64 := 0x1_0000_0000_0000_0000

  type uint32 = x: int | 0 <= x < 0x1_0000_0000
  type uint64 = x: int | 0 <= x < 0x1_0000_0000_0000_0000
  type int64 = x: int | -0x8000_0000_0000_0000 <= x < 0x8000_0000_0000_0000

  datatype Option<+T> = None | Some(value: T)

  datatype Side = Buy | Sell

  datatype MessageType = Add | Modify | Cancel | Trade

  datatype MarketMessage = MarketMessage(
    sequenceNumber: uint64,
    timestampNs: uint64,
    orderId: uint64,
    price: int64,
    quantity: uint32,
    side: Side,
    kind: MessageType,
    symbol: string)

  datatype Order = Order(id: uint64, price: int64, quantity: uint32, side: Side)

  datatype PriceLevel = PriceLevel(price: int64, orderIds: seq<uint64>, total: uint32)

  function OrderOf(m: MarketMessage): Order {
    Order(m.orderId, m.price, m.quantity, m.side)
  }

  // uint64 subtraction.
  function Minus64(a: nat, b: nat): nat {
    (a - b) % TWO64
  }

  lemma Sub64Exact(a: nat, b: nat)
    requires b <= a < TWO64
    ensures Minus64(a, b) == a - b
  {}
}
