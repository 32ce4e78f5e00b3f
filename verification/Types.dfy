/** Value types shared by every structure of the order book. */
module Types {

  const U64_MAX: int := 0xFFFF_FFFF_FFFF_FFFF

  /** An unsigned 64-bit value; every assignment to one is a proof that nothing overflowed. */
  type u64 = x: int | 0 <= x <= U64_MAX

  /** The address of a pool slot: a page base and a byte offset into that page. */
  datatype Ptr = Null | At(page: nat, offset: nat)

  /** The enumerations also admit the out-of-range values that the code checks for. */
  datatype Side = Buy | Sell | BadSide
  datatype OrderType = Limit | Market | BadType

  /** The address of a price level: which ladder, and which index in it. */
  datatype LevelPtr = NoLevel | Level(side: Side, index: nat)

  datatype Order = Order(
    id: u64, price: u64, original: u64, remaining: u64, timestamp: u64,
    side: Side, kind: OrderType, seqNo: u64,
    next: Ptr, prev: Ptr, level: LevelPtr)
  {
    predicate FullyFilled() { remaining == 0 }

    /** Identity, quantities, temporal fields, side, type and price are all acceptable. */
    predicate WellFormed() {
      && id != 0 && original != 0 && remaining <= original && timestamp != 0 && seqNo != 0
      && (side.Buy? || side.Sell?) && (kind.Limit? || kind.Market?)
      && (kind.Market? || price != 0)
    }

    /** The order without its FIFO links. */
    function Payload(): Order { this.(next := Null, prev := Null, level := NoLevel) }
  }

  /** The exception classes the code throws. */
  datatype Error = InvalidArgument | LogicError | OutOfRange | OverflowError

  datatype Result<+T> = Ok(value: T) | Err(error: Error)

  /** The storage that pool pages hand out: the Order objects that are alive, by address. */
  class OrderMemory {
    var cells: map<Ptr, Order>

    constructor ()
      ensures cells == map[]
    {
      cells := map[];
    }

    /** Decreases the remaining quantity and refuses to go below zero. */
    method ReduceRemaining(p: Ptr, quantity: u64) returns (r: Result<()>)
      requires p in cells
      modifies this
      ensures r == if quantity > old(cells[p].remaining) then Err(InvalidArgument) else Ok(())
      ensures cells == if r.Err? then old(cells)
                       else old(cells)[p := old(cells[p]).(remaining := old(cells[p].remaining) - quantity)]
    {
      if quantity > cells[p].remaining {
        return Err(InvalidArgument);
      }
      cells := cells[p := cells[p].(remaining := cells[p].remaining - quantity)];
      return Ok(());
    }

    /** Replaces the remaining quantity by a nonzero one no greater than the original. */
    method SetRemaining(p: Ptr, quantity: u64) returns (r: Result<()>)
      requires p in cells
      modifies this
      ensures r == if quantity == 0 || quantity > old(cells[p].original) then Err(InvalidArgument) else Ok(())
      ensures cells == if r.Err? then old(cells) else old(cells)[p := old(cells[p]).(remaining := quantity)]
    {
      if quantity == 0 {
        return Err(InvalidArgument);
      }
      if quantity > cells[p].original {
        return Err(InvalidArgument);
      }
      cells := cells[p := cells[p].(remaining := quantity)];
      return Ok(());
    }
  }
}
