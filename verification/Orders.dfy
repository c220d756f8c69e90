/** Values shared by every part of the matching core. */
module Orders {
  /** Highest price level of the book; level indices run from 0 to this, inclusive. */
  const MAX_PRICE_TICKS: nat := 1_000_000

  /** Capacity of the execution queue and of the garbage queue. */
  const QUEUE_CAPACITY: nat := 10_000

  const UINT32_MODULUS: nat := 0x1_0000_0000

  const BUY: UInt8 := 0
  const SELL: UInt8 := 1

  type UInt8 = x: int | 0 <= x < 0x100
  type UInt32 = x: int | 0 <= x < 0x1_0000_0000
  type UInt64 = x: int | 0 <= x < 0x1_0000_0000_0000_0000

  /** What an order says at one moment, without its list pointers. */
  datatype Quote = Quote(id: nat, trader: nat, side: nat, price: nat, quantity: nat)

  datatype Trade = Trade(maker: nat, taker: nat, price: nat, quantity: nat)

  function Min(a: int, b: int): (r: int) {
    if a <= b then a else b
  }

  function Max(a: int, b: int): (r: int) {
    if a <= b then b else a
  }

  /** Sum of a weight over one price level. */
  function Weigh(w: Quote -> nat, level: seq<Quote>): nat {
    if level == [] then 0 else w(level[0]) + Weigh(w, level[1..])
  }

  /** Sum of a weight over the whole level array. */
  function WeighAll(w: Quote -> nat, levels: seq<seq<Quote>>): nat {
    if levels == [] then 0 else Weigh(w, levels[0]) + WeighAll(w, levels[1..])
  }

  const OPEN_QUANTITY: Quote -> nat := (q: Quote) => q.quantity
  const ONE: Quote -> nat := (q: Quote) => 1

  function OpenQuantity(levels: seq<seq<Quote>>): nat { WeighAll(OPEN_QUANTITY, levels) }

  function RestingCount(levels: seq<seq<Quote>>): nat { WeighAll(ONE, levels) }

  function TradedQuantity(trades: seq<Trade>): nat {
    if trades == [] then 0 else trades[0].quantity + TradedQuantity(trades[1..])
  }

  lemma {:induction false} WeighAppend(w: Quote -> nat, a: seq<Quote>, b: seq<Quote>)
    ensures Weigh(w, a + b) == Weigh(w, a) + Weigh(w, b)
  {
    if a == [] {
      assert a + b == b;
    } else {
      WeighAppend(w, a[1..], b);
      assert (a + b)[1..] == a[1..] + b;
    }
  }

  /** Replacing one level changes the total by the difference of that level alone. */
  lemma {:induction false} WeighUpdate(w: Quote -> nat, levels: seq<seq<Quote>>, p: nat, level: seq<Quote>)
    requires p < |levels|
    ensures WeighAll(w, levels[p := level]) + Weigh(w, levels[p]) == WeighAll(w, levels) + Weigh(w, level)
  {
    if p == 0 {
      assert levels[0 := level][1..] == levels[1..];
    } else {
      WeighUpdate(w, levels[1..], p - 1, level);
      assert levels[p := level][1..] == levels[1..][p - 1 := level];
    }
  }

  lemma {:induction false} WeighEmpty(w: Quote -> nat, n: nat)
    ensures WeighAll(w, seq(n, _ => [])) == 0
  {
    if n > 0 {
      WeighEmpty(w, n - 1);
      assert seq<seq<Quote>>(n, _ => [])[1..] == seq(n - 1, _ => []);
    }
  }

  lemma {:induction false} CountIsLength(level: seq<Quote>)
    ensures Weigh(ONE, level) == |level|
  {
    if level != [] { CountIsLength(level[1..]); }
  }
}
