/** Arithmetic of ring slots, shared by every ring buffer: slot `k % n` of ticket `k`. */
module Rings {
  lemma SmallMultiple(n: int, d: int)
    requires n > 0
    ensures d > 0 ==> n * d >= n
    ensures d < 0 ==> n * d <= -n
  {
  }

  lemma Remainder(y: int, n: int, a: int, r: int)
    requires n > 0 && y == n * a + r && 0 <= r < n
    ensures y % n == r
  {
    assert y == n * (y / n) + y % n;
    assert n * (y / n - a) == r - y % n;
    SmallMultiple(n, y / n - a);
  }

  lemma ModAdd(x: int, n: int, q: int)
    requires n > 0
    ensures (x + n * q) % n == x % n
  {
    assert x == n * (x / n) + x % n;
    assert x + n * q == n * (x / n + q) + x % n;
    Remainder(x + n * q, n, x / n + q, x % n);
  }

  /** Two tickets of one window never share a slot. */
  lemma SameSlot(n: nat, low: nat, a: nat, b: nat)
    requires n > 0 && low <= a < low + n && low <= b < low + n && a % n == b % n
    ensures a == b
  {
    assert a == n * (a / n) + a % n && b == n * (b / n) + b % n;
    assert a - b == n * (a / n - b / n);
    SmallMultiple(n, a / n - b / n);
  }

  /** A ticket of the window below `t <= low + n` with the slot of `t` is the oldest, a full lap behind. */
  lemma OneLapBehind(n: nat, low: nat, k: nat, t: nat)
    requires n > 0 && low <= k < t <= low + n && k % n == t % n
    ensures k == low && t == low + n
  {
    if t < low + n {
      SameSlot(n, low, k, t);
    } else {
      ModAdd(low, n, 1);
      SameSlot(n, low, k, low);
    }
  }

  /** Every slot belongs to some ticket of the window. */
  lemma SlotTicket(n: nat, low: nat, t: nat) returns (k: nat)
    requires n > 0
    ensures low <= k < low + n && k % n == t % n
  {
    var d := t - low;
    k := low + d % n;
    assert d == n * (d / n) + d % n;
    ModAdd(k, n, d / n);
    assert k + n * (d / n) == t;
  }

  /** The last of the first `count` tickets that shares the slot of ticket `r`. */
  function Newest(count: int, r: int, n: int): int
    requires n > 0
  {
    r + n * ((count - 1 - r) / n)
  }

  lemma NewestTicket(count: int, r: int, n: int)
    requires n > 0 && r < count
    ensures r <= Newest(count, r, n) < count <= Newest(count, r, n) + n
    ensures Newest(count, r, n) % n == r % n
    ensures Newest(count, r, n) == r <==> count <= r + n
  {
    var d := count - 1 - r;
    assert d == n * (d / n) + d % n;
    ModAdd(r, n, d / n);
    SmallMultiple(n, d / n);
  }
}
