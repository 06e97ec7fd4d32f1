/** The ring capacity and the slot index of a position.
    `next_pow2` rounds the requested capacity up to a power of two, so that the
    slot of a position can be computed as `pos & (capacity - 1)`. */
module RingIndex {

  ghost function Pow2(k: nat): (p: nat)
    ensures p >= 1
  {
    if k == 0 then 1 else 2 * Pow2(k - 1)
  }

  lemma {:induction false} Pow2Monotone(j: nat, k: nat)
    requires j < k
    ensures 2 * Pow2(j) <= Pow2(k)
    decreases k
  {
    if j < k - 1 {
      Pow2Monotone(j, k - 1);
    }
  }

  /** `next_pow2`: the least power of two that is at least the argument. */
  method NextPow2(n: nat) returns (p: nat)
    ensures n <= p
    ensures exists k: nat :: p == Pow2(k)
    ensures forall k: nat :: n <= Pow2(k) ==> p <= Pow2(k)
  {
    if n <= 1 {
      assert Pow2(0) == 1;
      return 1;
    }
    p := 2;
    ghost var e := 1;
    assert Pow2(1) == 2 * Pow2(0);
    while p < n
      invariant e >= 1 && p == Pow2(e) && Pow2(e - 1) < n
      decreases n - p
    {
      p := 2 * p;
      e := e + 1;
    }
    forall k: nat | n <= Pow2(k)
      ensures p <= Pow2(k)
    {
      if k < e {
        if k < e - 1 {
          Pow2Monotone(k, e - 1);
        }
        assert false;
      } else if e < k {
        Pow2Monotone(e, k);
      }
    }
  }

  /** Bitwise conjunction of two naturals, bit by bit from the lowest. */
  function BitAnd(a: nat, b: nat): nat
  {
    if a == 0 || b == 0 then 0
    else (if a % 2 == 1 && b % 2 == 1 then 1 else 0) + 2 * BitAnd(a / 2, b / 2)
  }

  /** The only multiple of b strictly between -b and b is zero. */
  lemma MultipleBelow(d: int, b: int)
    requires b > 0
    ensures -b < d * b < b ==> d == 0
  {
    assert d >= 1 ==> d * b >= b;
    assert d <= -1 ==> d * b <= -b;
  }

  /** A nonnegative remainder and its quotient are determined by the dividend. */
  lemma DivModUnique(a: int, b: int, q: int, r: int)
    requires b > 0 && 0 <= r < b && a == q * b + r
    ensures a / b == q && a % b == r
  {
    var q', r' := a / b, a % b;
    assert (q - q') * b == r' - r;
    MultipleBelow(q - q', b);
  }

  lemma ModDouble(pos: nat, h: nat)
    requires h > 0
    ensures pos % (2 * h) == pos % 2 + 2 * ((pos / 2) % h)
  {
    var half := pos / 2;
    var q, r := half / h, half % h;
    assert half == q * h + r;
    assert q * (2 * h) == 2 * (q * h);
    DivModUnique(pos, 2 * h, q, 2 * r + pos % 2);
  }

  /** Masking a position with `capacity - 1` is its remainder modulo the capacity. */
  lemma {:induction false} MaskIsModulo(pos: nat, k: nat)
    ensures BitAnd(pos, Pow2(k) - 1) == pos % Pow2(k)
    decreases k
  {
    if k == 0 {
    } else {
      var h := Pow2(k - 1);
      MaskIsModulo(pos / 2, k - 1);
      ModDouble(pos, h);
      assert BitAnd(pos, 2 * h - 1) == pos % 2 + 2 * BitAnd(pos / 2, h - 1) by {
        assert (2 * h - 1) / 2 == h - 1 && (2 * h - 1) % 2 == 1;
      }
    }
  }

  /** Two positions inside one window of `cap` positions never share a slot. */
  lemma SameSlotInWindow(low: nat, a: nat, b: nat, cap: nat)
    requires cap > 0 && low <= a < low + cap && low <= b < low + cap
    requires a % cap == b % cap
    ensures a == b
  {
    var qa, qb := a / cap, b / cap;
    assert a - b == (qa - qb) * cap;
    MultipleBelow(qa - qb, cap);
  }
}
