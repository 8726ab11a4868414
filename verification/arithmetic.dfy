/** Small facts about Rust's unsigned division, kept apart so that their
    proofs see no other definitions, and `min`/`max` on unsigned numbers. */
module Arithmetic {
  function Min(a: nat, b: nat): nat {
    if a <= b then a else b
  }

  function Max(a: nat, b: nat): nat {
    if a >= b then a else b
  }

  lemma DivIsNat(x: nat, y: nat)
    requires y > 0
    ensures 0 <= x / y <= x
  {
    var q := x / y;
    var r := x % y;
    assert x == y * q + r && 0 <= r < y;
    if q < 0 {
      MulNegative(y, q);
    } else if q > x {
      MulAtLeast(q, y, 1);
    }
  }

  lemma MulNegative(y: nat, q: int)
    requires y > 0 && q < 0
    ensures y * q <= -(y as int)
  {
  }

  lemma MulAtLeast(b: nat, q: int, m: nat)
    requires q >= m
    ensures b * q >= b * m
  {
  }

  lemma PercentBelow(a: nat, b: nat)
    requires a < b
    ensures a * 100 / b < 100
  {
    var q := a * 100 / b;
    assert a * 100 == b * q + (a * 100) % b;
    if q >= 100 {
      MulAtLeast(b, q, 100);
    }
  }

  lemma PercentAtMost(a: nat, b: nat)
    requires 0 < b && a <= b
    ensures a * 100 / b <= 100
  {
    var q := a * 100 / b;
    assert a * 100 == b * q + (a * 100) % b;
    if q > 100 {
      MulAtLeast(b, q, 101);
    }
  }

  /** Division with remainder is unique. */
  lemma ModUnique(a: nat, count: nat, q: int, r: nat)
    requires count > 0 && r < count && a == count * q + r
    ensures a % count == r
  {
    var q2 := a / count;
    var r2 := a % count;
    assert a == count * q2 + r2;
    assert count * (q - q2) == r2 - r;
    if q > q2 {
      MulAtLeast(count, q - q2, 1);
    } else if q < q2 {
      MulAtLeast(count, q2 - q, 1);
    }
  }

  /** Adding one to a number adds one to its remainder, wrapping at `count`. */
  lemma ModSuccessor(a: nat, count: nat)
    requires count > 0
    ensures (a % count + 1) % count == (a + 1) % count
  {
    var q := a / count;
    var r := a % count;
    assert a == count * q + r;
    if r + 1 < count {
      ModUnique(a + 1, count, q, r + 1);
      ModUnique(r + 1, count, 0, r + 1);
    } else {
      ModUnique(a + 1, count, q + 1, 0);
      ModUnique(r + 1, count, 1, 0);
    }
  }
}
