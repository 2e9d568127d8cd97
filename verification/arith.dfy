/** Integer helpers shared by every widget.

    The widgets compute with Rust's `isize`/`usize`, whose `/` and `%`
    truncate toward zero. Dafny's `/` and `%` are Euclidean, so every
    division that may see a negative operand goes through `TDiv`/`TRem`. */
module Arith {

  function Abs(a: int): nat {
    if a < 0 then -a else a
  }

  /** Division truncating toward zero, as Rust's `/` on signed integers:
      the magnitude is the Euclidean quotient of the magnitudes and the sign
      is negative exactly when the operands' signs differ. */
  function TDiv(a: int, b: int): (q: int)
    requires b != 0
    ensures Abs(q) == Abs(a) / Abs(b)
    ensures q > 0 ==> (a > 0) == (b > 0)
    ensures q < 0 ==> (a > 0) != (b > 0)
  {
    var n := Abs(a);
    var d := Abs(b);
    DivNonNeg(n, d);
    var m := n / d;
    if (a >= 0) == (b > 0) then m else -m
  }

  lemma DivNonNeg(n: nat, d: nat)
    requires d > 0
    ensures n / d >= 0
    ensures n == 0 ==> n / d == 0
  {
  }

  /** Remainder of `TDiv`, as Rust's `%` on signed integers: together with
      `TDiv` it splits the dividend, it is smaller than the divisor, and it
      takes the sign of the dividend. */
  function TRem(a: int, b: int): (r: int)
    requires b != 0
    ensures a == TDiv(a, b) * b + r
    ensures Abs(r) < Abs(b)
    ensures a >= 0 ==> r >= 0
    ensures a <= 0 ==> r <= 0
  {
    var q := TDiv(a, b);
    AbsMul(q, b);
    DivBounds(Abs(a), Abs(b));
    a - q * b
  }

  lemma AbsMul(a: int, b: int)
    ensures Abs(a * b) == Abs(a) * Abs(b)
  {
    if a < 0 && b < 0 {
      NegNeg(a, b);
    } else if a < 0 {
      NegLeft(a, b);
    } else if b < 0 {
      NegLeft(b, a);
    }
  }

  lemma NegNeg(a: int, b: int)
    ensures a * b == (-a) * (-b)
  {
  }

  lemma NegLeft(a: int, b: int)
    ensures -(a * b) == (-a) * b
    ensures b * a == a * b
  {
  }

  lemma MulLeft(a: int, b: int, d: int)
    ensures a * d - b * d == (a - b) * d
  {
  }

  lemma MulAtLeast(k: int, d: int)
    requires k >= 1 && d > 0
    ensures k * d >= d
  {
  }

  /** A product with a non-negative factor has the sign of the other. */
  lemma MulSign(a: int, n: nat)
    ensures a >= 0 ==> a * n >= 0
    ensures a <= 0 ==> a * n <= 0
  {
    if a > 0 {
      MulMonotone(0, a, n);
    } else if a < 0 {
      MulMonotone(a, 0, n);
    }
  }

  lemma MulMonotone(a: int, b: int, d: int)
    requires a <= b && d >= 0
    ensures a * d <= b * d
  {
  }

  lemma DivBounds(a: nat, b: nat)
    requires b > 0
    ensures (a / b) * b <= a < (a / b) * b + b
  {
    var q := a / b;
    var r := a % b;
    assert a == q * b + r;
  }

  /** Euclidean division is determined by the division identity. */
  lemma DivUnique(n: int, d: int, q: int, r: int)
    requires d > 0 && 0 <= r < d && n == q * d + r
    ensures n / d == q
  {
    var q' := n / d;
    var r' := n % d;
    assert n == q' * d + r';
    MulLeft(q, q', d);
    MulLeft(q', q, d);
    if q' < q {
      MulAtLeast(q - q', d);
    } else if q' > q {
      MulAtLeast(q' - q, d);
    }
  }

  /** On non-negative operands truncation and Euclidean division agree. */
  lemma TDivNonNeg(a: int, b: int)
    requires a >= 0 && b > 0
    ensures TDiv(a, b) == a / b
    ensures TRem(a, b) == a % b
  {
    DivBounds(a, b);
    assert a == (a / b) * b + a % b;
  }

  /** Truncating division is odd in its dividend; Euclidean division is not. */
  lemma TDivNeg(a: int, b: int)
    requires b != 0
    ensures TDiv(-a, b) == -TDiv(a, b)
  {
  }

  /** Truncation by a positive divisor never increases the magnitude. */
  lemma TDivShrinks(a: int, b: int)
    requires b >= 1
    ensures Abs(TDiv(a, b)) <= Abs(a)
  {
    DivBounds(Abs(a), b);
    MulMonotone(1, b, Abs(a) / b);
    NegLeft(Abs(a) / b, b);
  }

  /** Two truncating divisions in a row are one division by the product. */
  lemma TDivTwice(a: int, b: int, c: int)
    requires b > 0 && c > 0
    ensures TDiv(TDiv(a, b), c) == TDiv(a, b * c)
  {
    var n := Abs(a);
    NatDivTwice(n, b, c);
    assert b * c > 0 by { MulAtLeast(b, c); }
    if a >= 0 {
      TDivNonNeg(a, b);
      TDivNonNeg(a / b, c);
      TDivNonNeg(a, b * c);
    } else {
      TDivNeg(n, b);
      TDivNonNeg(n, b);
      TDivNeg(n / b, c);
      TDivNonNeg(n / b, c);
      TDivNeg(n, b * c);
      TDivNonNeg(n, b * c);
    }
  }

  lemma NatDivTwice(n: nat, b: nat, c: nat)
    requires b > 0 && c > 0
    ensures n / b / c == n / (b * c)
  {
    var q := n / b;
    var r := n % b;
    var q2 := q / c;
    var r2 := q % c;
    assert n == q * b + r;
    assert q == q2 * c + r2;
    Regroup(q2, c, r2, b, r);
    MulMonotone(r2, c - 1, b);
    MulLeft(c, 1, b);
    NegLeft(c, b);
    assert b * c > 0 by { MulAtLeast(b, c); }
    DivUnique(n, b * c, q2, r2 * b + r);
  }

  lemma Regroup(q2: int, c: int, r2: int, b: int, r: int)
    ensures (q2 * c + r2) * b + r == q2 * (b * c) + (r2 * b + r)
  {
  }

  /** Truncating division by a positive divisor is monotone. */
  lemma TDivMonotone(a1: int, a2: int, b: int)
    requires a1 <= a2 && b > 0
    ensures TDiv(a1, b) <= TDiv(a2, b)
  {
    if a1 >= 0 {
      TDivNonNeg(a1, b);
      TDivNonNeg(a2, b);
      NatDivMonotone(a1, a2, b);
    } else if a2 <= 0 {
      TDivNeg(-a1, b);
      TDivNeg(-a2, b);
      TDivNonNeg(-a1, b);
      TDivNonNeg(-a2, b);
      NatDivMonotone(-a2, -a1, b);
    } else {
      TDivNonNeg(a2, b);
    }
  }

  lemma NatDivMonotone(a1: nat, a2: nat, b: nat)
    requires a1 <= a2 && b > 0
    ensures a1 / b <= a2 / b
  {
    DivBounds(a1, b);
    DivBounds(a2, b);
    if a1 / b > a2 / b {
      MulMonotone(a2 / b + 1, a1 / b, b);
    }
  }

  /** Clamps `v` into the index range `[0, n - 1]` of a buffer of length `n`. */
  function Clamp(v: int, n: int): (r: int)
    requires n >= 1
    ensures 0 <= r < n
    ensures 0 <= v < n ==> r == v
  {
    if v < 0 then 0 else if v >= n then n - 1 else v
  }

  /** Clamping keeps the order of its inputs. */
  lemma ClampMonotone(v1: int, v2: int, n: int)
    requires n >= 1 && v1 <= v2
    ensures Clamp(v1, n) <= Clamp(v2, n)
  {
  }
}
