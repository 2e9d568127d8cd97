/** Decimal rendering of unsigned and signed numbers as ASCII bytes.

    `Digits` is what `numtoa` and `write!("{}")` produce; `NumToA` is
    numtoa's placement (right-aligned, ending at a given column, touching
    nothing else); `ZeroPadded` is the fixed-width reference reading used by
    the clock and the heading labels. */
module Decimal {
  import opened Grid

  const ZERO: Byte := 48

  const MINUS: Byte := 45

  predicate IsDigit(b: int) {
    48 <= b <= 57
  }

  predicate AllDigits(s: seq<Byte>) {
    forall i | 0 <= i < |s| :: IsDigit(s[i])
  }

  function Pow10(k: nat): (p: nat)
    ensures p >= 1
  {
    if k == 0 then 1 else 10 * Pow10(k - 1)
  }

  /** The shortest decimal spelling of `n`: no leading zero except "0". */
  function Digits(n: nat): (s: seq<Byte>)
    ensures |s| >= 1
    ensures AllDigits(s)
    ensures |s| > 1 ==> s[0] != ZERO
    decreases n
  {
    if n < 10 then [ZERO + n] else Digits(n / 10) + [ZERO + n % 10]
  }

  /** Reads a string of decimal digits back as a number. */
  function Value(s: seq<Byte>): nat
    requires AllDigits(s)
  {
    if |s| == 0 then 0 else Value(s[..|s| - 1]) * 10 + (s[|s| - 1] - ZERO)
  }

  /** Reading the digits of `n` gives back `n`. */
  lemma {:induction false} ValueOfDigits(n: nat)
    ensures Value(Digits(n)) == n
    decreases n
  {
    if n >= 10 {
      var s := Digits(n);
      assert s[..|s| - 1] == Digits(n / 10);
      ValueOfDigits(n / 10);
    }
  }

  /** `n` needs at most `k` digits exactly when it is below 10^k. */
  lemma {:induction false} DigitsFit(n: nat, k: nat)
    requires k >= 1
    ensures |Digits(n)| <= k <==> n < Pow10(k)
    decreases n
  {
    if n >= 10 {
      if k == 1 {
        assert |Digits(n)| >= 2;
      } else {
        DigitsFit(n / 10, k - 1);
      }
    } else if k > 1 {
      assert Pow10(k) == 10 * Pow10(k - 1);
    }
  }

  /** `numtoa` writing `n` into `row[..end]`: its digits end at column `end`
      and no other cell changes. */
  function NumToA(row: Row, end: nat, n: nat): (r: Row)
    requires |Digits(n)| <= end <= |row|
    ensures Overlaid(r, row, end - |Digits(n)|, Digits(n))
    ensures |r| == |row|
    ensures r[end - |Digits(n)|..end] == Digits(n)
    ensures forall i | 0 <= i < end - |Digits(n)| :: r[i] == row[i]
    ensures forall i | end <= i < |row| :: r[i] == row[i]
  {
    Blit(row, end - |Digits(n)|, Digits(n))
  }

  /** Rust's `{:0w}`: the digits of `n`, left-padded with '0' to width `w`. */
  function ZeroFill(n: nat, w: nat): (s: seq<Byte>)
    ensures |s| == if |Digits(n)| < w then w else |Digits(n)|
  {
    var d := Digits(n);
    if |d| < w then seq(w - |d|, _ => ZERO) + d else d
  }

  /** The last `w` decimal digits of `n`, most significant first. */
  function ZeroPadded(n: nat, w: nat): (s: seq<Byte>)
    ensures |s| == w
    ensures AllDigits(s)
  {
    if w == 0 then [] else ZeroPadded(n / 10, w - 1) + [ZERO + n % 10]
  }

  /** Reading a zero-padded field gives `n` back when it fits. */
  lemma {:induction false} ValueOfZeroPadded(n: nat, w: nat)
    requires n < Pow10(w)
    ensures Value(ZeroPadded(n, w)) == n
    decreases w
  {
    if w > 0 {
      var s := ZeroPadded(n, w);
      assert s[..w - 1] == ZeroPadded(n / 10, w - 1);
      ValueOfZeroPadded(n / 10, w - 1);
    }
  }

  /** Writing `n` with numtoa over a field pre-filled with '0' (what the
      heading labels and the waypoint clock do), and Rust's `{:0w}`, both
      yield the zero-padded fixed-width field. */
  lemma NumToAOverZeros(n: nat, w: nat)
    requires w >= 1 && n < Pow10(w)
    ensures |Digits(n)| <= w
    ensures NumToA(seq(w, _ => ZERO), w, n) == ZeroPadded(n, w)
    ensures ZeroFill(n, w) == ZeroPadded(n, w)
  {
    DigitsFit(n, w);
    var d := Digits(n);
    var zeros := seq(w, _ => ZERO);
    assert NumToA(zeros, w, n) == seq(w - |d|, _ => ZERO) + d by {
      assert zeros[..w - |d|] == seq(w - |d|, _ => ZERO);
      assert zeros[w..] == [];
    }
    ZerosThenDigits(n, w);
  }

  /** numtoa over a field of `w` '0' cells ending at column `end`: the
      field becomes the zero-padded `n`, whatever the rest of the row holds. */
  lemma NumToAOverZeroField(row: Row, end: nat, w: nat, n: nat)
    requires w >= 1 && n < Pow10(w) && w <= end <= |row|
    requires forall i | end - w <= i < end :: row[i] == ZERO
    ensures |Digits(n)| <= w
    ensures NumToA(row, end, n)[end - w..end] == ZeroPadded(n, w)
  {
    DigitsFit(n, w);
    var d := Digits(n);
    var r := NumToA(row, end, n);
    ZerosThenDigits(n, w);
    var z := seq(w - |d|, _ => ZERO) + d;
    forall i | 0 <= i < w
      ensures r[end - w + i] == z[i]
    {
      if i >= w - |d| {
        assert r[end - w + i] == r[end - |d|..end][i - (w - |d|)];
      }
    }
    assert r[end - w..end] == z;
  }

  /** Left-padding the digits of `n` with '0' to width `w` is the
      zero-padded field of `n`. */
  lemma {:induction false} ZerosThenDigits(n: nat, w: nat)
    requires |Digits(n)| <= w
    ensures seq(w - |Digits(n)|, _ => ZERO) + Digits(n) == ZeroPadded(n, w)
    decreases w
  {
    var d := Digits(n);
    if n < 10 {
      AllZeroPadded(w - 1);
      assert ZeroPadded(n, w) == ZeroPadded(0, w - 1) + [ZERO + n];
    } else {
      var d' := Digits(n / 10);
      ZerosThenDigits(n / 10, w - 1);
      assert d == d' + [ZERO + n % 10];
      assert seq(w - |d|, _ => ZERO) == seq((w - 1) - |d'|, _ => ZERO);
    }
  }

  /** A zero-padded field of zero is all '0'. */
  lemma {:induction false} AllZeroPadded(w: nat)
    ensures ZeroPadded(0, w) == seq(w, _ => ZERO)
  {
    if w > 0 {
      AllZeroPadded(w - 1);
    }
  }

  /** The spelling of a signed number: a '-' then the digits of its magnitude. */
  function SignedDigits(v: int): (s: seq<Byte>)
    ensures |s| >= 1
    ensures v >= 0 ==> AllDigits(s)
    ensures v < 0 ==> s[0] == MINUS && AllDigits(s[1..])
  {
    if v < 0 then [MINUS] + Digits(-v) else Digits(v)
  }

  /** Reading a signed spelling gives `v` back. */
  lemma SignedDigitsRoundTrip(v: int)
    ensures v >= 0 ==> Value(SignedDigits(v)) == v
    ensures v < 0 ==> Value(SignedDigits(v)[1..]) == -v
  {
    if v < 0 {
      assert SignedDigits(v)[1..] == Digits(-v);
      ValueOfDigits(-v);
    } else {
      ValueOfDigits(v);
    }
  }

  /** Every i16 value, the sentinel included, spells in at most six bytes. */
  lemma SignedDigitsOfI16(v: int)
    requires -32768 <= v <= 32767
    ensures |SignedDigits(v)| <= 6
  {
    if v < 0 {
      DigitsFit(-v, 5);
    } else {
      DigitsFit(v, 5);
    }
  }
}
