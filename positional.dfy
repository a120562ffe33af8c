/** Fixed-width positional notation in an arbitrary base, most significant
    digit first. Base 256 gives big-endian byte strings, base 85 the digit
    groups of base85 text and base 10 decimal text. */
module Positional {

  function Pow(base: nat, k: nat): nat
  {
    if k == 0 then 1 else base * Pow(base, k - 1)
  }

  /** The `width` lowest digits of `n`, most significant first. */
  function Digits(base: nat, n: nat, width: nat): (ds: seq<nat>)
    requires base >= 2
    ensures |ds| == width
    ensures forall i :: 0 <= i < width ==> ds[i] < base
  {
    if width == 0 then [] else Digits(base, n / base, width - 1) + [n % base]
  }

  /** The number a digit string denotes. */
  function FromDigits(base: nat, ds: seq<nat>): nat
  {
    if ds == [] then 0 else FromDigits(base, ds[..|ds| - 1]) * base + ds[|ds| - 1]
  }

  ghost predicate AllBelow(base: nat, ds: seq<nat>)
  {
    forall i :: 0 <= i < |ds| ==> ds[i] < base
  }

  lemma {:induction false} PowPositive(base: nat, k: nat)
    requires base >= 1
    ensures Pow(base, k) >= 1
  {
    if k > 0 {
      PowPositive(base, k - 1);
      assert Pow(base, k) == base * Pow(base, k - 1);
    }
  }

  lemma {:induction false} PowAdd(base: nat, a: nat, b: nat)
    ensures Pow(base, a + b) == Pow(base, a) * Pow(base, b)
  {
    if b > 0 {
      PowAdd(base, a, b - 1);
      MulRotate(base, Pow(base, a), Pow(base, b - 1));
    }
  }


  lemma MulRotate(a: int, b: int, c: int)
    ensures a * (b * c) == b * (a * c)
  {
  }

  /** Multiplication by a natural number is monotone. */
  lemma MulMonotone(a: nat, b: nat, c: nat)
    requires a <= b
    ensures a * c <= b * c
  {
  }

  lemma ProductMonotone(a: nat, b: nat, c: nat, d: nat)
    requires a < b && c <= d && d > 0
    ensures a * c < b * d
  {
    MulMonotone(c, d, a);
    MulMonotone(a + 1, b, d);
  }

  lemma {:induction false} PowMonotone(small: nat, large: nat, k: nat)
    requires 1 <= k && small < large
    ensures Pow(small, k) < Pow(large, k)
  {
    if k > 1 {
      PowMonotone(small, large, k - 1);
      PowPositive(large, k - 1);
      ProductMonotone(small, large, Pow(small, k - 1), Pow(large, k - 1));
    }
  }

  /** Euclidean division by a positive divisor. */
  lemma DivMod(n: nat, d: nat)
    requires d > 0
    ensures n == (n / d) * d + n % d && n % d < d
  {
  }

  /** A nonzero multiple of `d` is at least `d` away from zero. */
  lemma MulGap(a: int, d: int)
    requires d > 0
    ensures a == 0 || a * d >= d || a * d <= -d
  {
    if a > 0 {
      MulMonotone(1, a, d);
    } else if a < 0 {
      MulMonotone(1, -a, d);
    }
  }

  /** The quotient is determined by any decomposition with a remainder in range. */
  lemma DivUnique(n: nat, d: nat, q: nat, r: nat)
    requires d > 0 && r < d && n == q * d + r
    ensures n / d == q && n % d == r
  {
    var q', r' := n / d, n % d;
    assert (q - q') * d == r' - r;
    MulGap(q - q', d);
  }

  /** Strict order of products with a common factor is order of the other factors. */
  lemma MulCancelLess(a: nat, b: nat, d: nat)
    requires a * d < b * d
    ensures a < b
  {
    if b <= a {
      MulMonotone(b, a, d);
    }
  }

  /** Division by `d` then by `e` is division by `d * e`. */
  lemma DivDiv(n: nat, d: nat, e: nat)
    requires d > 0 && e > 0
    ensures n / d / e == n / (d * e)
  {
    DivMod(n, d);
    DivMod(n / d, e);
    Recombine(n / d / e, n / d % e, n % d, d, e);
    DivUnique(n, d * e, n / d / e, (n / d % e) * d + n % d);
  }

  /** Two nested quotient/remainder decompositions as one. */
  lemma Recombine(q: nat, r2: nat, r1: nat, d: nat, e: nat)
    requires r2 < e && r1 < d
    ensures (q * e + r2) * d + r1 == q * (d * e) + (r2 * d + r1)
    ensures r2 * d + r1 < d * e
  {
    MulMonotone(r2 + 1, e, d);
  }

  /** Any digit string is below base to the power of its length. */
  lemma {:induction false} FromDigitsBound(base: nat, ds: seq<nat>)
    requires AllBelow(base, ds)
    ensures FromDigits(base, ds) < Pow(base, |ds|)
  {
    if ds != [] {
      var init := ds[..|ds| - 1];
      FromDigitsBound(base, init);
      NextDigitBelow(FromDigits(base, init), ds[|ds| - 1], base, Pow(base, |init|));
    }
  }

  /** Appending a digit to a number below `p` gives a number below `p * base`. */
  lemma NextDigitBelow(x: nat, d: nat, base: nat, p: nat)
    requires x < p && d < base
    ensures x * base + d < base * p
  {
    MulMonotone(x + 1, p, base);
  }

  /** A number below `d * p` has a quotient by `d` below `p`. */
  lemma QuotientBelow(n: nat, d: nat, p: nat)
    requires d > 0 && n < d * p
    ensures n / d < p
  {
    assert (n / d) * d <= n;
    MulCancelLess(n / d, p, d);
  }

  /** Reading back the digits of a number that fits in `width` digits gives the number. */
  lemma {:induction false} FromDigitsOfDigits(base: nat, n: nat, width: nat)
    requires base >= 2 && n < Pow(base, width)
    ensures FromDigits(base, Digits(base, n, width)) == n
    decreases width, 1
  {
    if width > 0 {
      DigitsStepOf(base, n, width);
    }
  }

  /** The round trip for a positive width, from the one for the quotient. */
  lemma {:induction false} DigitsStepOf(base: nat, n: nat, width: nat)
    requires base >= 2 && width > 0 && n < Pow(base, width)
    ensures FromDigits(base, Digits(base, n, width)) == n
    decreases width, 0
  {
    var m := n / base;
    DigitQuotientBelow(base, n, width);
    FromDigitsOfDigits(base, m, width - 1);
    DigitsStepValue(base, n, width);
  }

  lemma DigitQuotientBelow(base: nat, n: nat, width: nat)
    requires base >= 2 && width > 0 && n < Pow(base, width)
    ensures n / base < Pow(base, width - 1)
  {
    QuotientBelow(n, base, Pow(base, width - 1));
  }

  lemma DigitsStepValue(base: nat, n: nat, width: nat)
    requires base >= 2 && width > 0
    requires FromDigits(base, Digits(base, n / base, width - 1)) == n / base
    ensures FromDigits(base, Digits(base, n, width)) == n
  {
    DigitsStep(base, n, width);
    DivMod(n, base);
  }

  /** One step of `FromDigits` over `Digits`. */
  lemma DigitsStep(base: nat, n: nat, width: nat)
    requires base >= 2 && width > 0
    ensures FromDigits(base, Digits(base, n, width))
         == FromDigits(base, Digits(base, n / base, width - 1)) * base + n % base
  {
    var ds := Digits(base, n, width);
    assert ds[..width - 1] == Digits(base, n / base, width - 1);
  }

  /** Writing out the number a digit string denotes gives the digit string back. */
  lemma {:induction false} DigitsOfFromDigits(base: nat, ds: seq<nat>)
    requires base >= 2 && AllBelow(base, ds)
    ensures Digits(base, FromDigits(base, ds), |ds|) == ds
  {
    if ds != [] {
      var init, last := ds[..|ds| - 1], ds[|ds| - 1];
      var n := FromDigits(base, ds);
      DivUnique(n, base, FromDigits(base, init), last);
      DigitsOfFromDigits(base, init);
      assert ds == init + [last];
    }
  }

  /** The value of a concatenation. */
  lemma {:induction false} FromDigitsAppend(base: nat, xs: seq<nat>, ys: seq<nat>)
    ensures FromDigits(base, xs + ys) == FromDigits(base, xs) * Pow(base, |ys|) + FromDigits(base, ys)
  {
    if ys == [] {
      assert xs + ys == xs;
    } else {
      var init := ys[..|ys| - 1];
      assert (xs + ys)[..|xs + ys| - 1] == xs + init;
      FromDigitsAppend(base, xs, init);
      ShiftStep(FromDigits(base, xs), Pow(base, |init|), FromDigits(base, init), base, ys[|ys| - 1]);
    }
  }

  lemma ShiftStep(x: nat, p: nat, y: nat, base: nat, d: nat)
    ensures (x * p + y) * base + d == x * (base * p) + (y * base + d)
  {
  }


  /** A string of zero digits denotes zero. */
  lemma {:induction false} FromDigitsZeros(base: nat, ds: seq<nat>)
    requires forall i :: 0 <= i < |ds| ==> ds[i] == 0
    ensures FromDigits(base, ds) == 0
  {
    if ds != [] {
      FromDigitsZeros(base, ds[..|ds| - 1]);
    }
  }

  /** A string of `k` largest digits denotes base^k - 1. */
  lemma {:induction false} FromDigitsTop(base: nat, ds: seq<nat>)
    requires base >= 1
    requires forall i :: 0 <= i < |ds| ==> ds[i] == base - 1
    ensures FromDigits(base, ds) == Pow(base, |ds|) - 1
  {
    if ds != [] {
      var k := |ds|;
      FromDigitsTop(base, ds[..k - 1]);
      PowPositive(base, k - 1);
      TopDigitStep(Pow(base, k - 1), base);
    }
  }

  lemma TopDigitStep(p: nat, base: nat)
    requires p >= 1 && base >= 1
    ensures (p - 1) * base + (base - 1) == base * p - 1
  {
  }

  /** `n` with its `b` lowest digits dropped. */
  function Shift(base: nat, n: nat, b: nat): nat
    requires base >= 2
  {
    if b == 0 then n else Shift(base, n / base, b - 1)
  }

  /** Dropping `b` digits is division by `base` to the power `b`. */
  lemma {:induction false} ShiftIsDiv(base: nat, n: nat, b: nat)
    requires base >= 2
    ensures Pow(base, b) > 0 && Shift(base, n, b) == n / Pow(base, b)
  {
    PowPositive(base, b);
    if b > 0 {
      ShiftIsDiv(base, n / base, b - 1);
      PowPositive(base, b - 1);
      DivDiv(n, base, Pow(base, b - 1));
    }
  }

  /** The leading `a` of `a + b` digits are the digits of the number shifted right by `b` places. */
  lemma {:induction false} DigitsPrefix(base: nat, n: nat, a: nat, b: nat)
    requires base >= 2
    ensures Pow(base, b) > 0
    ensures Digits(base, n, a + b)[..a] == Digits(base, n / Pow(base, b), a)
  {
    ShiftedDigits(base, n, a, b);
    ShiftIsDiv(base, n, b);
  }

  lemma {:induction false} ShiftedDigits(base: nat, n: nat, a: nat, b: nat)
    requires base >= 2
    ensures Digits(base, n, a + b)[..a] == Digits(base, Shift(base, n, b), a)
  {
    if b == 0 {
      assert Digits(base, n, a + b)[..a] == Digits(base, n, a);
    } else {
      ShiftedDigits(base, n / base, a, b - 1);
      DigitsInit(base, n, a + b, a);
    }
  }

  /** A prefix of the digits is a prefix of the digits of the quotient by the base. */
  lemma DigitsInit(base: nat, n: nat, width: nat, a: nat)
    requires base >= 2 && a < width
    ensures Digits(base, n, width)[..a] == Digits(base, n / base, width - 1)[..a]
  {
  }

}
