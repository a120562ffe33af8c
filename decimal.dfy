/** Decimal numerals: fixed-width zero-padded fields, as `isoformat` writes
    them, and the shortest numeral of a number, as `str(int)` writes it. */
module Decimal {
  import opened Positional
  import opened Outcomes

  function DigitChar(d: nat): (c: char)
    requires d < 10
    ensures '0' <= c <= '9'
  {
    (48 + d) as char
  }

  function DigitValue(c: char): (r: Option<nat>)
    ensures r.Some? <==> '0' <= c <= '9'
    ensures r.Some? ==> r.value < 10
  {
    if '0' <= c <= '9' then Some(c as int - 48) else None
  }

  function Chars(ds: seq<nat>): (s: string)
    requires AllBelow(10, ds)
    ensures |s| == |ds|
    ensures forall i :: 0 <= i < |s| ==> '0' <= s[i] <= '9'
  {
    seq(|ds|, i requires 0 <= i < |ds| => DigitChar(ds[i]))
  }

  /** The digits of a string of decimal characters. */
  function Values(s: string): (r: Option<seq<nat>>)
    ensures r.Some? ==> |r.value| == |s| && AllBelow(10, r.value)
  {
    if s == [] then Some([])
    else match Values(s[..|s| - 1])
      case None => None
      case Some(init) =>
        match DigitValue(s[|s| - 1])
        case None => None
        case Some(d) => Some(init + [d])
  }

  /** `n` written with exactly `width` digits, zero-padded on the left
      (`format(n, '0<width>d')` for `n < 10^width`). */
  function Padded(n: nat, width: nat): (s: string)
    ensures |s| == width
  {
    Chars(Digits(10, n, width))
  }

  /** The number a string of decimal digits denotes, or None if it holds
      any other character. */
  function Read(s: string): Option<nat>
  {
    match Values(s)
    case None => None
    case Some(ds) => Some(FromDigits(10, ds))
  }

  lemma {:induction false} ValuesOfChars(ds: seq<nat>)
    requires AllBelow(10, ds)
    ensures Values(Chars(ds)) == Some(ds)
  {
    if ds != [] {
      var init := ds[..|ds| - 1];
      assert Chars(ds)[..|ds| - 1] == Chars(init);
      ValuesOfChars(init);
      assert ds == init + [ds[|ds| - 1]];
    }
  }

  /** Reading a padded field gives back its number when it fits. */
  lemma ReadPadded(n: nat, width: nat)
    requires n < Pow(10, width)
    ensures Read(Padded(n, width)) == Some(n)
  {
    ValuesOfChars(Digits(10, n, width));
    FromDigitsOfDigits(10, n, width);
  }

  /** The number of digits of the shortest numeral of `n`. */
  function Width(n: nat): (w: nat)
    ensures 1 <= w
    ensures n < Pow(10, w)
  {
    if n < 10 then 1 else Width(n / 10) + 1
  }

  /** `str(n)` for a natural number: no leading zeros, "0" for zero. */
  function Show(n: nat): (s: string)
    ensures 1 <= |s|
  {
    Padded(n, Width(n))
  }

  lemma {:induction false} ZeroDigits(width: nat)
    ensures Digits(10, 0, width) == seq(width, _ => 0)
  {
    if width > 0 {
      ZeroDigits(width - 1);
    }
  }

  /** A one-digit number padded to `width`: zeros, then its digit. */
  lemma PaddedDigit(d: nat, width: nat)
    requires d < 10 && 1 <= width
    ensures Padded(d, width) == seq(width - 1, _ => '0') + [DigitChar(d)]
  {
    ZeroDigits(width - 1);
    assert Digits(10, d, width) == seq(width - 1, _ => 0) + [d];
  }

  lemma PaddedDigitShapes(d: nat)
    requires d < 10
    ensures Padded(d, 2) == ['0', DigitChar(d)]
    ensures Padded(d, 4) == ['0', '0', '0', DigitChar(d)]
    ensures Padded(d, 6) == ['0', '0', '0', '0', '0', DigitChar(d)]
  {
    PaddedDigit(d, 2);
    PaddedDigit(d, 4);
    PaddedDigit(d, 6);
  }

  lemma ShowReads(n: nat)
    ensures Read(Show(n)) == Some(n)
  {
    ReadPadded(n, Width(n));
  }

  /** `str(i)` for any integer: a minus sign before the numeral of a
      negative number. */
  function ShowInt(i: int): (s: string)
    ensures 1 <= |s|
  {
    if i < 0 then "-" + Show(-i) else Show(i)
  }

  /** The inverse of `ShowInt`: `int(s)` restricted to what `ShowInt` writes. */
  function ReadInt(s: string): Option<int>
  {
    if |s| > 0 && s[0] == '-' then
      match Read(s[1..])
      case None => None
      case Some(n) => Some(-(n as int))
    else Read(s)
  }

  lemma ShowIntReads(i: int)
    ensures ReadInt(ShowInt(i)) == Some(i)
  {
    if i < 0 {
      var s := "-" + Show(-i);
      assert s[1..] == Show(-i);
      ShowReads(-i);
    } else {
      assert '0' <= Show(i)[0] <= '9';
      ShowReads(i);
    }
  }
}
