/** Reading back the body of a JSON string literal, as `json.loads` does:
    the inverse of the escaping `json.dumps` applies under `ensure_ascii`.
    Used here to state that the escaping loses nothing and that what it
    writes is printable ASCII. */
module JsonDecode {
  import opened Outcomes
  import opened Positional
  import opened JsonText

  /** Four hexadecimal digits, most significant first. */
  function ReadHex4(h: string): (r: Option<nat>)
    requires |h| == 4
    ensures r.Some? ==> r.value < 0x10000
  {
    var a, b, c, d := HexValue(h[0]), HexValue(h[1]), HexValue(h[2]), HexValue(h[3]);
    if a.None? || b.None? || c.None? || d.None? then None
    else Some(((a.value * 16 + b.value) * 16 + c.value) * 16 + d.value)
  }

  /** The character a short escape `\x` stands for. */
  function ShortEscape(x: char): Option<char>
  {
    if x == '"' then Some('"')
    else if x == '\\' then Some('\\')
    else if x == '/' then Some('/')
    else if x == 'n' then Some('\n')
    else if x == 'r' then Some('\r')
    else if x == 't' then Some('\t')
    else if x == 'b' then Some('\U{8}')
    else if x == 'f' then Some('\U{C}')
    else None
  }

  /** The body of a string literal, decoded: None when it holds an
      unescaped quote or control character, an unknown escape, or a `\u`
      escape of a lone surrogate. */
  function Unescape(s: string): Option<string>
    decreases |s|
  {
    if s == [] then Some([])
    else if s[0] == '\\' then
      if |s| < 2 then None
      else if s[1] != 'u' then
        match ShortEscape(s[1])
        case None => None
        case Some(c) => Prepend(c, Unescape(s[2..]))
      else if |s| < 6 then None
      else match ReadHex4(s[2..6])
        case None => None
        case Some(n) =>
          if n < 0xD800 || 0xE000 <= n then Prepend(n as char, Unescape(s[6..]))
          else if 0xDC00 <= n || |s| < 12 || s[6] != '\\' || s[7] != 'u' then None
          else match ReadHex4(s[8..12])
            case None => None
            case Some(m) =>
              if !(0xDC00 <= m < 0xE000) then None
              else Prepend((0x10000 + (n - 0xD800) * 0x400 + (m - 0xDC00)) as char, Unescape(s[12..]))
    else if s[0] == '"' || s[0] < ' ' then None
    else Prepend(s[0], Unescape(s[1..]))
  }

  function Prepend(c: char, r: Option<string>): Option<string>
  {
    match r
    case None => None
    case Some(t) => Some([c] + t)
  }

  /** The body of a quoted literal. */
  function Unquote(q: string): Option<string>
  {
    if |q| < 2 || q[0] != '"' || q[|q| - 1] != '"' then None
    else Unescape(q[1..|q| - 1])
  }

  /* ---------- properties ---------- */

  lemma HexDigitRoundTrip(d: nat)
    requires d < 16
    ensures HexValue(HexChar(d)) == Some(d)
  {
  }

  /** `\uXXXX` reads back the number it was written from. */
  lemma ReadHex4OfHex4(n: nat)
    requires n < 0x10000
    ensures ReadHex4(Hex4(n)) == Some(n)
  {
    var ds := Digits(16, n, 4);
    HexDigitRoundTrip(ds[0]);
    HexDigitRoundTrip(ds[1]);
    HexDigitRoundTrip(ds[2]);
    HexDigitRoundTrip(ds[3]);
    assert Pow(16, 4) == 0x10000 by {
      assert Pow(16, 2) == 256;
    }
    FromDigitsOfDigits(16, n, 4);
    assert ds[..3][..2][..1] == [ds[0]] && ds[..3][..2] == [ds[0], ds[1]] && ds[..3] == [ds[0], ds[1], ds[2]];
    assert FromDigits(16, [ds[0]]) == ds[0];
    assert FromDigits(16, [ds[0], ds[1]]) == ds[0] * 16 + ds[1];
    assert FromDigits(16, [ds[0], ds[1], ds[2]]) == (ds[0] * 16 + ds[1]) * 16 + ds[2];
    assert FromDigits(16, ds) == ((ds[0] * 16 + ds[1]) * 16 + ds[2]) * 16 + ds[3];
  }

  /** A `\u` escape of a character outside the surrogate range. */
  lemma UnescapeBmp(c: char, rest: string)
    requires (c as int) < 0xD800 || (0xE000 <= c as int < 0x10000)
    ensures Unescape(UEscape(c as int) + rest) == Prepend(c, Unescape(rest))
  {
    var s := UEscape(c as int) + rest;
    ReadHex4OfHex4(c as int);
    assert s[2..6] == Hex4(c as int);
    assert s[6..] == rest;
  }

  /** A surrogate pair. */
  lemma UnescapePair(c: char, rest: string)
    requires 0x10000 <= c as int
    ensures var n := c as int - 0x10000;
            Unescape(UEscape(0xD800 + n / 0x400) + UEscape(0xDC00 + n % 0x400) + rest) == Prepend(c, Unescape(rest))
  {
    var n := c as int - 0x10000;
    assert n < 0x100000;
    SurrogateHalves(n);
    var q, r := n / 0x400, n % 0x400;
    var hi, lo := 0xD800 + q, 0xDC00 + r;
    assert (hi - 0xD800) * 0x400 == q * 0x400;
    PairOf(c, hi, lo, rest);
  }

  /** The escapes of a high and a low surrogate read back as the character
      they combine into. */
  lemma PairOf(c: char, hi: nat, lo: nat, rest: string)
    requires 0xD800 <= hi < 0xDC00 && 0xDC00 <= lo < 0xE000
    requires c as int == 0x10000 + (hi - 0xD800) * 0x400 + (lo - 0xDC00)
    ensures Unescape(UEscape(hi) + UEscape(lo) + rest) == Prepend(c, Unescape(rest))
  {
    var high, low := UEscape(hi), UEscape(lo);
    var s := high + low + rest;
    ReadHex4OfHex4(hi);
    ReadHex4OfHex4(lo);
    assert s[..6] == high && s[6..12] == low && s[12..] == rest;
    assert s[0] == '\\' && s[1] == 'u' && s[2..6] == high[2..] == Hex4(hi);
    assert s[6] == '\\' && s[7] == 'u' && s[8..12] == low[2..] == Hex4(lo);
    UnescapeSurrogates(s, hi, lo);
  }

  /** The decoding step for a `\u` escape of a high surrogate followed by
      one of a low surrogate. */
  lemma UnescapeSurrogates(s: string, hi: nat, lo: nat)
    requires |s| >= 12 && s[0] == '\\' && s[1] == 'u' && s[6] == '\\' && s[7] == 'u'
    requires 0xD800 <= hi < 0xDC00 && 0xDC00 <= lo < 0xE000
    requires ReadHex4(s[2..6]) == Some(hi) && ReadHex4(s[8..12]) == Some(lo)
    ensures Unescape(s) == Prepend((0x10000 + (hi - 0xD800) * 0x400 + (lo - 0xDC00)) as char, Unescape(s[12..]))
  {
  }

  /** How a code point above the Basic Multilingual Plane splits into a
      high and a low surrogate, and is recombined from them. */
  lemma SurrogateHalves(n: nat)
    requires n < 0x100000
    ensures 0xD800 <= 0xD800 + n / 0x400 < 0xDC00 && 0xDC00 <= 0xDC00 + n % 0x400 < 0xE000
    ensures (n / 0x400) * 0x400 + n % 0x400 == n
  {
  }

  /** Each character's escape reads back as that character. */
  lemma UnescapeChar(c: char, rest: string)
    ensures Unescape(EscapeChar(c) + rest) == Prepend(c, Unescape(rest))
  {
    var s := EscapeChar(c) + rest;
    if c == '"' || c == '\\' || c == '\n' || c == '\r' || c == '\t' || c == '\U{8}' || c == '\U{C}' {
      assert s[2..] == rest;
    } else if ' ' <= c <= '~' {
      assert s[1..] == rest;
    } else if (c as int) < 0x10000 {
      UnescapeBmp(c, rest);
    } else {
      UnescapePair(c, rest);
    }
  }

  /** `json.loads(json.dumps(s)) == s` for every str. */
  lemma {:induction false} UnescapeEscapeAll(s: string)
    ensures Unescape(EscapeAll(s)) == Some(s)
  {
    if s != [] {
      UnescapeEscapeAll(s[1..]);
      UnescapeChar(s[0], EscapeAll(s[1..]));
      assert [s[0]] + s[1..] == s;
    }
  }

  lemma UnquoteQuote(s: string)
    ensures Unquote(Quote(s)) == Some(s)
  {
    UnescapeEscapeAll(s);
    assert Quote(s)[1..|Quote(s)| - 1] == EscapeAll(s);
  }

  /** `ensure_ascii` output is printable ASCII throughout. */
  lemma EscapeCharPrintable(c: char)
    ensures forall i :: 0 <= i < |EscapeChar(c)| ==> Printable(EscapeChar(c)[i])
  {
    if !(' ' <= c <= '~') && c != '"' && c != '\\' && c != '\n' && c != '\r' && c != '\t' && c != '\U{8}' && c != '\U{C}' {
      if (c as int) < 0x10000 {
        UEscapePrintable(c as int);
      } else {
        var n := c as int - 0x10000;
        UEscapePrintable(0xD800 + n / 0x400);
        UEscapePrintable(0xDC00 + n % 0x400);
      }
    }
  }

  lemma UEscapePrintable(n: nat)
    ensures forall i :: 0 <= i < 6 ==> Printable(UEscape(n)[i])
  {
  }

  lemma {:induction false} EscapeAllPrintable(s: string)
    ensures forall i :: 0 <= i < |EscapeAll(s)| ==> Printable(EscapeAll(s)[i])
  {
    if s != [] {
      EscapeAllPrintable(s[1..]);
      EscapeCharPrintable(s[0]);
      var e, r := EscapeChar(s[0]), EscapeAll(s[1..]);
      assert forall i :: |e| <= i < |e + r| ==> (e + r)[i] == r[i - |e|];
    }
  }
}
