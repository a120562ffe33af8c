/** Base85 text as Python's `base64.b85encode` / `b85decode` produce and read
    it: the 85-character alphabet of section 4 of RFC 1924, applied to
    4-byte big-endian groups, each written as 5 digits, most significant
    first. A final group of k < 4 bytes is padded with zero bytes, encoded,
    and only its first k + 1 characters are kept. */
module Base85 {
  import opened Positional
  import opened Outcomes

  type Byte = x: nat | x < 256

  /** The alphabet of section 4 of RFC 1924, in four runs: digits 0..9,
      10..35, 36..61 and 62..84. The first three runs are consecutive
      character codes; the last is in increasing character code. */
  const DecimalDigits: string := "0123456789"
  const Upper: string := "ABCDEFGHIJKLMNOPQRSTUVWXYZ"
  const Lower: string := "abcdefghijklmnopqrstuvwxyz"
  const Punct: string := "!#$%&()*+-;<=>?@^_`{|}~"
  const Alphabet: string := DecimalDigits + Upper + Lower + Punct

  /** The character of digit `d`, run by run. */
  function DigitChar(d: nat): char
    requires d < 85
  {
    if d < 10 then (48 + d) as char
    else if d < 36 then (65 + d - 10) as char
    else if d < 62 then (97 + d - 36) as char
    else Punct[d - 62]
  }

  lemma RunsAreConsecutive()
    ensures |Alphabet| == 85
    ensures forall d :: 0 <= d < 10 ==> DecimalDigits[d] as int == 48 + d
    ensures forall d :: 0 <= d < 26 ==> Upper[d] as int == 65 + d
    ensures forall d :: 0 <= d < 26 ==> Lower[d] as int == 97 + d
  {
  }

  lemma PunctIncreasing()
    ensures forall j, k :: 0 <= j < k < |Punct| ==> Punct[j] < Punct[k]
  {
  }

  /** Digit `d` is the `d`-th character of the alphabet. */
  lemma DigitCharInAlphabet(d: nat)
    requires d < 85
    ensures DigitChar(d) == Alphabet[d]
  {
    RunsAreConsecutive();
    var u := DecimalDigits + Upper;
    var l := u + Lower;
    assert Alphabet == l + Punct;
    if d < 62 {
      assert Alphabet[d] == l[d];
      if d < 36 {
        assert l[d] == u[d];
      }
    }
  }

  /** The digit a character stands for, if it is in the alphabet. */
  function DigitValue(c: char): (r: Option<nat>)
    ensures r.Some? ==> r.value < 85
  {
    if '0' <= c <= '9' then Some(c as int - 48)
    else if 'A' <= c <= 'Z' then Some(c as int - 65 + 10)
    else if 'a' <= c <= 'z' then Some(c as int - 97 + 36)
    else match IndexOf(Punct, c)
      case Some(k) => Some(62 + k)
      case None => None
  }

  /** The first position of `c` in `s`. */
  function IndexOf(s: string, c: char): (r: Option<nat>)
    ensures r.Some? ==> r.value < |s| && s[r.value] == c
    ensures r.Some? ==> forall j :: 0 <= j < r.value ==> s[j] != c
    ensures r.None? ==> forall j :: 0 <= j < |s| ==> s[j] != c
  {
    if s == [] then None
    else if s[0] == c then Some(0)
    else match IndexOf(s[1..], c)
      case Some(k) => Some(k + 1)
      case None => None
  }

  /** No punctuation digit falls in the three runs of letters and decimal digits. */
  lemma PunctOutsideRuns(k: nat)
    requires k < |Punct|
    ensures !('0' <= Punct[k] <= '9') && !('A' <= Punct[k] <= 'Z') && !('a' <= Punct[k] <= 'z')
  {
    PunctIncreasing();
    assert Punct[9] == '-' && Punct[10] == ';' && Punct[15] == '@';
    assert Punct[16] == '^' && Punct[18] == '`' && Punct[19] == '{';
    assert Punct[0] == '!' && Punct[22] == '~';
  }

  /** Every digit is read back from its character. */
  lemma DigitValueOfChar(d: nat)
    requires d < 85
    ensures DigitValue(DigitChar(d)) == Some(d)
  {
    if d >= 62 {
      PunctValue(d - 62);
    } else {
      var c := DigitChar(d);
      if d < 10 {
        assert '0' <= c <= '9' && c as int == 48 + d;
      } else if d < 36 {
        assert !('0' <= c <= '9') && 'A' <= c <= 'Z' && c as int == 65 + d - 10;
      } else {
        assert !('0' <= c <= '9') && !('A' <= c <= 'Z') && 'a' <= c <= 'z' && c as int == 97 + d - 36;
      }
    }
  }

  lemma PunctValue(k: nat)
    requires k < |Punct|
    ensures DigitValue(Punct[k]) == Some(62 + k)
  {
    PunctOutsideRuns(k);
    PunctIndex(k);
  }

  /** The punctuation characters are distinct, so each is found where it is. */
  lemma PunctIndex(k: nat)
    requires k < |Punct|
    ensures IndexOf(Punct, Punct[k]) == Some(k)
  {
    PunctIncreasing();
    var r := IndexOf(Punct, Punct[k]);
    assert r.Some?;
    assert Punct[r.value] == Punct[k];
    assert r.value == k;
  }

  /** The characters of a digit string. */
  function Chars(ds: seq<nat>): (s: string)
    requires AllBelow(85, ds)
    ensures |s| == |ds|
  {
    seq(|ds|, i requires 0 <= i < |ds| => DigitChar(ds[i]))
  }

  /** The digits a string stands for, if every character is in the alphabet. */
  function DigitValues(s: string): (r: Option<seq<nat>>)
    ensures r.Some? ==> |r.value| == |s| && AllBelow(85, r.value)
  {
    if s == [] then Some([])
    else match DigitValues(s[..|s| - 1])
      case None => None
      case Some(init) =>
        match DigitValue(s[|s| - 1])
        case None => None
        case Some(d) => Some(init + [d])
  }

  function ZeroBytes(k: nat): (z: seq<Byte>)
    ensures |z| == k && forall i :: 0 <= i < k ==> z[i] == 0
  {
    seq(k, _ => 0)
  }

  /** `k` copies of the last character of the alphabet. */
  function Tildes(k: nat): (t: string)
    ensures |t| == k && forall i :: 0 <= i < k ==> t[i] == '~'
  {
    seq(k, _ => '~')
  }

  /** Words of a hunk must fit in 32 bits. */
  const WordLimit: nat := 0x1_0000_0000

  /** The five characters of one 4-byte group, read as a big-endian word. */
  function EncodeGroup(group: seq<Byte>): (s: string)
    requires |group| == 4
    ensures |s| == 5
  {
    Chars(Digits(85, FromDigits(256, group), 5))
  }

  /** `base64.b85encode(b)` without padding. */
  function Encode(b: seq<Byte>): (s: string)
    ensures |s| == 5 * (|b| / 4) + (if |b| % 4 == 0 then 0 else |b| % 4 + 1)
    decreases |b|
  {
    if |b| == 0 then ""
    else if |b| >= 4 then EncodeGroup(b[..4]) + Encode(b[4..])
    else EncodeGroup(b + ZeroBytes(4 - |b|))[..|b| + 1]
  }

  /** One 5-character hunk of base85 text, as four bytes. */
  function DecodeHunk(hunk: string): (r: Result<seq<Byte>>)
    requires |hunk| == 5
    ensures r.Ok? ==> |r.value| == 4
  {
    match DigitValues(hunk)
    case None => Err(ValueError("bad base85 character"))
    case Some(ds) =>
      var acc := FromDigits(85, ds);
      if acc >= WordLimit then Err(ValueError("base85 overflow in hunk"))
      else Ok(Digits(256, acc, 4))
  }

  /** `base64.b85decode(s)`: a short final hunk is padded with '~' and the
      padding's bytes are dropped from the result. */
  function Decode(s: string): Result<seq<Byte>>
    decreases |s|
  {
    if |s| == 0 then Ok([])
    else if |s| >= 5 then
      match DecodeHunk(s[..5])
      case Err(e) => Err(e)
      case Ok(head) =>
        match Decode(s[5..])
        case Err(e) => Err(e)
        case Ok(tail) => Ok(head + tail)
    else
      match DecodeHunk(s + Tildes(5 - |s|))
      case Err(e) => Err(e)
      case Ok(head) => Ok(head[..|s| - 1])
  }

  lemma PowFacts()
    ensures Pow(256, 4) == WordLimit && Pow(85, 5) == 4437053125
  {
    assert Pow(256, 2) == 65536;
    assert Pow(85, 2) == 7225;
    assert Pow(85, 4) == 52200625;
  }

  /** Reading the characters of a digit string gives back the digits. */
  lemma {:induction false} DigitValuesOfChars(ds: seq<nat>)
    requires AllBelow(85, ds)
    ensures DigitValues(Chars(ds)) == Some(ds)
  {
    if ds != [] {
      var init, last := ds[..|ds| - 1], ds[|ds| - 1];
      var s := Chars(ds);
      CharsInit(ds);
      LastDigit(ds);
      DigitValuesOfChars(init);
      DigitValuesSnoc(s, init, last);
      assert ds == init + [last];
    }
  }

  lemma CharsInit(ds: seq<nat>)
    requires AllBelow(85, ds) && ds != []
    ensures Chars(ds)[..|ds| - 1] == Chars(ds[..|ds| - 1])
  {
  }

  lemma LastDigit(ds: seq<nat>)
    requires AllBelow(85, ds) && ds != []
    ensures DigitValue(Chars(ds)[|ds| - 1]) == Some(ds[|ds| - 1])
  {
    var d := ds[|ds| - 1];
    assert Chars(ds)[|ds| - 1] == DigitChar(d);
    DigitValueOfChar(d);
  }

  lemma DigitValuesSnoc(s: string, init: seq<nat>, d: nat)
    requires s != [] && DigitValues(s[..|s| - 1]) == Some(init) && DigitValue(s[|s| - 1]) == Some(d)
    ensures DigitValues(s) == Some(init + [d])
  {
  }

  /** A full group decodes back to its four bytes. */
  lemma FullGroupRoundTrip(group: seq<Byte>)
    requires |group| == 4
    ensures DecodeHunk(EncodeGroup(group)) == Ok(group)
  {
    var w := FromDigits(256, group);
    FromDigitsBound(256, group);
    PowFacts();
    var ds := Digits(85, w, 5);
    DigitValuesOfChars(ds);
    FromDigitsOfDigits(85, w, 5);
    DigitsOfFromDigits(256, group);
  }

  /** The arithmetic of a padded final hunk: the decoder's word, in which the
      dropped digits are replaced by the largest digit, still starts with the
      original bytes. */
  lemma PaddedWord(g: nat, m: nat, n: nat, w: nat, acc: nat)
    requires 0 < n <= m && w == g * m && acc == (w / n) * n + (n - 1)
    ensures acc / m == g && acc < (g + 1) * m
  {
    DivMod(w, n);
    assert w <= acc <= w + (n - 1);
    DivUnique(acc, m, g, acc - w);
  }

  /** Zero padding shifts the group's word left by whole bytes. */
  lemma ZeroPaddedWord(b: seq<Byte>, p: nat)
    requires |b| + p == 4
    ensures FromDigits(256, b + ZeroBytes(p)) == FromDigits(256, b) * Pow(256, p)
  {
    FromDigitsAppend(256, b, ZeroBytes(p));
    FromDigitsZeros(256, ZeroBytes(p));
  }

  /** The first `k + 1` characters of a group are the digits of its word with
      the last `p` base-85 digits cut off. */
  lemma KeptDigits(w: nat, k: nat, p: nat)
    requires k + 1 + p == 5 && w < Pow(85, 5)
    ensures Pow(85, p) > 0
    ensures Digits(85, w, 5)[..k + 1] == Digits(85, w / Pow(85, p), k + 1)
    ensures FromDigits(85, Digits(85, w / Pow(85, p), k + 1)) == w / Pow(85, p)
  {
    DigitsPrefix(85, w, k + 1, p);
    assert w / Pow(85, p) < Pow(85, k + 1) by {
      PowAdd(85, k + 1, p);
      QuotientBelow(w, Pow(85, p), Pow(85, k + 1));
    }
    FromDigitsOfDigits(85, w / Pow(85, p), k + 1);
  }

  /** Padding kept digits with '~' fills the dropped places with the largest
      digit. */
  lemma TildePaddedValue(kept: seq<nat>, p: nat)
    requires AllBelow(85, kept)
    ensures var r := DigitValues(Chars(kept) + Tildes(p));
            r.Some? && FromDigits(85, r.value) == FromDigits(85, kept) * Pow(85, p) + (Pow(85, p) - 1)
  {
    var pad: seq<nat> := seq(p, _ => 84);
    assert Chars(kept) + Tildes(p) == Chars(kept + pad) by {
      assert Punct[22] == '~';
    }
    DigitValuesOfChars(kept + pad);
    FromDigitsAppend(85, kept, pad);
    FromDigitsTop(85, pad);
  }

  /** The decoder's word for a padded hunk still holds the original bytes on
      top and fits in 32 bits. */
  lemma PaddedWordBytes(b: seq<Byte>, p: nat, acc: nat)
    requires |b| + p == 4 && 1 <= |b|
    requires Pow(85, p) > 0
    requires acc == FromDigits(256, b + ZeroBytes(p)) / Pow(85, p) * Pow(85, p) + (Pow(85, p) - 1)
    ensures acc < Pow(256, 4) && Digits(256, acc, 4)[..|b|] == b
  {
    var k := |b|;
    var g := FromDigits(256, b);
    PowPositive(85, p);
    assert Pow(85, p) <= Pow(256, p) by {
      if p > 0 {
        PowMonotone(85, 256, p);
      }
    }
    ZeroPaddedWord(b, p);
    PaddedWord(g, Pow(256, p), Pow(85, p), g * Pow(256, p), acc);
    assert acc < Pow(256, 4) by {
      FromDigitsBound(256, b);
      MulMonotone(g + 1, Pow(256, k), Pow(256, p));
      PowAdd(256, k, p);
    }
    DigitsPrefix(256, acc, k, p);
    DigitsOfFromDigits(256, b);
  }

  /** A final group of one to three bytes decodes back to those bytes. */
  lemma PartialGroupRoundTrip(b: seq<Byte>)
    requires 1 <= |b| <= 3
    ensures var r := DecodeHunk(EncodeGroup(b + ZeroBytes(4 - |b|))[..|b| + 1] + Tildes(4 - |b|));
            r.Ok? && r.value[..|b|] == b
  {
    var k, p := |b|, 4 - |b|;
    var w := FromDigits(256, b + ZeroBytes(p));
    assert w < Pow(85, 5) by {
      FromDigitsBound(256, b + ZeroBytes(p));
      PowFacts();
    }
    KeptDigits(w, k, p);
    var kept := Digits(85, w / Pow(85, p), k + 1);
    assert EncodeGroup(b + ZeroBytes(p))[..k + 1] == Chars(kept);
    var hunk := Chars(kept) + Tildes(p);
    TildePaddedValue(kept, p);
    var acc := FromDigits(85, DigitValues(hunk).value);
    PaddedWordBytes(b, p, acc);
    assert DecodeHunk(hunk) == Ok(Digits(256, acc, 4)) by {
      PowFacts();
    }
  }

  /** Decoding undoes encoding, for every byte string. */
  lemma {:induction false} DecodeEncode(b: seq<Byte>)
    ensures Decode(Encode(b)) == Ok(b)
    decreases |b|
  {
    if |b| >= 4 {
      var s := Encode(b);
      assert s[..5] == EncodeGroup(b[..4]);
      assert s[5..] == Encode(b[4..]);
      FullGroupRoundTrip(b[..4]);
      DecodeEncode(b[4..]);
      assert b == b[..4] + b[4..];
    } else if |b| > 0 {
      PartialGroupRoundTrip(b);
    }
  }

  lemma ExampleWord()
    ensures FromDigits(256, [49, 50, 51, 0]) == 825373440
  {
    var group: seq<nat> := [49, 50, 51, 0];
    assert group[..3] == [49, 50, 51] && group[..3][..2] == [49, 50] && group[..3][..2][..1] == [49];
    assert FromDigits(256, [49]) == 49;
    assert FromDigits(256, [49, 50]) == 12594;
    assert FromDigits(256, [49, 50, 51]) == 3224115;
  }

  lemma ExampleDigits()
    ensures Digits(85, 825373440, 5) == [15, 68, 83, 45, 65]
  {
    assert Digits(85, 825373440, 5) == Digits(85, 9710275, 4) + [65];
    assert Digits(85, 9710275, 4) == Digits(85, 114238, 3) + [45];
    assert Digits(85, 114238, 3) == Digits(85, 1343, 2) + [83];
    assert Digits(85, 1343, 2) == Digits(85, 15, 1) + [68];
  }

  /** `b'123'` encodes as `F)}j`: the word 0x31323300 has base-85 digits
      15, 68, 83, 45, 65, of which the last is dropped. */
  lemma EncodeExample()
    ensures Encode([49, 50, 51]) == "F)}j"
  {
    assert [49, 50, 51] + ZeroBytes(1) == [49, 50, 51, 0];
    ExampleWord();
    ExampleDigits();
    var ds := Digits(85, 825373440, 5);
    assert Chars(ds)[..4] == [DigitChar(15), DigitChar(68), DigitChar(83), DigitChar(45)];
  }

  /** A string has digit values exactly when every character is in the alphabet. */
  lemma {:induction false} DigitValuesDefined(s: string)
    ensures DigitValues(s).Some? <==> forall i :: 0 <= i < |s| ==> DigitValue(s[i]).Some?
  {
    if s != [] {
      var init := s[..|s| - 1];
      DigitValuesDefined(init);
      DigitValuesStep(s);
      if forall i :: 0 <= i < |s| ==> DigitValue(s[i]).Some? {
        forall i | 0 <= i < |init|
          ensures DigitValue(init[i]).Some?
        {
          assert init[i] == s[i];
        }
      }
      if DigitValues(s).Some? {
        forall i | 0 <= i < |s| - 1
          ensures DigitValue(s[i]).Some?
        {
          assert init[i] == s[i];
        }
      }
    }
  }

  lemma DigitValuesStep(s: string)
    requires s != []
    ensures DigitValues(s).Some? <==> DigitValues(s[..|s| - 1]).Some? && DigitValue(s[|s| - 1]).Some?
  {
  }

  /** A text holding a character outside the alphabet is rejected,
      wherever that character sits. */
  lemma {:induction false} DecodeRejects(s: string, i: nat)
    requires i < |s| && DigitValue(s[i]).None?
    ensures Decode(s).Err?
    decreases |s|
  {
    if |s| >= 5 {
      if i < 5 {
        HunkRejects(s[..5], i);
      } else {
        assert s[5..][i - 5] == s[i];
        DecodeRejects(s[5..], i - 5);
      }
    } else {
      var hunk := s + Tildes(5 - |s|);
      assert hunk[i] == s[i];
      HunkRejects(hunk, i);
    }
  }

  lemma HunkRejects(hunk: string, i: nat)
    requires |hunk| == 5 && i < 5 && DigitValue(hunk[i]).None?
    ensures DecodeHunk(hunk).Err?
  {
    DigitValuesDefined(hunk);
  }

  /** For instance, a double quote is not a digit. */
  lemma DecodeRejectsQuote()
    ensures Decode("ab\"de").Err?
  {
    var s := "ab\"de";
    assert DigitValue(s[2]) == None by {
      assert forall j :: 0 <= j < |Punct| ==> Punct[j] != '"';
    }
    DecodeRejects(s, 2);
  }

  /** Every character of the alphabet is printable ASCII other than the
      double quote and the backslash. */
  lemma DigitCharPlain(d: nat)
    requires d < 85
    ensures ' ' < DigitChar(d) <= '~' && DigitChar(d) != '"' && DigitChar(d) != '\\'
  {
    if d >= 62 {
      assert forall j :: 0 <= j < |Punct| ==> ' ' < Punct[j] <= '~' && Punct[j] != '"' && Punct[j] != '\\';
    }
  }

  /** Encoded text is made of such characters only. */
  lemma {:induction false} EncodePlain(b: seq<Byte>)
    ensures var s := Encode(b);
            forall i :: 0 <= i < |s| ==> ' ' < s[i] <= '~' && s[i] != '"' && s[i] != '\\'
    decreases |b|
  {
    var s := Encode(b);
    if |b| >= 4 {
      EncodePlain(b[4..]);
      GroupPlain(b[..4]);
      assert s == EncodeGroup(b[..4]) + Encode(b[4..]);
    } else if |b| > 0 {
      GroupPlain(b + ZeroBytes(4 - |b|));
    }
  }

  lemma GroupPlain(group: seq<Byte>)
    requires |group| == 4
    ensures var s := EncodeGroup(group);
            forall i :: 0 <= i < |s| ==> ' ' < s[i] <= '~' && s[i] != '"' && s[i] != '\\'
  {
    var ds := Digits(85, FromDigits(256, group), 5);
    forall i | 0 <= i < 5
      ensures ' ' < Chars(ds)[i] <= '~' && Chars(ds)[i] != '"' && Chars(ds)[i] != '\\'
    {
      DigitCharPlain(ds[i]);
    }
  }
}
