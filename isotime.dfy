/** Naive `datetime` values and `datetime.isoformat()`: the extended format
    of combined date and time of section 4.3.2 of ISO 8601:2004,
    `YYYY-MM-DDTHH:MM:SS`, followed by `.ffffff` when the microsecond is
    not zero. */
module IsoTime {
  import opened Positional
  import opened Outcomes
  import Decimal

  predicate IsLeapYear(year: nat)
  {
    year % 4 == 0 && (year % 100 != 0 || year % 400 == 0)
  }

  function DaysInMonth(year: nat, month: nat): (n: nat)
    requires 1 <= month <= 12
    ensures 28 <= n <= 31
  {
    if month == 2 then (if IsLeapYear(year) then 29 else 28)
    else if month in {4, 6, 9, 11} then 30
    else 31
  }

  datatype DateTime = DateTime(year: nat, month: nat, day: nat,
                               hour: nat, minute: nat, second: nat, microsecond: nat)
  {
    /** The ranges the `datetime` constructor enforces. */
    predicate Valid()
    {
      1 <= year <= 9999 && 1 <= month <= 12 && 1 <= day <= DaysInMonth(year, month) &&
      hour < 24 && minute < 60 && second < 60 && microsecond < 1000000
    }
  }

  /** `dt.isoformat()` of a naive datetime. */
  function IsoFormat(dt: DateTime): (s: string)
    ensures |s| == if dt.microsecond == 0 then 19 else 26
  {
    DateText(dt) + "T" + TimeText(dt) + FractionText(dt)
  }

  /** `YYYY-MM-DD`. */
  function DateText(dt: DateTime): (s: string)
    ensures |s| == 10
  {
    Decimal.Padded(dt.year, 4) + "-" + Decimal.Padded(dt.month, 2) + "-" + Decimal.Padded(dt.day, 2)
  }

  /** `HH:MM:SS`. */
  function TimeText(dt: DateTime): (s: string)
    ensures |s| == 8
  {
    Decimal.Padded(dt.hour, 2) + ":" + Decimal.Padded(dt.minute, 2) + ":" + Decimal.Padded(dt.second, 2)
  }

  /** `.ffffff`, or nothing when the microsecond is zero. */
  function FractionText(dt: DateTime): (s: string)
    ensures |s| == if dt.microsecond == 0 then 0 else 7
  {
    if dt.microsecond == 0 then "" else "." + Decimal.Padded(dt.microsecond, 6)
  }

  /** Reads the fields back at their fixed positions, as
      `datetime.fromisoformat` does for the two shapes `isoformat` writes. */
  function ParseIso(s: string): Result<DateTime>
  {
    if !(|s| == 19 || (|s| == 26 && s[19] == '.')) then Err(ValueError("Invalid isoformat string"))
    else if s[4] != '-' || s[7] != '-' || s[10] != 'T' || s[13] != ':' || s[16] != ':' then
      Err(ValueError("Invalid isoformat string"))
    else
      var fields := [Decimal.Read(s[0..4]), Decimal.Read(s[5..7]), Decimal.Read(s[8..10]),
                     Decimal.Read(s[11..13]), Decimal.Read(s[14..16]), Decimal.Read(s[17..19]),
                     if |s| == 26 then Decimal.Read(s[20..26]) else Some(0)];
      if exists i :: 0 <= i < 7 && fields[i].None? then Err(ValueError("Invalid isoformat string"))
      else
        var dt := DateTime(fields[0].value, fields[1].value, fields[2].value, fields[3].value,
                           fields[4].value, fields[5].value, fields[6].value);
        if dt.Valid() then Ok(dt) else Err(ValueError("field out of range"))
  }

  lemma PowersOfTen()
    ensures Pow(10, 2) == 100 && Pow(10, 4) == 10000 && Pow(10, 6) == 1000000
  {
  }

  /** The positions of the fields in the text `isoformat` writes. */
  lemma IsoFormatFields(dt: DateTime)
    ensures var s := IsoFormat(dt);
            s[0..4] == Decimal.Padded(dt.year, 4) && s[4] == '-' &&
            s[5..7] == Decimal.Padded(dt.month, 2) && s[7] == '-' &&
            s[8..10] == Decimal.Padded(dt.day, 2) && s[10] == 'T' &&
            s[11..13] == Decimal.Padded(dt.hour, 2) && s[13] == ':' &&
            s[14..16] == Decimal.Padded(dt.minute, 2) && s[16] == ':' &&
            s[17..19] == Decimal.Padded(dt.second, 2) &&
            (dt.microsecond != 0 ==> s[19] == '.' && s[20..26] == Decimal.Padded(dt.microsecond, 6))
  {
    var s, date, time, fraction := IsoFormat(dt), DateText(dt), TimeText(dt), FractionText(dt);
    assert s[0..10] == date && s[10] == 'T' && s[11..19] == time && s[19..] == fraction;
    DateFields(dt);
    TimeFields(dt);
    assert s[0..4] == s[0..10][0..4] && s[5..7] == s[0..10][5..7] && s[8..10] == s[0..10][8..10];
    assert s[4] == date[4] && s[7] == date[7];
    assert s[11..13] == s[11..19][0..2] && s[14..16] == s[11..19][3..5] && s[17..19] == s[11..19][6..8];
    assert s[13] == time[2] && s[16] == time[5];
    if dt.microsecond != 0 {
      assert s[19] == fraction[0] && s[20..26] == s[19..][1..7] == fraction[1..];
    }
  }

  lemma DateFields(dt: DateTime)
    ensures var s := DateText(dt);
            s[0..4] == Decimal.Padded(dt.year, 4) && s[4] == '-' &&
            s[5..7] == Decimal.Padded(dt.month, 2) && s[7] == '-' && s[8..10] == Decimal.Padded(dt.day, 2)
  {
  }

  lemma TimeFields(dt: DateTime)
    ensures var s := TimeText(dt);
            s[0..2] == Decimal.Padded(dt.hour, 2) && s[2] == ':' &&
            s[3..5] == Decimal.Padded(dt.minute, 2) && s[5] == ':' && s[6..8] == Decimal.Padded(dt.second, 2)
  {
  }

  /** `fromisoformat(dt.isoformat()) == dt` for every valid naive datetime. */
  lemma ParseIsoFormat(dt: DateTime)
    requires dt.Valid()
    ensures ParseIso(IsoFormat(dt)) == Ok(dt)
  {
    IsoFormatFields(dt);
    ParseFields(IsoFormat(dt), dt);
  }

  /** Any text with the fields of a valid datetime at the positions
      `isoformat` writes them reads back as that datetime. */
  lemma ParseFields(s: string, dt: DateTime)
    requires dt.Valid() && |s| == if dt.microsecond == 0 then 19 else 26
    requires s[0..4] == Decimal.Padded(dt.year, 4) && s[4] == '-' &&
             s[5..7] == Decimal.Padded(dt.month, 2) && s[7] == '-' &&
             s[8..10] == Decimal.Padded(dt.day, 2) && s[10] == 'T' &&
             s[11..13] == Decimal.Padded(dt.hour, 2) && s[13] == ':' &&
             s[14..16] == Decimal.Padded(dt.minute, 2) && s[16] == ':' &&
             s[17..19] == Decimal.Padded(dt.second, 2)
    requires dt.microsecond != 0 ==> s[19] == '.' && s[20..26] == Decimal.Padded(dt.microsecond, 6)
    ensures ParseIso(s) == Ok(dt)
  {
    PowersOfTen();
    Decimal.ReadPadded(dt.year, 4);
    Decimal.ReadPadded(dt.month, 2);
    Decimal.ReadPadded(dt.day, 2);
    Decimal.ReadPadded(dt.hour, 2);
    Decimal.ReadPadded(dt.minute, 2);
    Decimal.ReadPadded(dt.second, 2);
    var micro := if |s| == 26 then Decimal.Read(s[20..26]) else Some(0);
    if dt.microsecond != 0 {
      Decimal.ReadPadded(dt.microsecond, 6);
    }
    assert micro == Some(dt.microsecond);
    var fields := [Decimal.Read(s[0..4]), Decimal.Read(s[5..7]), Decimal.Read(s[8..10]),
                   Decimal.Read(s[11..13]), Decimal.Read(s[14..16]), Decimal.Read(s[17..19]), micro];
    assert fields == [Some(dt.year), Some(dt.month), Some(dt.day), Some(dt.hour), Some(dt.minute),
                      Some(dt.second), Some(dt.microsecond)];
    assert !exists i :: 0 <= i < 7 && fields[i].None?;
  }

  /** The text of a datetime whose fields are all single digits. */
  lemma IsoFormatOfDigits(dt: DateTime)
    requires 1 <= dt.year < 10 && dt.month < 10 && dt.day < 10 && dt.hour < 10
    requires dt.minute < 10 && dt.second < 10 && 1 <= dt.microsecond < 10
    ensures IsoFormat(dt) ==
      ['0', '0', '0', Decimal.DigitChar(dt.year), '-', '0', Decimal.DigitChar(dt.month),
       '-', '0', Decimal.DigitChar(dt.day), 'T', '0', Decimal.DigitChar(dt.hour),
       ':', '0', Decimal.DigitChar(dt.minute), ':', '0', Decimal.DigitChar(dt.second),
       '.', '0', '0', '0', '0', '0', Decimal.DigitChar(dt.microsecond)]
  {
    Decimal.PaddedDigitShapes(dt.year);
    Decimal.PaddedDigitShapes(dt.month);
    Decimal.PaddedDigitShapes(dt.day);
    Decimal.PaddedDigitShapes(dt.hour);
    Decimal.PaddedDigitShapes(dt.minute);
    Decimal.PaddedDigitShapes(dt.second);
    Decimal.PaddedDigitShapes(dt.microsecond);
    var date := ['0', '0', '0', Decimal.DigitChar(dt.year), '-', '0', Decimal.DigitChar(dt.month),
                 '-', '0', Decimal.DigitChar(dt.day)];
    var time := ['0', Decimal.DigitChar(dt.hour), ':', '0', Decimal.DigitChar(dt.minute), ':', '0',
                 Decimal.DigitChar(dt.second)];
    var fraction := ['.', '0', '0', '0', '0', '0', Decimal.DigitChar(dt.microsecond)];
    assert DateText(dt) == date;
    assert TimeText(dt) == time;
    assert FractionText(dt) == fraction;
  }

  /** `datetime(1, 2, 3, 4, 5, 6, 7).isoformat()`. */
  lemma IsoFormatExample()
    ensures IsoFormat(DateTime(1, 2, 3, 4, 5, 6, 7)) == "0001-02-03T04:05:06.000007"
  {
    IsoFormatOfDigits(DateTime(1, 2, 3, 4, 5, 6, 7));
  }

  /** `isoformat` writes digits and the separators `-`, `T`, `:` and `.`
      only: printable ASCII other than the double quote and the backslash. */
  lemma IsoFormatPlain(dt: DateTime)
    ensures var s := IsoFormat(dt);
            forall i :: 0 <= i < |s| ==> ' ' < s[i] <= '~' && s[i] != '"' && s[i] != '\\'
  {
    var s := IsoFormat(dt);
    forall i | 0 <= i < |s|
      ensures ' ' < s[i] <= '~' && s[i] != '"' && s[i] != '\\'
    {
      IsoFormatFields(dt);
      if i < 4 {
        assert s[i] == s[0..4][i];
      } else if 4 < i < 7 {
        assert s[i] == s[5..7][i - 5];
      } else if 7 < i < 10 {
        assert s[i] == s[8..10][i - 8];
      } else if 10 < i < 13 {
        assert s[i] == s[11..13][i - 11];
      } else if 13 < i < 16 {
        assert s[i] == s[14..16][i - 14];
      } else if 16 < i < 19 {
        assert s[i] == s[17..19][i - 17];
      } else if 19 < i {
        assert s[i] == s[20..26][i - 20];
      }
    }
  }
}
