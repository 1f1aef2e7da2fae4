/** `iso_to_epoch` (sidechat_scraper.py and extract_texts.py): an ISO 8601
    extended date-time with a `Z` or `±HH:MM` offset (the profile of section
    5.6 of RFC 3339) mapped to integer Unix seconds, the way
    `int(datetime.fromisoformat(s.replace('Z', '+00:00')).timestamp())` does.
    The calendar is the proleptic Gregorian one of Python's `datetime`, with
    years 1 to 9999 and seconds 0 to 59. */
module IsoTime {
  import opened Strings

  predicate IsLeap(y: int) {
    y % 4 == 0 && (y % 100 != 0 || y % 400 == 0)
  }

  function DaysInMonth(y: int, m: int): (n: int)
    requires 1 <= m <= 12
    ensures 28 <= n <= 31
    ensures m == 2 ==> n == if IsLeap(y) then 29 else 28
  {
    if m == 2 then (if IsLeap(y) then 29 else 28)
    else if m == 4 || m == 6 || m == 9 || m == 11 then 30
    else 31
  }

  predicate ValidDate(y: int, m: int, d: int) {
    1 <= y <= 9999 && 1 <= m <= 12 && 1 <= d <= DaysInMonth(y, m)
  }

  /** Days elapsed from 1 March of year 0 to 1 March of year `y`, less a constant. */
  function YearDays(y: int): int {
    365 * y + y / 4 - y / 100 + y / 400
  }

  /** Days before the first of month `m`, counted from 1 March. */
  function MonthOffset(m: int): int
    requires 1 <= m <= 12
  {
    var mp := if m > 2 then m - 3 else m + 9;
    (153 * mp + 2) / 5
  }

  /** Days from 1970-01-01 to the given date (negative before it). */
  function DaysFromCivil(y: int, m: int, d: int): int
    requires 1 <= m <= 12
  {
    var yy := if m <= 2 then y - 1 else y;
    YearDays(yy) + MonthOffset(m) + d - 1 - 719468
  }

  /** The calendar day after a valid date. */
  function NextDay(y: int, m: int, d: int): (r: (int, int, int))
    requires ValidDate(y, m, d)
    ensures 1 <= r.1 <= 12 && 1 <= r.2 <= DaysInMonth(r.0, r.1)
  {
    if d < DaysInMonth(y, m) then (y, m, d + 1)
    else if m < 12 then (y, m + 1, 1)
    else (y + 1, 1, 1)
  }

  lemma YearDaysStep(y: int)
    ensures YearDays(y) - YearDays(y - 1) == if IsLeap(y) then 366 else 365
  {
    assert y / 4 - (y - 1) / 4 == if y % 4 == 0 then 1 else 0;
    assert y / 100 - (y - 1) / 100 == if y % 100 == 0 then 1 else 0;
    assert y / 400 - (y - 1) / 400 == if y % 400 == 0 then 1 else 0;
    assert y % 400 == 0 ==> y % 100 == 0;
    assert y % 100 == 0 ==> y % 4 == 0;
  }

  /** Consecutive calendar days are one day apart. */
  lemma NextDayIsOneLater(y: int, m: int, d: int)
    requires ValidDate(y, m, d)
    ensures var n := NextDay(y, m, d); DaysFromCivil(n.0, n.1, n.2) == DaysFromCivil(y, m, d) + 1
  {
    MonthOffsets();
    if d == DaysInMonth(y, m) && m == 2 {
      YearDaysStep(y);
    }
  }

  /** The first of each month, in days after 1 March. */
  lemma MonthOffsets()
    ensures MonthOffset(3) == 0 && MonthOffset(4) == 31 && MonthOffset(5) == 61 && MonthOffset(6) == 92
    ensures MonthOffset(7) == 122 && MonthOffset(8) == 153 && MonthOffset(9) == 184 && MonthOffset(10) == 214
    ensures MonthOffset(11) == 245 && MonthOffset(12) == 275 && MonthOffset(1) == 306 && MonthOffset(2) == 337
  {
  }

  lemma UnixEpochIsDayZero()
    ensures DaysFromCivil(1970, 1, 1) == 0
  {
  }

  // ---------------------------------------------------------------- date-times

  /** A parsed date-time: calendar fields, microseconds and the UTC offset in seconds. */
  datatype DateTime = DateTime(year: int, month: int, day: int, hour: int, minute: int,
                               second: int, micro: int, offset: int)

  predicate ValidDateTime(t: DateTime) {
    ValidDate(t.year, t.month, t.day) && 0 <= t.hour <= 23 && 0 <= t.minute <= 59
    && 0 <= t.second <= 59 && 0 <= t.micro < 1000000 && -86400 < t.offset < 86400
  }

  /** Whole seconds since 1970-01-01T00:00:00Z, the fraction not counted. */
  function WholeSeconds(t: DateTime): int
    requires ValidDateTime(t)
  {
    DaysFromCivil(t.year, t.month, t.day) * 86400 + t.hour * 3600 + t.minute * 60 + t.second - t.offset
  }

  /** `int(dt.timestamp())`: the exact instant truncated toward zero. */
  function ToEpoch(t: DateTime): (r: int)
    requires ValidDateTime(t)
    ensures var x := WholeSeconds(t) as real + t.micro as real / 1000000.0;
      (x >= 0.0 ==> r as real <= x < r as real + 1.0) && (x < 0.0 ==> r as real - 1.0 < x <= r as real)
  {
    var w := WholeSeconds(t);
    if w < 0 && t.micro > 0 then w + 1 else w
  }

  /** The same wall-clock time on the next calendar day is 86400 seconds later. */
  lemma NextDayAdds86400(t: DateTime)
    requires ValidDateTime(t)
    ensures var n := NextDay(t.year, t.month, t.day);
      n.0 <= 9999 ==>
      var u := t.(year := n.0, month := n.1, day := n.2);
      ValidDateTime(u) && WholeSeconds(u) == WholeSeconds(t) + 86400
  {
    NextDayIsOneLater(t.year, t.month, t.day);
  }

  // ---------------------------------------------------------------- parsing

  function Pow10(k: nat): nat {
    if k == 0 then 1 else 10 * Pow10(k - 1)
  }

  /** The value of the digits at `s[i..i + n]`, if they are all digits. */
  function Field(s: string, i: nat, n: nat): (r: Option<int>)
    requires i + n <= |s|
    ensures r.Some? ==> AllDigits(s[i..i + n]) && r.value == DigitsValue(s[i..i + n])
  {
    if AllDigits(s[i..i + n]) then Some(DigitsValue(s[i..i + n])) else None
  }

  /** Microseconds from the digits after the decimal point: the first six
      digits count, later ones are ignored. */
  function Micros(ds: string): (r: int)
    requires AllDigits(ds)
    ensures 0 <= r < 1000000
  {
    var k := if |ds| < 6 then |ds| else 6;
    assert AllDigits(ds[..k]);
    DigitsValueBound(ds[..k]);
    DigitsValue(ds[..k]) * Pow10(6 - k)
  }

  lemma {:induction false} DigitsValueBound(s: string)
    requires AllDigits(s)
    ensures DigitsValue(s) < Pow10(|s|)
  {
    if s != [] {
      DigitsValueBound(s[..|s| - 1]);
    }
  }

  /** The offset `±HH:MM` in seconds east of UTC. As in `fromisoformat`,
      the two fields are not range-checked one by one (`+00:75` is 75
      minutes); only the whole offset must stay under 24 hours, which
      `timezone` demands. */
  function ParseOffset(s: string): (r: Option<int>)
    requires |s| == 6
    ensures r.Some? ==> -86400 < r.value < 86400
    ensures r.Some? <==> (s[0] == '+' || s[0] == '-') && s[3] == ':' && Field(s, 1, 2).Some? && Field(s, 4, 2).Some?
                         && Field(s, 1, 2).value * 3600 + Field(s, 4, 2).value * 60 < 86400
  {
    if (s[0] == '+' || s[0] == '-') && s[3] == ':' then
      match (Field(s, 1, 2), Field(s, 4, 2))
      case (Some(h), Some(mi)) =>
        var v := h * 3600 + mi * 60;
        if v < 86400 then Some(if s[0] == '-' then -v else v) else None
      case _ => None
    else None
  }

  /** The optional `.digits` part after the seconds, as microseconds. */
  function ParseFraction(f: string): (r: Option<int>)
    ensures r.Some? <==> f == [] || (|f| >= 2 && f[0] == '.' && AllDigits(f[1..]))
    ensures r.Some? ==> 0 <= r.value < 1000000
    ensures f == [] ==> r == Some(0)
  {
    if f == [] then Some(0)
    else if f[0] == '.' && |f| >= 2 && AllDigits(f[1..]) then Some(Micros(f[1..]))
    else None
  }

  /** One to six fraction digits are the microseconds padded with zeros on
      the right: `.789` is 789000 microseconds, `.5` is 500000. */
  lemma FractionValue(ds: string)
    requires AllDigits(ds) && 1 <= |ds| <= 6
    ensures ParseFraction("." + ds) == Some(DigitsValue(ds) * Pow10(6 - |ds|))
  {
    assert ("." + ds)[1..] == ds;
    assert ds[..|ds|] == ds;
  }

  /** Digits after the sixth are read but ignored. */
  lemma FractionIgnoresExtra(ds: string, more: string)
    requires AllDigits(ds) && |ds| == 6 && AllDigits(more)
    ensures ParseFraction("." + ds + more) == ParseFraction("." + ds)
  {
    var f := "." + ds + more;
    assert f[1..] == ds + more;
    assert AllDigits(ds + more) by {
      forall i | 0 <= i < |ds + more|
        ensures IsDigit((ds + more)[i])
      {
        if i < |ds| {
          assert (ds + more)[i] == ds[i];
        } else {
          assert (ds + more)[i] == more[i - |ds|];
        }
      }
    }
    assert (ds + more)[..6] == ds;
    FractionValue(ds);
  }

  /** The API's millisecond stamps: `.789` reads as 789000 microseconds. */
  lemma MillisecondFraction()
    ensures ParseFraction(".789") == Some(789000)
  {
    assert AllDigits("789");
    assert DigitsValue("789") == 789 by {
      assert "789"[..2] == "78" && "78"[..1] == "7" && "7"[..0] == "";
    }
    Pow10Values();
    assert Pow10(3) == 1000;
    FractionValue("789");
  }

  /** `YYYY-MM-DDTHH:MM:SS[.fraction]±HH:MM`, with the calendar checks
      `datetime` performs. */
  function ParseDateTime(s: string): (r: Option<DateTime>)
    ensures r.Some? ==> ValidDateTime(r.value)
  {
    if |s| < 25 || s[4] != '-' || s[7] != '-' || s[10] != 'T' || s[13] != ':' || s[16] != ':' then None
    else
      var y, mo, d := Field(s, 0, 4), Field(s, 5, 2), Field(s, 8, 2);
      var h, mi, sec := Field(s, 11, 2), Field(s, 14, 2), Field(s, 17, 2);
      var us, off := ParseFraction(s[19..|s| - 6]), ParseOffset(s[|s| - 6..]);
      if y.Some? && mo.Some? && d.Some? && h.Some? && mi.Some? && sec.Some? && us.Some? && off.Some?
         && 1 <= y.value && 1 <= mo.value <= 12 && 1 <= d.value <= DaysInMonth(y.value, mo.value)
         && h.value <= 23 && mi.value <= 59 && sec.value <= 59
      then
        DigitsValueBound(s[0..4]);
        Some(DateTime(y.value, mo.value, d.value, h.value, mi.value, sec.value, us.value, off.value))
      else None
  }

  /** `iso_to_epoch(s)`; `None` where the source raises `ValueError`. */
  function IsoToEpoch(s: string): (r: Option<int>)
  {
    match ParseDateTime(Replace(s, "Z", "+00:00"))
    case Some(t) => Some(ToEpoch(t))
    case None => None
  }

  // ---------------------------------------------------------------- formatting

  /** `n` written with exactly `k` decimal digits, zero-padded on the left. */
  function Digits(n: nat, k: nat): (s: string)
    ensures |s| == k && AllDigits(s)
    ensures 'Z' !in s
  {
    if k == 0 then [] else Digits(n / 10, k - 1) + [DigitChar(n % 10)]
  }

  lemma {:induction false} DigitsValueOf(n: nat, k: nat)
    requires n < Pow10(k)
    ensures DigitsValue(Digits(n, k)) == n
  {
    if k > 0 {
      var s := Digits(n, k);
      assert s[..k - 1] == Digits(n / 10, k - 1);
      assert n / 10 < Pow10(k - 1);
      DigitsValueOf(n / 10, k - 1);
    }
  }

  /** A date-time `isoformat` can write with an `±HH:MM` offset: a valid one
      whose offset is a whole number of minutes. */
  predicate Formattable(t: DateTime) {
    ValidDateTime(t) && t.offset % 60 == 0
  }

  /** `YYYY-MM-DDTHH:MM:SS`. */
  function DateAndTime(t: DateTime): (s: string)
    requires ValidDateTime(t)
    ensures |s| == 19 && 'Z' !in s
  {
    Digits(t.year, 4) + "-" + Digits(t.month, 2) + "-" + Digits(t.day, 2) + "T"
    + Digits(t.hour, 2) + ":" + Digits(t.minute, 2) + ":" + Digits(t.second, 2)
  }

  /** `.ffffff` when there are microseconds, nothing otherwise. */
  function FractionText(micro: nat): (s: string)
    ensures 'Z' !in s
  {
    if micro == 0 then "" else "." + Digits(micro, 6)
  }

  /** `±HH:MM` for an offset of whole minutes. */
  function OffsetText(offset: int): (s: string)
    ensures |s| == 6 && 'Z' !in s
  {
    var minutes := (if offset < 0 then -offset else offset) / 60;
    (if offset < 0 then "-" else "+") + Digits(minutes / 60, 2) + ":" + Digits(minutes % 60, 2)
  }

  /** `t.isoformat()`: the stamps `iso_to_epoch` is meant to read. */
  function Format(t: DateTime): (s: string)
    requires Formattable(t)
    ensures 'Z' !in s
  {
    DateAndTime(t) + FractionText(t.micro) + OffsetText(t.offset)
  }

  lemma FieldOf(s: string, i: nat, n: nat, k: nat)
    requires i + k <= |s| && n < Pow10(k) && s[i..i + k] == Digits(n, k)
    ensures Field(s, i, k) == Some(n)
  {
    DigitsValueOf(n, k);
  }

  lemma Pow10Values()
    ensures Pow10(2) == 100 && Pow10(4) == 10000 && Pow10(6) == 1000000
  {
  }

  /** The separators and the six fields of `DateAndTime`. */
  lemma DateAndTimeFields(t: DateTime)
    requires ValidDateTime(t)
    ensures var s := DateAndTime(t);
      s[4] == '-' && s[7] == '-' && s[10] == 'T' && s[13] == ':' && s[16] == ':'
      && Field(s, 0, 4) == Some(t.year) && Field(s, 5, 2) == Some(t.month) && Field(s, 8, 2) == Some(t.day)
      && Field(s, 11, 2) == Some(t.hour) && Field(s, 14, 2) == Some(t.minute) && Field(s, 17, 2) == Some(t.second)
  {
    var s := DateAndTime(t);
    Pow10Values();
    FieldOf(s, 0, t.year, 4);
    FieldOf(s, 5, t.month, 2);
    FieldOf(s, 8, t.day, 2);
    FieldOf(s, 11, t.hour, 2);
    FieldOf(s, 14, t.minute, 2);
    FieldOf(s, 17, t.second, 2);
  }

  lemma FractionRoundTrip(micro: nat)
    requires micro < 1000000
    ensures ParseFraction(FractionText(micro)) == Some(micro)
  {
    if micro > 0 {
      var ds := Digits(micro, 6);
      Pow10Values();
      DigitsValueOf(micro, 6);
      assert ("." + ds)[1..] == ds && ds[..6] == ds;
    }
  }

  lemma OffsetRoundTrip(offset: int)
    requires -86400 < offset < 86400 && offset % 60 == 0
    ensures ParseOffset(OffsetText(offset)) == Some(offset)
  {
    var a := if offset < 0 then -offset else offset;
    var minutes := a / 60;
    assert a == 60 * minutes;
    var s := OffsetText(offset);
    Pow10Values();
    FieldOf(s, 1, minutes / 60, 2);
    FieldOf(s, 4, minutes % 60, 2);
    assert (minutes / 60) * 3600 + (minutes % 60) * 60 == a;
  }

  /** Formatting and parsing are inverse: every valid date-time with a
      whole-minute offset is read back exactly from its `isoformat` text. */
  lemma FormatRoundTrip(t: DateTime)
    requires Formattable(t)
    ensures ParseDateTime(Format(t)) == Some(t)
  {
    var head, frac, off := DateAndTime(t), FractionText(t.micro), OffsetText(t.offset);
    var rest := frac + off;
    var s := Format(t);
    assert s == head + rest;
    DateAndTimeFields(t);
    FieldOfPrefix(head, rest, 0, 4);
    FieldOfPrefix(head, rest, 5, 2);
    FieldOfPrefix(head, rest, 8, 2);
    FieldOfPrefix(head, rest, 11, 2);
    FieldOfPrefix(head, rest, 14, 2);
    FieldOfPrefix(head, rest, 17, 2);
    assert s[4] == '-' && s[7] == '-' && s[10] == 'T' && s[13] == ':' && s[16] == ':';
    assert s[19..|s| - 6] == frac;
    assert s[|s| - 6..] == off;
    FractionRoundTrip(t.micro);
    OffsetRoundTrip(t.offset);
  }

  lemma FieldOfPrefix(a: string, b: string, i: nat, k: nat)
    requires i + k <= |a|
    ensures Field(a + b, i, k) == Field(a, i, k)
  {
    assert (a + b)[i..i + k] == a[i..i + k];
  }

  /** `iso_to_epoch` of an `isoformat` text is the epoch of the date-time it
      writes: the exact instant, truncated toward zero. */
  lemma IsoToEpochOfFormat(t: DateTime)
    requires Formattable(t)
    ensures IsoToEpoch(Format(t)) == Some(ToEpoch(t))
  {
    NoCharNoReplace(Format(t), 'Z', "+00:00");
    FormatRoundTrip(t);
  }

  lemma {:induction false} NoCharNotContained(s: string, c: char)
    requires c !in s
    ensures !Contains(s, [c])
  {
    if s != [] {
      assert !StartsWith(s, [c]) by {
        assert s[..1][0] == s[0] != c;
      }
      assert c !in s[1..];
      NoCharNotContained(s[1..], c);
    }
  }

  lemma NoCharNoReplace(s: string, c: char, rep: string)
    requires c !in s
    ensures Replace(s, [c], rep) == s
  {
    NoCharNotContained(s, c);
  }

  /** A trailing `Z` is read exactly as the offset `+00:00`. */
  lemma ZuluIsUtc(s: string)
    requires 'Z' !in s
    ensures IsoToEpoch(s + "Z") == IsoToEpoch(s + "+00:00")
  {
    ReplaceCharConcat(s, "Z", 'Z', "+00:00");
    NoCharNoReplace(s, 'Z', "+00:00");
    assert Replace("Z", "Z", "+00:00") == "+00:00" by {
      ReplaceHit("Z", "", "+00:00");
    }
    NoCharNoReplace(s + "+00:00", 'Z', "+00:00");
  }

  lemma TwoDigits(s: string)
    requires |s| == 2 && AllDigits(s)
    ensures DigitsValue(s) == 10 * DigitValue(s[0]) + DigitValue(s[1])
  {
    var h := s[..1];
    assert h[..0] == [] && h[0] == s[0];
    assert DigitsValue(h) == DigitValue(s[0]);
  }

  lemma FourDigits(s: string)
    requires |s| == 4 && AllDigits(s)
    ensures DigitsValue(s) == 1000 * DigitValue(s[0]) + 100 * DigitValue(s[1]) + 10 * DigitValue(s[2]) + DigitValue(s[3])
  {
    assert s[..3][..2] == s[..2];
    TwoDigits(s[..2]);
  }

  lemma Field2(s: string, i: nat)
    requires i + 2 <= |s| && IsDigit(s[i]) && IsDigit(s[i + 1])
    ensures Field(s, i, 2) == Some(10 * DigitValue(s[i]) + DigitValue(s[i + 1]))
  {
    var f := s[i..i + 2];
    assert f[0] == s[i] && f[1] == s[i + 1];
    TwoDigits(f);
  }

  lemma Field4(s: string, i: nat)
    requires i + 4 <= |s| && IsDigit(s[i]) && IsDigit(s[i + 1]) && IsDigit(s[i + 2]) && IsDigit(s[i + 3])
    ensures Field(s, i, 4) == Some(1000 * DigitValue(s[i]) + 100 * DigitValue(s[i + 1]) + 10 * DigitValue(s[i + 2]) + DigitValue(s[i + 3]))
  {
    var f := s[i..i + 4];
    assert f[0] == s[i] && f[1] == s[i + 1] && f[2] == s[i + 2] && f[3] == s[i + 3];
    FourDigits(f);
  }

  const Origin := "1970-01-01T00:00:00+00:00"

  lemma OriginDate()
    ensures Field(Origin, 0, 4) == Some(1970) && Field(Origin, 5, 2) == Some(1) && Field(Origin, 8, 2) == Some(1)
  {
    OriginYear();
    OriginMonthDay();
  }

  lemma OriginYear()
    ensures Field(Origin, 0, 4) == Some(1970)
  {
    assert Origin[0] == '1' && Origin[1] == '9' && Origin[2] == '7' && Origin[3] == '0';
    Field4(Origin, 0);
  }

  lemma OriginMonthDay()
    ensures Field(Origin, 5, 2) == Some(1) && Field(Origin, 8, 2) == Some(1)
  {
    assert Origin[5] == '0' && Origin[6] == '1';
    Field2(Origin, 5);
    assert Origin[8] == '0' && Origin[9] == '1';
    Field2(Origin, 8);
  }

  lemma OriginTime()
    ensures Field(Origin, 11, 2) == Some(0) && Field(Origin, 14, 2) == Some(0) && Field(Origin, 17, 2) == Some(0)
  {
    assert Origin[11] == '0' && Origin[12] == '0';
    Field2(Origin, 11);
    assert Origin[14] == '0' && Origin[15] == '0';
    Field2(Origin, 14);
    assert Origin[17] == '0' && Origin[18] == '0';
    Field2(Origin, 17);
  }

  lemma OriginOffset()
    ensures ParseOffset(Origin[19..]) == Some(0)
  {
    var off := Origin[19..];
    assert off[0] == '+' && off[3] == ':' && off[1] == '0' && off[2] == '0' && off[4] == '0' && off[5] == '0';
    Field2(off, 1);
    Field2(off, 4);
  }

  lemma ParseOrigin()
    ensures ParseDateTime(Origin) == Some(DateTime(1970, 1, 1, 0, 0, 0, 0, 0))
  {
    var s := Origin;
    assert s[4] == '-' && s[7] == '-' && s[10] == 'T' && s[13] == ':' && s[16] == ':';
    OriginDate();
    OriginTime();
    OriginOffset();
    assert s[19..|s| - 6] == [];
  }

  /** The Unix epoch itself is second 0. */
  lemma EpochOriginIsZero()
    ensures IsoToEpoch("1970-01-01T00:00:00Z") == Some(0)
  {
    var base := "1970-01-01T00:00:00";
    var s := Origin;
    assert base + "Z" == "1970-01-01T00:00:00Z";
    assert base + "+00:00" == s;
    ZuluIsUtc(base);
    NoCharNoReplace(s, 'Z', "+00:00");
    ParseOrigin();
    UnixEpochIsDayZero();
    assert IsoToEpoch(s) == Some(0);
  }
}
