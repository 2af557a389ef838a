/** time.Parse(time.RFC3339, s): the layout "2006-01-02T15:04:05Z07:00",
    that is the date-time production of section 5.6 of RFC 3339 as Go reads
    it: upper-case 'T' and 'Z' only, a fraction of a second only after '.',
    no leap second, and the day checked against its month.

    The result is the broken-down date and time as written; turning it into
    an instant is not modelled. */
module Rfc3339 {
  import opened Util
  import opened Decimal

  datatype Zone = Utc | Offset(negative: bool, hours: nat, minutes: nat)

  datatype DateTime = DateTime(
    year: nat, month: nat, day: nat,
    hour: nat, minute: nat, second: nat,
    fraction: string,  // the digits after '.', empty when absent
    zone: Zone)

  predicate IsLeap(year: nat)
  {
    year % 4 == 0 && (year % 100 != 0 || year % 400 == 0)
  }

  function DaysIn(month: nat, year: nat): nat
    requires 1 <= month <= 12
  {
    if month == 2 then (if IsLeap(year) then 29 else 28)
    else if month == 4 || month == 6 || month == 9 || month == 11 then 30
    else 31
  }

  predicate ValidZone(z: Zone)
  {
    z.Offset? ==> z.hours <= 23 && z.minutes <= 59
  }

  /** A date and time that RFC 3339 (and Go) can express. */
  predicate Valid(t: DateTime)
  {
    && t.year <= 9999
    && 1 <= t.month <= 12
    && 1 <= t.day <= DaysIn(t.month, t.year)
    && t.hour <= 23 && t.minute <= 59 && t.second <= 59
    && AllDigits(t.fraction)
    && ValidZone(t.zone)
  }

  predicate DigitsAt(s: string, i: nat, n: nat)
  {
    i + n <= |s| && AllDigits(s[i..i + n])
  }

  function NumberAt(s: string, i: nat, n: nat): nat
    requires DigitsAt(s, i, n)
  {
    Value(s[i..i + n])
  }

  lemma {:induction false} ValueBound(s: string)
    requires AllDigits(s)
    ensures Value(s) < Pow10(|s|)
    decreases |s|
  {
    if s != [] {
      assert AllDigits(s[1..]) by {
        forall i | 0 <= i < |s[1..]| ensures IsDigit(s[1..][i]) { assert s[1..][i] == s[i + 1]; }
      }
      ValueBound(s[1..]);
      var p := Pow10(|s| - 1);
      assert Pow10(|s|) == 10 * p;
      ScaleDigit(DigitValue(s[0]), p);
    }
  }

  lemma ScaleDigit(d: nat, p: nat)
    requires d < 10
    ensures d * p <= 9 * p
  {
  }

  /** The longest run of digits at the front of `s`. */
  function LeadingDigits(s: string): (d: string)
    ensures |d| <= |s| && d == s[..|d|] && AllDigits(d)
    ensures |d| < |s| ==> !IsDigit(s[|d|])
  {
    if s == [] || !IsDigit(s[0]) then "" else [s[0]] + LeadingDigits(s[1..])
  }

  /** The "Z07:00" part of the layout: 'Z', or a sign and hh:mm. */
  function ParseZone(z: string): (r: Option<Zone>)
    ensures r.Some? ==> ValidZone(r.value)
  {
    if z == "Z" then Some(Utc)
    else if |z| == 6 && (z[0] == '+' || z[0] == '-') && DigitsAt(z, 1, 2) && z[3] == ':' && DigitsAt(z, 4, 2)
            && NumberAt(z, 1, 2) <= 23 && NumberAt(z, 4, 2) <= 59
    then Some(Offset(z[0] == '-', NumberAt(z, 1, 2), NumberAt(z, 4, 2)))
    else None
  }

  /** The fixed-width part "2006-01-02T15:04:05". */
  predicate Shaped(s: string)
  {
    && |s| >= 20
    && DigitsAt(s, 0, 4) && s[4] == '-' && DigitsAt(s, 5, 2) && s[7] == '-' && DigitsAt(s, 8, 2)
    && s[10] == 'T'
    && DigitsAt(s, 11, 2) && s[13] == ':' && DigitsAt(s, 14, 2) && s[16] == ':' && DigitsAt(s, 17, 2)
  }

  /** What may follow the seconds: an optional '.' and one or more digits,
      then the zone. Gives the fraction digits and the zone. */
  function ParseTail(rest: string): Option<(string, Zone)>
  {
    if rest != [] && rest[0] == '.' then
      var fraction := LeadingDigits(rest[1..]);
      if fraction == "" then None
      else
        match ParseZone(rest[1 + |fraction|..])
        case None => None
        case Some(zone) => Some((fraction, zone))
    else
      match ParseZone(rest)
      case None => None
      case Some(zone) => Some(("", zone))
  }

  /** time.Parse(time.RFC3339, s), giving the fields it read. */
  function Parse(s: string): (r: Option<DateTime>)
    ensures r.Some? ==> Valid(r.value)
  {
    if !Shaped(s) then None
    else
      var year, month, day := NumberAt(s, 0, 4), NumberAt(s, 5, 2), NumberAt(s, 8, 2);
      var hour, minute, second := NumberAt(s, 11, 2), NumberAt(s, 14, 2), NumberAt(s, 17, 2);
      if !(1 <= month <= 12 && 1 <= day <= DaysIn(month, year) && hour <= 23 && minute <= 59 && second <= 59) then None
      else
        match ParseTail(s[19..])
        case None => None
        case Some((fraction, zone)) =>
          ValueBound(s[0..4]);
          Some(DateTime(year, month, day, hour, minute, second, fraction, zone))
  }

  /** `width` decimal digits of `n`, with leading zeros. */
  function Pad(n: nat, width: nat): (s: string)
    ensures |s| == width && AllDigits(s)
  {
    if width == 0 then "" else Pad(n / 10, width - 1) + [DigitChar(n % 10)]
  }

  lemma {:induction false} PadValue(n: nat, width: nat)
    requires n < Pow10(width)
    ensures Value(Pad(n, width)) == n
    decreases width
  {
    if width > 0 {
      PadValue(n / 10, width - 1);
      ValueAppend(Pad(n / 10, width - 1), DigitChar(n % 10));
    }
  }

  function FormatZone(z: Zone): string
  {
    match z
    case Utc => "Z"
    case Offset(negative, hours, minutes) =>
      [if negative then '-' else '+'] + Pad(hours, 2) + ":" + Pad(minutes, 2)
  }

  /** The fixed-width part "2006-01-02T15:04:05" of a rendering. */
  function FormatHead(t: DateTime): string
  {
    Pad(t.year, 4) + "-" + Pad(t.month, 2) + "-" + Pad(t.day, 2) + "T"
    + Pad(t.hour, 2) + ":" + Pad(t.minute, 2) + ":" + Pad(t.second, 2)
  }

  /** The fraction, when there is one, and the zone. */
  function FormatTail(fraction: string, zone: Zone): string
  {
    (if fraction == "" then "" else "." + fraction) + FormatZone(zone)
  }

  /** A rendering in the layout, keeping the fraction digits as given. */
  function FormatDateTime(t: DateTime): string
  {
    FormatHead(t) + FormatTail(t.fraction, t.zone)
  }

  lemma ZoneRoundTrip(z: Zone)
    requires ValidZone(z)
    ensures ParseZone(FormatZone(z)) == Some(z)
  {
    if z.Offset? {
      var s := FormatZone(z);
      PadValue(z.hours, 2);
      PadValue(z.minutes, 2);
      assert s[1..3] == Pad(z.hours, 2);
      assert s[4..6] == Pad(z.minutes, 2);
    }
  }

  lemma HeadRoundTrip(t: DateTime, tail: string)
    requires Valid(t) && |tail| >= 1
    ensures var s := FormatHead(t) + tail;
      && Shaped(s) && s[19..] == tail
      && NumberAt(s, 0, 4) == t.year && NumberAt(s, 5, 2) == t.month && NumberAt(s, 8, 2) == t.day
      && NumberAt(s, 11, 2) == t.hour && NumberAt(s, 14, 2) == t.minute && NumberAt(s, 17, 2) == t.second
  {
    var head := FormatHead(t);
    var s := head + tail;
    assert |head| == 19;
    assert s[0..4] == Pad(t.year, 4);
    assert s[5..7] == Pad(t.month, 2);
    assert s[8..10] == Pad(t.day, 2);
    assert s[11..13] == Pad(t.hour, 2);
    assert s[14..16] == Pad(t.minute, 2);
    assert s[17..19] == Pad(t.second, 2);
    assert s[19..] == tail;
    PadValue(t.year, 4);
    PadValue(t.month, 2);
    PadValue(t.day, 2);
    PadValue(t.hour, 2);
    PadValue(t.minute, 2);
    PadValue(t.second, 2);
  }

  lemma TailRoundTrip(fraction: string, zone: Zone)
    requires AllDigits(fraction) && ValidZone(zone)
    ensures ParseTail(FormatTail(fraction, zone)) == Some((fraction, zone))
  {
    ZoneRoundTrip(zone);
    var z := FormatZone(zone);
    assert z[0] == 'Z' || z[0] == '+' || z[0] == '-';
    if fraction == "" {
      assert FormatTail(fraction, zone) == z;
    } else {
      var rest := FormatTail(fraction, zone);
      assert rest[1..] == fraction + z;
      LeadingDigitsOfDigits(fraction, z);
      assert rest[1 + |fraction|..] == z;
    }
  }

  /** Parsing a rendering gives back every field. */
  lemma ParseFormatRoundTrip(t: DateTime)
    requires Valid(t)
    ensures Parse(FormatDateTime(t)) == Some(t)
  {
    var tail := FormatTail(t.fraction, t.zone);
    assert |FormatZone(t.zone)| >= 1;
    HeadRoundTrip(t, tail);
    TailRoundTrip(t.fraction, t.zone);
  }

  /** Padding the value of a run of digits to its own width gives the run
      back, leading zeros included. */
  lemma {:induction false} PadOfDigits(d: string)
    requires AllDigits(d)
    ensures Pad(Value(d), |d|) == d
    decreases |d|
  {
    if d != [] {
      var init, c := d[..|d| - 1], d[|d| - 1];
      assert d == init + [c];
      assert AllDigits(init) by {
        forall i | 0 <= i < |init| ensures IsDigit(init[i]) { assert init[i] == d[i]; }
      }
      ValueAppend(init, c);
      PadOfDigits(init);
      var n := Value(d);
      assert n / 10 == Value(init) && n % 10 == DigitValue(c);
      assert DigitChar(DigitValue(c)) == c;
    }
  }

  /** Every zone ParseZone accepts is the rendering of what it gives. */
  lemma ZoneAccepted(z: string)
    requires ParseZone(z).Some?
    ensures FormatZone(ParseZone(z).value) == z
  {
    if z != "Z" {
      PadOfDigits(z[1..3]);
      PadOfDigits(z[4..6]);
      assert z == [z[0]] + z[1..3] + ":" + z[4..6];
    }
  }

  /** Every tail ParseTail accepts is the rendering of what it gives. */
  lemma TailAccepted(rest: string)
    requires ParseTail(rest).Some?
    ensures FormatTail(ParseTail(rest).value.0, ParseTail(rest).value.1) == rest
  {
    if rest != [] && rest[0] == '.' {
      var fraction := LeadingDigits(rest[1..]);
      var z := rest[1 + |fraction|..];
      ZoneAccepted(z);
      assert rest[1..] == fraction + z;
      assert rest == "." + fraction + z;
    } else {
      ZoneAccepted(rest);
    }
  }

  /** The first 19 characters of a shaped text are the rendering of the
      numbers read from them. */
  lemma HeadAccepted(s: string, t: DateTime)
    requires Shaped(s)
    requires t.year == NumberAt(s, 0, 4) && t.month == NumberAt(s, 5, 2) && t.day == NumberAt(s, 8, 2)
    requires t.hour == NumberAt(s, 11, 2) && t.minute == NumberAt(s, 14, 2) && t.second == NumberAt(s, 17, 2)
    ensures FormatHead(t) == s[..19]
  {
    PadOfDigits(s[0..4]);
    PadOfDigits(s[5..7]);
    PadOfDigits(s[8..10]);
    PadOfDigits(s[11..13]);
    PadOfDigits(s[14..16]);
    PadOfDigits(s[17..19]);
    assert s[..19] == s[0..4] + "-" + s[5..7] + "-" + s[8..10] + "T" + s[11..13] + ":" + s[14..16] + ":" + s[17..19];
  }

  /** Parse accepts exactly the renderings of valid date-times: whatever it
      accepts is the rendering of what it gives back. */
  lemma AcceptedIsRendering(s: string)
    requires Parse(s).Some?
    ensures FormatDateTime(Parse(s).value) == s
  {
    var t := Parse(s).value;
    HeadAccepted(s, t);
    TailAccepted(s[19..]);
    assert s == s[..19] + s[19..];
  }

  lemma {:induction false} LeadingDigitsOfDigits(d: string, z: string)
    requires AllDigits(d)
    requires z != [] && !IsDigit(z[0])
    ensures LeadingDigits(d + z) == d
    decreases |d|
  {
    if d == [] {
      assert d + z == z;
    } else {
      assert (d + z)[1..] == d[1..] + z;
      assert AllDigits(d[1..]) by {
        forall i | 0 <= i < |d[1..]| ensures IsDigit(d[1..][i]) { assert d[1..][i] == d[i + 1]; }
      }
      LeadingDigitsOfDigits(d[1..], z);
    }
  }
}
