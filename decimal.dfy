/** Go's strconv as the source uses it: `ParseUint(s, 10, 32)`,
    `ParseInt(s, 10, 32)` and `FormatUint(n, 10)`.

    Go strings are byte strings; here each `char` stands for one byte. */
module Decimal {
  import opened Util

  const MaxUint32: nat := 0xFFFF_FFFF
  const MinInt32: int := -0x8000_0000
  const MaxInt32: int := 0x7FFF_FFFF

  predicate IsDigit(c: char) { '0' <= c <= '9' }

  predicate AllDigits(s: string) { forall i | 0 <= i < |s| :: IsDigit(s[i]) }

  function DigitValue(c: char): (d: nat)
    requires IsDigit(c)
    ensures d < 10
  {
    c as int - '0' as int
  }

  function DigitChar(d: nat): (c: char)
    requires d < 10
    ensures IsDigit(c) && DigitValue(c) == d
  {
    ('0' as int + d) as char
  }

  function Pow10(k: nat): (p: nat)
    ensures p >= 1
  {
    if k == 0 then 1 else 10 * Pow10(k - 1)
  }

  /** The number a string of decimal digits denotes, most significant digit first. */
  function Value(s: string): nat
    requires AllDigits(s)
  {
    if s == [] then 0 else DigitValue(s[0]) * Pow10(|s| - 1) + Value(s[1..])
  }

  /** strconv's digit loop: consume the digits left to right, accumulating the
      value in `acc`, and give up on a non-digit or as soon as the value
      passes `max` (strconv reports a syntax or a range error there). */
  function Scan(s: string, acc: nat, max: nat): Option<nat>
    decreases |s|
  {
    if s == [] then Some(acc)
    else if !IsDigit(s[0]) then None
    else
      var n := acc * 10 + DigitValue(s[0]);
      if n > max then None else Scan(s[1..], n, max)
  }

  /** Shifting the accumulator one place to the left before adding the next digit. */
  lemma ShiftDigit(acc: nat, d: nat, k: nat)
    ensures acc * Pow10(k + 1) + d * Pow10(k) == (acc * 10 + d) * Pow10(k)
  {
    calc {
      acc * Pow10(k + 1) + d * Pow10(k);
      acc * (10 * Pow10(k)) + d * Pow10(k);
      { assert acc * (10 * Pow10(k)) == (acc * 10) * Pow10(k); }
      (acc * 10) * Pow10(k) + d * Pow10(k);
    }
  }

  lemma AtLeastItself(n: nat, p: nat)
    requires p >= 1
    ensures n * p >= n
  {
    assert n * p == n * (p - 1) + n;
  }

  /** The early-exit scan accepts exactly the all-digit strings whose value,
      appended to `acc`, stays within `max`, and then yields that value. */
  lemma {:induction false} ScanMeaning(s: string, acc: nat, max: nat)
    requires acc <= max
    ensures Scan(s, acc, max).Some? <==> AllDigits(s) && acc * Pow10(|s|) + Value(s) <= max
    ensures Scan(s, acc, max).Some? ==> Scan(s, acc, max).value == acc * Pow10(|s|) + Value(s)
    decreases |s|
  {
    if s == [] {
    } else if !IsDigit(s[0]) {
    } else {
      var n := acc * 10 + DigitValue(s[0]);
      var k := |s| - 1;
      assert AllDigits(s) <==> AllDigits(s[1..]) by {
        if AllDigits(s[1..]) {
          forall i | 0 <= i < |s| ensures IsDigit(s[i]) {
            if i > 0 { assert s[i] == s[1..][i - 1]; }
          }
        }
      }
      if AllDigits(s) {
        ShiftDigit(acc, DigitValue(s[0]), k);
        assert acc * Pow10(|s|) + Value(s) == n * Pow10(k) + Value(s[1..]);
      }
      if n > max {
        if AllDigits(s) {
          AtLeastItself(n, Pow10(k));
        }
      } else {
        ScanMeaning(s[1..], n, max);
      }
    }
  }

  /** strconv.ParseUint(s, 10, 32): one or more ASCII digits, no sign, value
      at most 2^32 - 1. */
  function ParseUint32(s: string): (r: Result<nat>)
    ensures r.Ok? <==> s != [] && AllDigits(s) && Value(s) <= MaxUint32
    ensures r.Ok? ==> r.value == Value(s)
  {
    ScanMeaning(s, 0, MaxUint32);
    if s == [] then Err(LibraryError("strconv.ParseUint: invalid syntax"))
    else
      match Scan(s, 0, MaxUint32)
      case Some(n) => Ok(n)
      case None => Err(LibraryError("strconv.ParseUint: invalid syntax or value out of range"))
  }

  /** The sign handling of strconv.ParseInt: an optional leading '+' or '-'. */
  function SplitSign(s: string): (bool, string)
  {
    if s != [] && (s[0] == '+' || s[0] == '-') then (s[0] == '-', s[1..]) else (false, s)
  }

  /** strconv.ParseInt(s, 10, 32): an optional sign, then ParseUint on the
      digits, then the signed 32-bit range check. */
  function ParseInt32(s: string): (r: Result<int>)
    ensures r.Ok? <==>
      s != [] && SplitSign(s).1 != [] && AllDigits(SplitSign(s).1) &&
      Value(SplitSign(s).1) <= if SplitSign(s).0 then -MinInt32 else MaxInt32
    ensures r.Ok? ==>
      MinInt32 <= r.value <= MaxInt32 &&
      r.value == if SplitSign(s).0 then -(Value(SplitSign(s).1) as int) else Value(SplitSign(s).1)
  {
    if s == [] then Err(LibraryError("strconv.ParseInt: invalid syntax"))
    else
      var (neg, digits) := SplitSign(s);
      match ParseUint32(digits)
      case Err(e) => Err(e)
      case Ok(un) =>
        if !neg && un >= 0x8000_0000 then Err(LibraryError("strconv.ParseInt: value out of range"))
        else if neg && un > 0x8000_0000 then Err(LibraryError("strconv.ParseInt: value out of range"))
        else Ok(if neg then -(un as int) else un)
  }

  /** strconv.FormatUint(n, 10): the canonical rendering, without leading zeros. */
  function Format(n: nat): (s: string)
    ensures s != [] && AllDigits(s)
    ensures s[0] == '0' ==> n == 0
  {
    if n < 10 then [DigitChar(n)] else Format(n / 10) + [DigitChar(n % 10)]
  }

  /** strconv.FormatInt(i, 10): a '-' before the rendering of a negative number. */
  function FormatInt(i: int): string
  {
    if i < 0 then "-" + Format(-i) else Format(i)
  }

  lemma {:induction false} ValueAppend(s: string, c: char)
    requires AllDigits(s) && IsDigit(c)
    ensures AllDigits(s + [c]) && Value(s + [c]) == Value(s) * 10 + DigitValue(c)
    decreases |s|
  {
    if s == [] {
      assert s + [c] == [c];
    } else {
      var t := s + [c];
      assert t[1..] == s[1..] + [c];
      assert AllDigits(s[1..]) by {
        forall i | 0 <= i < |s[1..]| ensures IsDigit(s[1..][i]) { assert s[1..][i] == s[i + 1]; }
      }
      ValueAppend(s[1..], c);
      var d := DigitValue(s[0]);
      calc {
        Value(t);
        d * Pow10(|s|) + Value(s[1..] + [c]);
        d * Pow10(|s|) + Value(s[1..]) * 10 + DigitValue(c);
        { assert d * Pow10(|s|) == d * Pow10(|s| - 1) * 10; }
        (d * Pow10(|s| - 1) + Value(s[1..])) * 10 + DigitValue(c);
        Value(s) * 10 + DigitValue(c);
      }
    }
  }

  /** Rendering then reading back gives the number. */
  lemma {:induction false} FormatValue(n: nat)
    ensures Value(Format(n)) == n
    decreases n
  {
    if n < 10 {
      assert Format(n)[1..] == [];
    } else {
      FormatValue(n / 10);
      ValueAppend(Format(n / 10), DigitChar(n % 10));
    }
  }

  /** ParseUint32 reads back the canonical rendering of any 32-bit unsigned value. */
  lemma ParseUint32RoundTrip(n: nat)
    requires n <= MaxUint32
    ensures ParseUint32(Format(n)) == Ok(n)
  {
    FormatValue(n);
  }

  /** ParseInt32 reads back the canonical rendering of any 32-bit signed value. */
  lemma ParseInt32RoundTrip(i: int)
    requires MinInt32 <= i <= MaxInt32
    ensures ParseInt32(FormatInt(i)) == Ok(i)
  {
    if i < 0 {
      FormatValue(-i);
      assert ("-" + Format(-i))[1..] == Format(-i);
    } else {
      FormatValue(i);
    }
  }
}
