/** model.go: the stored record and the three parsers for its typed fields. */
module Model {
  import opened Util
  import opened Decimal
  import Rfc3339

  /** model.go's Model. gorm's CreatedAt, UpdatedAt and DeletedAt are not modelled. */
  datatype Record = Record(
    id: nat,
    email: string,
    password: string,  // the protected form, never the password itself
    compromised: bool,
    protectionScheme: string,
    name: string,
    age: nat,
    number: int,
    date: Rfc3339.DateTime)

  /** ParseAgeFromString: a 32-bit unsigned decimal, no sign allowed. */
  function ParseAgeFromString(s: string): (r: Result<nat>)
    ensures r.Ok? <==> s != [] && AllDigits(s) && Value(s) <= MaxUint32
    ensures r.Ok? ==> r.value == Value(s)
  {
    match ParseUint32(s)
    case Ok(age) => Ok(age)
    case Err(e) => Err(e)
  }

  /** ParseNumberFromString: a 32-bit signed decimal with an optional sign. */
  function ParseNumberFromString(s: string): (r: Result<int>)
    ensures r.Ok? ==> MinInt32 <= r.value <= MaxInt32
    ensures r.Ok? <==>
      s != [] && SplitSign(s).1 != [] && AllDigits(SplitSign(s).1) &&
      Value(SplitSign(s).1) <= if SplitSign(s).0 then -MinInt32 else MaxInt32
    ensures r.Ok? ==>
      r.value == if SplitSign(s).0 then -(Value(SplitSign(s).1) as int) else Value(SplitSign(s).1)
  {
    match ParseInt32(s)
    case Ok(number) => Ok(number)
    case Err(e) => Err(e)
  }

  /** ParseDateFromString: time.Parse with the RFC 3339 layout. Go also
      prints the error; that output is not modelled. */
  function ParseDateFromString(s: string): (r: Result<Rfc3339.DateTime>)
    ensures r.Ok? ==> Rfc3339.Valid(r.value)
  {
    match Rfc3339.Parse(s)
    case Some(date) => Ok(date)
    case None => Err(LibraryError("parsing time as RFC 3339"))
  }

  /** Both integer parsers read back the canonical rendering of any value in range. */
  lemma IntegerRoundTrips(n: nat, i: int)
    requires n <= MaxUint32 && MinInt32 <= i <= MaxInt32
    ensures ParseAgeFromString(Format(n)) == Ok(n)
    ensures ParseNumberFromString(FormatInt(i)) == Ok(i)
  {
    ParseUint32RoundTrip(n);
    ParseInt32RoundTrip(i);
  }

  /** A sign makes a string unacceptable as an age, but an explicit '+' or
      '-' before digits is accepted as a number ("+5", "-0"). */
  lemma SignedInputs(n: nat)
    requires n <= MaxInt32
    ensures ParseAgeFromString("+" + Format(n)).Err? && ParseAgeFromString("-" + Format(n)).Err?
    ensures ParseNumberFromString("+" + Format(n)) == Ok(n)
    ensures ParseNumberFromString("-" + Format(n)) == Ok(-(n as int))
  {
    FormatValue(n);
    assert ("+" + Format(n))[1..] == Format(n);
    assert ("-" + Format(n))[1..] == Format(n);
    assert !IsDigit(("+" + Format(n))[0]);
    assert !IsDigit(("-" + Format(n))[0]);
  }

  /** The date parser reads back every field of a rendering in the layout. */
  lemma DateRoundTrip(t: Rfc3339.DateTime)
    requires Rfc3339.Valid(t)
    ensures ParseDateFromString(Rfc3339.FormatDateTime(t)) == Ok(t)
  {
    Rfc3339.ParseFormatRoundTrip(t);
  }

  /** A date is accepted exactly when it is the rendering of a valid date
      and time, and then it is read back as that date and time. */
  lemma AcceptedDates(s: string)
    ensures ParseDateFromString(s).Ok? <==> exists t :: Rfc3339.Valid(t) && Rfc3339.FormatDateTime(t) == s
    ensures ParseDateFromString(s).Ok? ==> Rfc3339.FormatDateTime(ParseDateFromString(s).value) == s
  {
    if ParseDateFromString(s).Ok? {
      Rfc3339.AcceptedIsRendering(s);
    }
    if exists t :: Rfc3339.Valid(t) && Rfc3339.FormatDateTime(t) == s {
      var t :| Rfc3339.Valid(t) && Rfc3339.FormatDateTime(t) == s;
      Rfc3339.ParseFormatRoundTrip(t);
    }
  }
}
