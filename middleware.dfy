/** middleware.go: the gin middlewares that check query parameters (filter,
    order, pagination) and the bearer-token gate.

    Each middleware takes the request values it reads and ends in an
    `Outcome`: `Done` with what it would store with `c.Set` before `c.Next()`,
    `Fail(AppError(code, msg))` for an `ErrorReply` (which aborts the chain),
    or `Panic`. */
module Middleware {
  import opened Util
  import opened Decimal
  import opened Model
  import opened Usecases

  // ------------------------------------------------------------ getFilterOperator

  predicate IsOperator(c: char) { c == '>' || c == '<' || c == '=' }

  /** Every operator a filter clause may carry. */
  const Operators: set<string> := {"=", "<", ">", ">=", "<=", "<>"}

  /** The three results of getFilterOperator: the value after the operator,
      the operator, and whether it is a supported one. */
  datatype OperatorSplit = OperatorSplit(value: string, operator: string, valid: bool)

  /** getFilterOperator: a two-character operator prefix is taken before a
      one-character one; a lone character is always a bare value. */
  function GetFilterOperator(v: string): (r: OperatorSplit)
    ensures r.valid ==> r.operator in Operators
    ensures |v| >= 2 && IsOperator(v[0]) ==> r.operator + r.value == v
    ensures !(|v| >= 2 && IsOperator(v[0])) ==> r == OperatorSplit(v, "=", true)
    ensures !r.valid ==> |r.operator| == 2 && IsOperator(r.operator[0]) && IsOperator(r.operator[1])
  {
    if |v| == 1 then OperatorSplit(v, "=", true)
    else if |v| >= 1 && IsOperator(v[0]) then
      if |v| >= 2 && IsOperator(v[1]) then
        var s := v[0..2];
        OperatorSplit(v[2..], s, s == ">=" || s == "<=" || s == "<>")
      else
        OperatorSplit(v[1..], [v[0]], true)
    else
      OperatorSplit(v, "=", true)
  }

  /** The four cases of getFilterOperator, longest prefix first. */
  lemma OperatorCases(v: string)
    ensures |v| <= 1 ==> GetFilterOperator(v) == OperatorSplit(v, "=", true)
    ensures |v| >= 2 && IsOperator(v[0]) && IsOperator(v[1]) ==>
      && GetFilterOperator(v).operator == v[..2]
      && GetFilterOperator(v).value == v[2..]
      && (GetFilterOperator(v).valid <==> v[..2] in {">=", "<=", "<>"})
    ensures |v| >= 2 && IsOperator(v[0]) && !IsOperator(v[1]) ==>
      GetFilterOperator(v) == OperatorSplit(v[1..], v[..1], true)
    ensures |v| >= 1 && !IsOperator(v[0]) ==> GetFilterOperator(v) == OperatorSplit(v, "=", true)
  {
  }

  /** "==", "=>", "><" and the like are reported invalid, yet still split off. */
  lemma UnsupportedPairs(rest: string)
    ensures forall p | p in {"==", "=>", "=<", "><", ">>", "<<"} ::
      GetFilterOperator(p + rest) == OperatorSplit(rest, p, false)
  {
    forall p | p in {"==", "=>", "=<", "><", ">>", "<<"}
      ensures GetFilterOperator(p + rest) == OperatorSplit(rest, p, false)
    {
      assert (p + rest)[..2] == p;
      assert (p + rest)[2..] == rest;
    }
  }

  // ------------------------------------------------------------ defaultFilter

  /** The query parameters a filter may be built from, in the order they are read. */
  datatype Field = Name | Age | Number | Date

  const FilterFields: seq<Field> := [Name, Age, Number, Date]

  function FieldName(f: Field): string
  {
    match f
    case Name => "name"
    case Age => "age"
    case Number => "number"
    case Date => "date"
  }

  /** The clause a field's condition carries: "<field> <operator> ?". */
  function Clause(f: Field, op: string): string
  {
    match f
    case Name => "name " + op + " ?"
    case Age => "age " + op + " ?"
    case Number => "number " + op + " ?"
    case Date => "date " + op + " ?"
  }

  /** The refusal of a field's operator. */
  function OperatorRefusal(f: Field): string
    requires f != Name
  {
    if f == Age then "Invalid operator for age"
    else if f == Number then "Invalid operator for number"
    else "Invalid operator for date"
  }

  /** The refusal of a field's value. */
  function ValueRefusal(f: Field): string
    requires f != Name
  {
    if f == Age then "Invalid value for age"
    else if f == Number then "Invalid value for number"
    else "Invalid value for date"
  }

  /** Clauses and refusals all name their field the same way. */
  lemma FieldTexts(f: Field, op: string)
    ensures Clause(f, op) == FieldName(f) + " " + op + " ?"
    ensures f != Name ==> OperatorRefusal(f) == "Invalid operator for " + FieldName(f)
    ensures f != Name ==> ValueRefusal(f) == "Invalid value for " + FieldName(f)
  {
  }

  /** The values of c.Query("name"), c.Query("age"), c.Query("number") and
      c.Query("date"); an absent parameter reads as "". */
  datatype FilterParams = FilterParams(name: string, age: string, number: string, date: string)

  function Param(q: FilterParams, f: Field): string
  {
    match f
    case Name => q.name
    case Age => q.age
    case Number => q.number
    case Date => q.date
  }

  /** The type check of a field's value, by the parser model.go has for it. */
  predicate Accepts(f: Field, value: string)
  {
    match f
    case Name => true
    case Age => ParseAgeFromString(value).Ok?
    case Number => ParseNumberFromString(value).Ok?
    case Date => ParseDateFromString(value).Ok?
  }

  /** The condition that one non-empty parameter adds, or why it is refused:
      the operator is checked before the value, and the name takes no operator. */
  function FieldCondition(f: Field, raw: string): (r: Outcome<Condition>)
    ensures !r.Panic?
    ensures f == Name ==> r == Done(Condition("name = ?", raw))
    ensures f != Name && !GetFilterOperator(raw).valid ==>
      r == Fail(AppError(StatusBadRequest, OperatorRefusal(f)))
    ensures f != Name && GetFilterOperator(raw).valid && !Accepts(f, GetFilterOperator(raw).value) ==>
      r == Fail(AppError(StatusBadRequest, ValueRefusal(f)))
  {
    if f == Name then Done(Condition("name = ?", raw))
    else
      var split := GetFilterOperator(raw);
      if !split.valid then Fail(AppError(StatusBadRequest, OperatorRefusal(f)))
      else if !Accepts(f, split.value) then Fail(AppError(StatusBadRequest, ValueRefusal(f)))
      else Done(Condition(Clause(f, split.operator), split.value))
  }

  /** The filter for the given fields, taken in order: empty parameters are
      skipped, and the first refusal is the answer. */
  function Conditions(fields: seq<Field>, q: FilterParams): Outcome<seq<Condition>>
  {
    if fields == [] then Done([])
    else if Param(q, fields[0]) == "" then Conditions(fields[1..], q)
    else
      match FieldCondition(fields[0], Param(q, fields[0]))
      case Panic(e) => Panic(e)
      case Fail(e) => Fail(e)
      case Done(c) =>
        match Conditions(fields[1..], q)
        case Panic(e) => Panic(e)
        case Fail(e) => Fail(e)
        case Done(cs) => Done([c] + cs)
  }

  /** `o` with the conditions `qs` put in front when it is a stored filter. */
  function Prefixed(qs: seq<Condition>, o: Outcome<seq<Condition>>): Outcome<seq<Condition>>
  {
    match o
    case Done(cs) => Done(qs + cs)
    case Fail(e) => Fail(e)
    case Panic(e) => Panic(e)
  }

  /** One step of Conditions, seen through the conditions already collected:
      an empty parameter is skipped, a refused one ends the filter, an
      accepted one adds its condition. */
  lemma PrefixedStep(qs: seq<Condition>, f: Field, fields: seq<Field>, q: FilterParams)
    requires fields != [] && fields[0] == f
    ensures Param(q, f) == "" ==> Prefixed(qs, Conditions(fields, q)) == Prefixed(qs, Conditions(fields[1..], q))
    ensures Param(q, f) != "" && FieldCondition(f, Param(q, f)).Fail? ==>
      Prefixed(qs, Conditions(fields, q)) == Fail(FieldCondition(f, Param(q, f)).failure)
    ensures Param(q, f) != "" && FieldCondition(f, Param(q, f)).Done? ==>
      Prefixed(qs, Conditions(fields, q)) == Prefixed(qs + [FieldCondition(f, Param(q, f)).value], Conditions(fields[1..], q))
  {
    var raw := Param(q, f);
    if raw != "" {
      var fc := FieldCondition(f, raw);
      if fc.Done? {
        match Conditions(fields[1..], q)
        case Done(cs) =>
          assert Conditions(fields, q) == Done([fc.value] + cs);
          assert qs + ([fc.value] + cs) == (qs + [fc.value]) + cs;
        case Fail(e) =>
        case Panic(e) =>
      }
    }
  }

  /** The condition an accepted field adds: its name, its operator and its value. */
  lemma FieldConditionCases(f: Field, raw: string)
    requires f != Name
    ensures var split := GetFilterOperator(raw);
      split.valid && Accepts(f, split.value) ==>
      FieldCondition(f, raw) == Done(Condition(Clause(f, split.operator), split.value))
  {
  }

  /** The positions of FilterFields, and the whole filter as an empty prefix. */
  lemma FilterFieldsOrder(q: FilterParams)
    ensures FilterFields[0] == Name && FilterFields[1..] != [] && FilterFields[1..][0] == Age
    ensures FilterFields[1..][1..] != [] && FilterFields[1..][1..][0] == Number
    ensures FilterFields[1..][1..][1..] != [] && FilterFields[1..][1..][1..][0] == Date
    ensures FilterFields[1..][1..][1..][1..] == []
    ensures Prefixed([], Conditions(FilterFields, q)) == Conditions(FilterFields, q)
  {
    match Conditions(FilterFields, q)
    case Done(cs) => assert [] + cs == cs;
    case Fail(e) =>
    case Panic(e) =>
  }

  /** defaultFilter: the conditions it stores under "filter", or its ErrorReply. */
  method Filter(q: FilterParams) returns (r: Outcome<seq<Condition>>)
    ensures r == Conditions(FilterFields, q)
  {
    var queries: seq<Condition> := [];
    FilterFieldsOrder(q);
    PrefixedStep(queries, Name, FilterFields, q);

    if q.name != "" {
      queries := queries + [Condition("name = ?", q.name)];
    }
    PrefixedStep(queries, Age, FilterFields[1..], q);
    if q.age != "" {
      var split := GetFilterOperator(q.age);
      FieldConditionCases(Age, q.age);
      if !split.valid {
        return Fail(AppError(StatusBadRequest, "Invalid operator for age"));
      }
      if ParseAgeFromString(split.value).Err? {
        return Fail(AppError(StatusBadRequest, "Invalid value for age"));
      }
      queries := queries + [Condition("age " + split.operator + " ?", split.value)];
    }
    PrefixedStep(queries, Number, FilterFields[1..][1..], q);
    if q.number != "" {
      var split := GetFilterOperator(q.number);
      FieldConditionCases(Number, q.number);
      if !split.valid {
        return Fail(AppError(StatusBadRequest, "Invalid operator for number"));
      }
      if ParseNumberFromString(split.value).Err? {
        return Fail(AppError(StatusBadRequest, "Invalid value for number"));
      }
      queries := queries + [Condition("number " + split.operator + " ?", split.value)];
    }
    PrefixedStep(queries, Date, FilterFields[1..][1..][1..], q);
    if q.date != "" {
      var split := GetFilterOperator(q.date);
      FieldConditionCases(Date, q.date);
      if !split.valid {
        return Fail(AppError(StatusBadRequest, "Invalid operator for date"));
      }
      if ParseDateFromString(split.value).Err? {
        return Fail(AppError(StatusBadRequest, "Invalid value for date"));
      }
      queries := queries + [Condition("date " + split.operator + " ?", split.value)];
    }
    assert queries + [] == queries;
    return Done(queries);
  }

  /** The fields whose parameter is non-empty, in order. */
  function Requested(fields: seq<Field>, q: FilterParams): (req: seq<Field>)
    ensures |req| <= |fields|
  {
    if fields == [] then []
    else if Param(q, fields[0]) == "" then Requested(fields[1..], q)
    else [fields[0]] + Requested(fields[1..], q)
  }

  /** What a stored condition says about its field: a clause made only of the
      field name and a supported operator, and the user's text only as the
      bound value (the name always with "="). That the value passed its
      parser is FilterAccepted's part. */
  predicate Describes(c: Condition, f: Field, raw: string)
  {
    if f == Name then c == Condition("name = ?", raw)
    else
      var split := GetFilterOperator(raw);
      && split.operator in Operators
      && c == Condition(Clause(f, split.operator), split.value)
  }

  /** A filter that is stored has one condition per non-empty parameter, in
      field order, each describing its parameter. */
  lemma {:induction false} FilterConditionsDescribe(fields: seq<Field>, q: FilterParams)
    requires Conditions(fields, q).Done?
    ensures var cs, req := Conditions(fields, q).value, Requested(fields, q);
      |cs| == |req| && forall i | 0 <= i < |cs| :: Describes(cs[i], req[i], Param(q, req[i]))
    decreases |fields|
  {
    if fields != [] {
      FilterConditionsDescribe(fields[1..], q);
      if Param(q, fields[0]) != "" {
        var cs, req := Conditions(fields, q).value, Requested(fields, q);
        var f := fields[0];
        var tail := Conditions(fields[1..], q).value;
        assert cs == [FieldCondition(f, Param(q, f)).value] + tail;
        assert req == [f] + Requested(fields[1..], q);
        forall i | 0 <= i < |cs| ensures Describes(cs[i], req[i], Param(q, req[i])) {
          if i > 0 {
            assert cs[i] == tail[i - 1] && req[i] == Requested(fields[1..], q)[i - 1];
          }
        }
      }
    }
  }

  /** Every clause comes from a fixed vocabulary: a field name and a supported
      operator, never text from the request. */
  const Clauses: set<string> :=
    set f, op | f in FilterFields && op in Operators :: Clause(f, op)

  lemma ClauseInClauses(f: Field, op: string)
    requires op in Operators
    ensures Clause(f, op) in Clauses
  {
    assert f in FilterFields;
  }

  lemma FilterClausesFixed(fields: seq<Field>, q: FilterParams)
    requires Conditions(fields, q).Done?
    ensures forall c | c in Conditions(fields, q).value :: c.clause in Clauses
  {
    var cs, req := Conditions(fields, q).value, Requested(fields, q);
    FilterConditionsDescribe(fields, q);
    forall i | 0 <= i < |cs| ensures cs[i].clause in Clauses {
      var f := req[i];
      if f == Name {
        assert cs[i].clause == Clause(Name, "=");
        ClauseInClauses(Name, "=");
      } else {
        ClauseInClauses(f, GetFilterOperator(Param(q, f)).operator);
      }
    }
  }

  lemma {:induction false} RequestedWithin(fields: seq<Field>, q: FilterParams)
    ensures forall f | f in Requested(fields, q) :: f in fields && Param(q, f) != ""
    decreases |fields|
  {
    if fields != [] {
      RequestedWithin(fields[1..], q);
    }
  }

  /** The parameter of `f` yields a condition. */
  predicate Accepted(f: Field, q: FilterParams)
  {
    FieldCondition(f, Param(q, f)).Done?
  }

  /** Every requested field in `req` is accepted. */
  predicate AllAccepted(req: seq<Field>, q: FilterParams)
  {
    forall j | 0 <= j < |req| :: Accepted(req[j], q)
  }

  /** `req[k]` is refused with `e`, and every field before it is accepted. */
  predicate FirstRefused(req: seq<Field>, q: FilterParams, k: nat, e: Failure)
  {
    && k < |req|
    && FieldCondition(req[k], Param(q, req[k])) == Fail(e)
    && AllAccepted(req[..k], q)
  }

  lemma AcceptedCons(f: Field, rest: seq<Field>, q: FilterParams)
    ensures AllAccepted([f] + rest, q) <==> Accepted(f, q) && AllAccepted(rest, q)
  {
    var req := [f] + rest;
    if Accepted(f, q) && AllAccepted(rest, q) {
      forall j | 0 <= j < |req| ensures Accepted(req[j], q) {
        if j > 0 { assert req[j] == rest[j - 1]; }
      }
    }
    if AllAccepted(req, q) {
      assert req[0] == f;
      forall j | 0 <= j < |rest| ensures Accepted(rest[j], q) {
        assert req[j + 1] == rest[j];
      }
    }
  }

  /** A filter is stored exactly when every non-empty parameter is accepted;
      Conditions never panics. */
  lemma {:induction false} FilterAccepted(fields: seq<Field>, q: FilterParams)
    ensures !Conditions(fields, q).Panic?
    ensures Conditions(fields, q).Done? <==> AllAccepted(Requested(fields, q), q)
    decreases |fields|
  {
    if fields != [] {
      FilterAccepted(fields[1..], q);
      if Param(q, fields[0]) != "" {
        AcceptedCons(fields[0], Requested(fields[1..], q), q);
      }
    }
  }

  /** A refused filter answers with the refusal of the first refused
      non-empty parameter. */
  lemma {:induction false} FilterFirstRefusal(fields: seq<Field>, q: FilterParams)
    requires Conditions(fields, q).Fail?
    ensures exists k: nat :: FirstRefused(Requested(fields, q), q, k, Conditions(fields, q).failure)
    decreases |fields|
  {
    var f := fields[0];
    var rest := Requested(fields[1..], q);
    if Param(q, f) == "" {
      FilterFirstRefusal(fields[1..], q);
      var k: nat :| FirstRefused(rest, q, k, Conditions(fields[1..], q).failure);
      assert Requested(fields, q) == rest;
      assert FirstRefused(Requested(fields, q), q, k, Conditions(fields, q).failure);
    } else {
      var req := [f] + rest;
      assert Requested(fields, q) == req;
      var e := Conditions(fields, q).failure;
      if FieldCondition(f, Param(q, f)).Fail? {
        assert req[..0] == [];
        assert FirstRefused(req, q, 0, e);
      } else {
        FilterFirstRefusal(fields[1..], q);
        var k: nat :| FirstRefused(rest, q, k, e);
        assert req[..k + 1] == [f] + rest[..k];
        AcceptedCons(f, rest[..k], q);
        assert req[k + 1] == rest[k];
        assert FirstRefused(req, q, k + 1, e);
      }
    }
  }

  // ------------------------------------------------------------ defaultOrder

  const OrderFields: set<string> := {"id", "name", "age", "number", "date"}

  /** defaultOrder: the one-pair map it stores under "order", or its ErrorReply.
      The field is checked before the direction; neither is ever defaulted
      when given. */
  method Order(orderParam: string, orderDirParam: string) returns (r: Outcome<map<string, string>>)
    ensures !r.Panic?
    ensures orderParam != "" && orderParam !in OrderFields ==>
      r == Fail(AppError(StatusBadRequest, "Invalid order field"))
    ensures (orderParam == "" || orderParam in OrderFields) && orderDirParam !in {"", "ASC", "DESC"} ==>
      r == Fail(AppError(StatusBadRequest, "Invalid order direction"))
    ensures r.Done? <==> (orderParam == "" || orderParam in OrderFields) && orderDirParam in {"", "ASC", "DESC"}
    ensures r.Done? ==> |r.value| == 1 && forall k | k in r.value :: k in OrderFields && r.value[k] in {"ASC", "DESC"}
    ensures r.Done? && orderParam == "" && orderDirParam == "" ==> r.value == map["id" := "DESC"]
    ensures r.Done? && orderParam != "" ==> orderParam in r.value
    ensures r.Done? && orderDirParam != "" ==> forall k | k in r.value :: r.value[k] == orderDirParam
    ensures r.Done? ==>
      r.value == map[(if orderParam == "" then "id" else orderParam) := (if orderDirParam == "" then "DESC" else orderDirParam)]
  {
    var orderField := "id";
    var orderDir := "DESC";

    if orderParam != "" {
      if orderParam !in OrderFields {
        return Fail(AppError(StatusBadRequest, "Invalid order field"));
      }
      orderField := orderParam;
    }

    if orderDirParam != "" {
      if orderDirParam != "ASC" && orderDirParam != "DESC" {
        return Fail(AppError(StatusBadRequest, "Invalid order direction"));
      }
      orderDir := orderDirParam;
    }

    return Done(map[orderField := orderDir]);
  }

  // ------------------------------------------------------------ defaultPaginate

  /** The "limit" and "offset" stored by defaultPaginate; -1 means unset. */
  datatype Window = Window(limit: int, offset: int)

  /** genIsLimitValid */
  predicate IsLimitValid(l: int) { l > 0 }

  /** genIsOffsetValid */
  predicate IsOffsetValid(o: int) { o >= 0 }

  /** defaultPaginate: a limit must parse as a 32-bit integer above zero; an
      offset is read only after a limit, and must parse and not be negative. */
  method Paginate(limitParam: string, offsetParam: string) returns (r: Outcome<Window>)
    ensures !r.Panic?
    ensures r.Fail? ==> r.failure in {AppError(StatusBadRequest, "Invalid limit"), AppError(StatusBadRequest, "Invalid offset")}
    ensures limitParam == "" ==> r == Done(Window(-1, -1))
    ensures limitParam != "" ==>
      (r == Fail(AppError(StatusBadRequest, "Invalid limit")) <==>
       !(ParseInt32(limitParam).Ok? && IsLimitValid(ParseInt32(limitParam).value)))
    ensures r.Done? && limitParam != "" ==> ParseInt32(limitParam) == Ok(r.value.limit)
    ensures r.Done? ==> (r.value.offset != -1 <==> limitParam != "" && offsetParam != "")
    ensures r.Done? && r.value.offset != -1 ==> ParseInt32(offsetParam) == Ok(r.value.offset)
    ensures limitParam != "" && offsetParam != "" && r != Fail(AppError(StatusBadRequest, "Invalid limit")) ==>
      (r == Fail(AppError(StatusBadRequest, "Invalid offset")) <==>
       !(ParseInt32(offsetParam).Ok? && IsOffsetValid(ParseInt32(offsetParam).value)))
    ensures r == Fail(AppError(StatusBadRequest, "Invalid offset")) ==> limitParam != "" && offsetParam != ""
    ensures r.Done? ==> r.value.limit == -1 || 0 < r.value.limit <= MaxInt32
    ensures r.Done? ==> r.value.offset == -1 || (r.value.limit != -1 && 0 <= r.value.offset <= MaxInt32)
  {
    var offset := -1;
    var limit := -1;

    if limitParam != "" {
      var parsed := ParseInt32(limitParam);
      limit := if parsed.Ok? then parsed.value else 0;
      if parsed.Err? || !IsLimitValid(limit) {
        return Fail(AppError(StatusBadRequest, "Invalid limit"));
      }
    }

    if limit != -1 && offsetParam != "" {
      var parsed := ParseInt32(offsetParam);
      offset := if parsed.Ok? then parsed.value else 0;
      if parsed.Err? || !IsOffsetValid(offset) {
        return Fail(AppError(StatusBadRequest, "Invalid offset"));
      }
    }

    return Done(Window(limit, offset));
  }

  // ------------------------------------------------------------ defaultAuthenticate

  /** What jwt.ParseWithClaims returns when it returns no error. */
  datatype ParsedToken = ParsedToken(claims: Claims, valid: bool)

  function LowerChar(c: char): char
  {
    if 'A' <= c <= 'Z' then (c as int - 'A' as int + 'a' as int) as char else c
  }

  /** strings.ToLower on ASCII text. */
  function ToLower(s: string): (r: string)
    ensures |r| == |s| && forall i | 0 <= i < |s| :: r[i] == LowerChar(s[i])
  {
    seq(|s|, i requires 0 <= i < |s| => LowerChar(s[i]))
  }

  const BearerPrefix := "bearer "

  /** The token defaultAuthenticate hands to jwt-go: the WHOLE header is
      lower-cased, then "bearer " is required and trimmed. */
  function BearerToken(header: string): (r: Option<string>)
    ensures r.Some? <==> |header| >= 7 && ToLower(header[..7]) == BearerPrefix
    ensures r.Some? ==> r.value == ToLower(header[7..])
  {
    var lower := ToLower(header);
    assert |header| >= 7 ==> lower[..7] == ToLower(header[..7]) && lower[7..] == ToLower(header[7..]);
    if |lower| >= 7 && lower[..7] == BearerPrefix then Some(lower[7..]) else None
  }

  /** The claim checks after the library accepted the token (registered
      claims of section 4.1 of RFC 7519): issued-at and expiry present, issuer
      and audience the app, and a subject that is a 32-bit unsigned decimal. */
  predicate ClaimsAccepted(c: Claims, appName: string)
  {
    && c.issuedAt != 0 && c.expiresAt != 0
    && c.issuer == appName
    && c.subject != ""
    && c.audience == appName
    && ParseUint32(c.subject).Ok?
  }

  /** defaultAuthenticate: the id it stores under "authenticatedID", or a 401
      with an empty message for every failed check. A token jwt-go refuses
      with an error (a bad signature, an expired token) makes it panic. */
  method Authenticate(header: string, config: Config, parse: (string, string) -> Result<ParsedToken>)
    returns (r: Outcome<nat>)
    ensures BearerToken(header).None? ==> r == Fail(AppError(StatusUnauthorized, ""))
    ensures BearerToken(header).Some? ==>
      (r.Panic? <==> parse(BearerToken(header).value, config.jwtSecret).Err?)
    ensures r.Fail? ==> r.failure == AppError(StatusUnauthorized, "")
    ensures r.Done? <==>
      && BearerToken(header).Some?
      && parse(BearerToken(header).value, config.jwtSecret).Ok?
      && parse(BearerToken(header).value, config.jwtSecret).value.valid
      && ClaimsAccepted(parse(BearerToken(header).value, config.jwtSecret).value.claims, config.appName)
    ensures r.Done? ==>
      r.value <= MaxUint32 &&
      Ok(r.value) == ParseUint32(parse(BearerToken(header).value, config.jwtSecret).value.claims.subject)
  {
    var authorizationHeader := ToLower(header);
    assert |header| >= 7 ==> authorizationHeader[..7] == ToLower(header[..7]);
    if !(|authorizationHeader| >= 7 && authorizationHeader[..7] == BearerPrefix) {
      return Fail(AppError(StatusUnauthorized, ""));
    }
    var tokenString := authorizationHeader[7..];
    assert tokenString == ToLower(header[7..]);

    var parsed := parse(tokenString, config.jwtSecret);
    if parsed.Err? {
      return Panic(parsed.failure);
    }

    var token := parsed.value;
    if !token.valid {
      return Fail(AppError(StatusUnauthorized, ""));
    }
    var claims := token.claims;
    if claims.issuedAt == 0 {
      return Fail(AppError(StatusUnauthorized, ""));
    }
    if claims.expiresAt == 0 {
      return Fail(AppError(StatusUnauthorized, ""));
    }
    if claims.issuer != config.appName {
      return Fail(AppError(StatusUnauthorized, ""));
    }
    if claims.subject == "" {
      return Fail(AppError(StatusUnauthorized, ""));
    }
    if claims.audience != config.appName {
      return Fail(AppError(StatusUnauthorized, ""));
    }

    var id := ParseUint32(claims.subject);
    if id.Err? {
      return Fail(AppError(StatusUnauthorized, ""));
    }
    return Done(id.value);
  }

  /** The claims CreateToken issues pass every check of defaultAuthenticate
      and name the account, for a 32-bit id and a clock not at the epoch; a
      gate configured with another app name refuses them. */
  lemma IssuedClaimsAccepted(config: Config, now: int, id: nat, email: string, otherApp: string)
    requires id <= MaxUint32 && now != 0 && now + TokenLifetime != 0
    ensures ClaimsAccepted(TokenClaims(config, now, id, email), config.appName)
    ensures ParseUint32(TokenClaims(config, now, id, email).subject) == Ok(id)
    ensures otherApp != config.appName ==> !ClaimsAccepted(TokenClaims(config, now, id, email), otherApp)
  {
    SubjectNamesAccount(config, now, id, email);
  }

  /** The header is lower-cased whole, so a token with any upper-case letter
      (base64url tokens nearly always have one) reaches jwt-go altered. */
  lemma TokenLowercased(token: string, i: nat)
    requires i < |token| && 'A' <= token[i] <= 'Z'
    ensures BearerToken("Bearer " + token) == Some(ToLower(token))
    ensures ToLower(token) != token
  {
    var header := "Bearer " + token;
    assert header[..7] == "Bearer ";
    assert header[7..] == token;
    assert ToLower(token)[i] != token[i];
  }

  /** The scheme matched without regard to case, as section 2.1 of RFC 6750
      has it, and the token passed on exactly as sent. */
  function BearerTokenCorrected(header: string): (r: Option<string>)
    ensures r.Some? <==> |header| >= 7 && ToLower(header[..7]) == BearerPrefix
    ensures r.Some? ==> r.value == header[7..]
  {
    if |header| >= 7 && ToLower(header[..7]) == BearerPrefix then Some(header[7..]) else None
  }

  lemma BearerTokenCorrectedKeepsToken(scheme: string, token: string)
    requires ToLower(scheme) == BearerPrefix
    ensures BearerTokenCorrected(scheme + token) == Some(token)
  {
    assert (scheme + token)[..7] == scheme;
    assert (scheme + token)[7..] == token;
  }

  /** defaultAuthenticate as evidently intended: the token is not
      lower-cased, and a token jwt-go refuses gives the same 401 as every
      other failed check instead of a panic. */
  method AuthenticateCorrected(header: string, config: Config, parse: (string, string) -> Result<ParsedToken>)
    returns (r: Outcome<nat>)
    ensures !r.Panic?
    ensures r.Fail? ==> r.failure == AppError(StatusUnauthorized, "")
    ensures r.Done? <==>
      && BearerTokenCorrected(header).Some?
      && parse(BearerTokenCorrected(header).value, config.jwtSecret).Ok?
      && parse(BearerTokenCorrected(header).value, config.jwtSecret).value.valid
      && ClaimsAccepted(parse(BearerTokenCorrected(header).value, config.jwtSecret).value.claims, config.appName)
    ensures r.Done? ==>
      Ok(r.value) == ParseUint32(parse(BearerTokenCorrected(header).value, config.jwtSecret).value.claims.subject)
  {
    var tokenString := BearerTokenCorrected(header);
    if tokenString.None? {
      return Fail(AppError(StatusUnauthorized, ""));
    }

    var parsed := parse(tokenString.value, config.jwtSecret);
    if parsed.Err? || !parsed.value.valid {
      return Fail(AppError(StatusUnauthorized, ""));
    }
    var claims := parsed.value.claims;
    if claims.issuedAt == 0 || claims.expiresAt == 0 || claims.issuer != config.appName
       || claims.subject == "" || claims.audience != config.appName {
      return Fail(AppError(StatusUnauthorized, ""));
    }

    var id := ParseUint32(claims.subject);
    if id.Err? {
      return Fail(AppError(StatusUnauthorized, ""));
    }
    return Done(id.value);
  }
}
