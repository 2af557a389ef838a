# Core of a single-resource CRUD service, modelled in Dafny

This project models the decision logic of a small Go web service that stores
records (name, age, number, date) behind an account and token scheme. The
model covers three parts:

- **Query validation** (`middleware.go`):
  - the comparison-operator prefix parser;
  - the filter builder, the sort whitelist and the limit/offset check;
  - the bearer-token gate with its claim checks.
- **Typed value parsers** (`model.go`):
  - age as a 32-bit unsigned decimal;
  - number as a 32-bit signed decimal;
  - date in the RFC 3339 layout (section 5.6 of RFC 3339).
- **Account usecases** (`usecases.go`):
  - the protected form of a password (hex of salt then derived key) and its check;
  - the claims of a login token;
  - `Create`, `isEmailInUse`, `FindByEmail` and `Login`.

A gin handler is modelled as a function or method from the request values it
reads to an `Outcome`:

- `Done` holds what it stores with `c.Set`;
- `Fail(AppError(code, message))` stands for an `ErrorReply`;
- `Panic` stands for a Go panic.

A Go `(value, error)` pair becomes a `Result`. Go strings are `string`, with
one character per byte.

The following enter the model as functions held by `UsecaseHandler` or
passed as parameters:

- scrypt and HS256 signing;
- jwt-go's token parser;
- the random salt and the clock;
- the database.

Modules, one per file: `Util` (util.dfy), `Decimal` (decimal.dfy, strconv's
decimal parsing and formatting), `Rfc3339` (rfc3339.dfy, `time.Parse` with
the RFC 3339 layout), `Model` (model.dfy), `Usecases` (usecases.dfy) and
`Middleware` (middleware.dfy).

Four behaviours of the source are modelled as written. Each one also has a
corrected variant with its intended property proved (see "## Findings"):

- a stored password can never be verified;
- `Create` refuses exactly the emails that are not in use;
- the bearer token is lower-cased;
- a token the JWT library refuses makes the gate panic.

## Model

| member | source | states |
|---|---|---|
| Decimal.ParseUint32 | model.go:24 | strconv.ParseUint(s, 10, 32) succeeds exactly on a non-empty string of ASCII digits whose value is at most 2^32-1, and gives that value |
| Decimal.ParseInt32 | model.go:32 | strconv.ParseInt(s, 10, 32) succeeds exactly on an optional sign followed by one or more digits whose magnitude fits the signed 32-bit range for that sign; the value carries the sign and lies in [-2^31, 2^31-1] |
| Decimal.ScanMeaning | model.go:24 | the early-exit digit loop accepts exactly the all-digit strings whose accumulated value stays within the bound, and yields that value |
| Decimal.Format | usecases.go:191 | strconv.FormatUint renders n as a non-empty string of digits, with a leading zero only for 0 |
| Decimal.FormatValue | usecases.go:191 | the decimal rendering of n reads back as n |
| Decimal.ParseUint32RoundTrip | usecases.go:191 | ParseUint(FormatUint(n)) == n for every n below 2^32 |
| Decimal.ParseInt32RoundTrip | model.go:32 | ParseInt reads back the decimal rendering of every signed 32-bit value |
| Rfc3339.Parse | model.go:40 | a string accepted by the RFC 3339 layout yields a valid date and time (month 1-12, day within its month, time and zone offset in range) |
| Rfc3339.PadOfDigits | model.go:40 | a run of digits is the zero-padded rendering of its own value at its own width |
| Rfc3339.ZoneAccepted | model.go:40 | every zone the layout accepts ("Z" or ±hh:mm) is the rendering of the offset read from it |
| Rfc3339.TailAccepted | model.go:40 | every accepted tail (optional '.' and digits, then the zone) is the rendering of the fraction and zone read from it |
| Rfc3339.HeadAccepted | model.go:40 | the 19-character "2006-01-02T15:04:05" part of a shaped text is the rendering of the numbers read from it |
| Rfc3339.AcceptedIsRendering | model.go:40 | every string the layout accepts is exactly the rendering of the date and time it yields, so nothing beyond the renderings is accepted |
| Rfc3339.ParseFormatRoundTrip | model.go:40 | parsing the layout rendering of any valid date and time gives back every field |
| Model.ParseAgeFromString | model.go:23-29 | ok exactly on non-empty unsigned digit strings of value at most 4294967295, and the value is the number written |
| Model.ParseNumberFromString | model.go:31-37 | ok exactly on an optional '+' or '-' and one or more digits within [-2147483648, 2147483647], the result lies in that range and is the digits' value with the sign applied |
| Model.ParseDateFromString | model.go:39-45 | an accepted date is a valid RFC 3339 date and time |
| Model.IntegerRoundTrips | model.go:23-37 | both parsers read back the canonical rendering of every value in their range |
| Model.SignedInputs | model.go:23-37 | "+n" and "-n" are refused as an age but accepted as the number n and -n |
| Model.DateRoundTrip | model.go:39-45 | the date parser reads back the layout rendering of every valid date and time |
| Model.AcceptedDates | model.go:39-45 | a date is accepted exactly when it is the layout rendering of some valid date and time, and then the result renders back to the input |
| Usecases.Hex | usecases.go:108 | %x of b is 2\|b\| lower-case hex digits |
| Usecases.HexAppend | usecases.go:106-108 | the hex of salt followed by key is the hex of the salt followed by the hex of the key |
| Usecases.UnhexHex | usecases.go:108 | decoding the hex of b gives back b |
| Usecases.HexInjective | usecases.go:139 | two byte strings with the same hex are equal |
| Usecases.ProtectedFormFromPassword | usecases.go:94-109 | succeeds exactly when the salt is drawn and scrypt succeeds under it; a salt or key failure is passed on; otherwise the form is 192 lower-case hex characters, the first 64 the salt's hex and the last 128 the derived key's hex |
| Usecases.ComparePasswordAndProtectedForm | usecases.go:129-144 | panics exactly when the form is shorter than 32; otherwise fails exactly when scrypt fails on the first 32 raw characters, and says yes exactly when the key's hex equals everything after them |
| Usecases.ProtectedFormNeverMatches | usecases.go:129-144 | against any form ProtectedFormFromPassword produced, the check never says yes, whatever password is tried |
| Usecases.ComparePasswordCorrected | usecases.go:129-144 | says yes exactly when the form has 192 characters, its first 64 decode to a salt, and the key derived under that salt has the last 128 as its hex |
| Usecases.ProtectThenCompareCorrected | usecases.go:94-144 | the corrected check accepts the password a form was made from, and accepts another only if scrypt gives it the same key under that salt |
| Usecases.TokenClaims | usecases.go:184-194 | issuer and audience are the app name, issued-at is now, expiry is 30 days later, and the subject is a non-empty decimal |
| Usecases.SubjectNamesAccount | usecases.go:191 | the subject parses back as the account id for every id below 2^32 |
| Usecases.Find | usecases.go:206-215 | a persistence error panics and never comes back as an error; otherwise the result is exactly the records persistence found |
| Usecases.FindByEmail | usecases.go:217-229 | queries one "email = ?" filter with offset 0, limit 1 and no order; panics on a persistence error, gives 404 "Not found" on no record and otherwise the first record |
| Usecases.IsEmailInUse | usecases.go:75-92 | false exactly when no record has the email, true exactly when one does, a panic on a persistence error, never an error |
| Usecases.Login | usecases.go:146-170 | an unknown email and a password mismatch give the same 401 "Email or password incorrect"; a token is returned only for the stored record, after the comparison said yes, and it is the token CreateToken makes for that record; conversely a lookup panic or comparison panic panics, a comparison error or signing error is passed on, and a yes with a signed token always gives that token and record |
| Usecases.CreatedAccountsCannotLogIn | usecases.go:146-162 | an account whose stored form was made by ProtectedFormFromPassword can never log in |
| Usecases.Create | usecases.go:29-73 | a short name is refused before a low age, both with 400; a failed protection panics; 409 "Email is already in use" exactly when the email is NOT in use; a stored record has scheme "lizard.v1", not compromised, and the protected form as its password; once name, age and protection pass, a panic of the in-use check panics, and with the in-use answer that lets it through (yes) the record is stored exactly when migrate and create both succeed, any persistence error panicking |
| Usecases.CreateCorrected | usecases.go:29-73 | the same checks in the same order, with 409 exactly when the email IS in use, so only a fresh email is stored; for a fresh email the record is stored exactly when migrate and create both succeed, and a persistence error panics |
| Middleware.GetFilterOperator | middleware.go:164-189 | a valid operator is one of = < > >= <= <>; when the input starts with an operator character and has two or more bytes, operator followed by value is the input; otherwise the whole input is the value with "=" |
| Middleware.OperatorCases | middleware.go:177-188 | the four cases: a lone byte is a value with "=", two operator characters are split off with validity exactly for >=, <=, <>, one operator character is split off as valid, and a non-operator start keeps the whole input with "=" |
| Middleware.UnsupportedPairs | middleware.go:170-185 | "==", "=>", "=<", "><", ">>", "<<" are reported invalid but still split off from the rest |
| Middleware.FieldCondition | middleware.go:113-157 | the name always yields "name = ?" with the raw text; for other fields an invalid operator is refused with "Invalid operator for <field>" before the value is checked, and a value its parser refuses gives "Invalid value for <field>" |
| Middleware.Filter | middleware.go:108-162 | the method's result is exactly the specification Conditions over the fields name, age, number, date in that order |
| Middleware.FilterConditionsDescribe | middleware.go:110-159 | a stored filter has one condition per non-empty parameter, in field order; each clause is the field name and a supported operator, with the user's text only as the bound value |
| Middleware.FilterClausesFixed | middleware.go:114-156 | every clause of a stored filter comes from the fixed set of field-name and operator combinations |
| Middleware.RequestedWithin | middleware.go:112-156 | only fields whose parameter is non-empty are requested |
| Middleware.FilterAccepted | middleware.go:117-159 | the filter never panics, and is stored exactly when every non-empty parameter is accepted |
| Middleware.FilterFirstRefusal | middleware.go:117-157 | a refused filter answers with the refusal of the first refused non-empty parameter, all earlier ones being accepted |
| Middleware.Order | middleware.go:231-265 | {id: DESC} when both parameters are empty; an unknown field is refused before the direction is checked; a direction other than ASC or DESC is refused; on success the stored map is exactly {field: direction}, with "id" and "DESC" standing in for an empty field or direction |
| Middleware.Paginate | middleware.go:267-309 | no limit gives (-1, -1); a limit that does not parse or is not positive gives "Invalid limit"; an offset is read only with a limit, and one that does not parse or is negative gives "Invalid offset", which happens only when both parameters are given; validity is IsLimitValid (genIsLimitValid, l > 0) and IsOffsetValid (genIsOffsetValid, o >= 0); stored values are the parsed ones |
| Middleware.ToLower | middleware.go:56 | every byte is lower-cased, A-Z to a-z, and the length is kept |
| Middleware.BearerToken | middleware.go:56-61 | accepts exactly a header whose first 7 bytes lower-case to "bearer ", and hands on the rest of the header lower-cased |
| Middleware.Authenticate | middleware.go:54-106 | no bearer prefix gives 401; a token the parser refuses panics; otherwise the id is stored exactly when the token is valid and its claims pass every check of ClaimsAccepted (middleware.go:77-102: iat, exp, iss, sub, aud, sub parses as uint32), and it is the parsed subject; every other failure is 401 with an empty message |
| Middleware.IssuedClaimsAccepted | middleware.go:77-98 | the claims CreateToken issues pass every claim check of the gate for their own app and no other, and their subject parses back to the account id |
| Middleware.TokenLowercased | middleware.go:56-61 | a token with an upper-case letter sent as "Bearer <token>" reaches the parser altered |
| Middleware.BearerTokenCorrected | middleware.go:56-61 | the scheme is matched without regard to case and the token passed on exactly as sent |
| Middleware.BearerTokenCorrectedKeepsToken | middleware.go:56-61 | with any capitalisation of "bearer ", the corrected gate hands on the token unchanged |
| Middleware.AuthenticateCorrected | middleware.go:54-106 | never panics; the id is stored exactly when the untouched token parses, is valid and passes every claim check; every failure is 401 with an empty message |

## Left out

- gin plumbing (`c.Query`, `c.Set`, `c.Next`, `ErrorReply`, `PanicIf`): request values are parameters and the stored values or the reply are the `Outcome`.
- endpoints.go, persistence.go, main.go and config.go are not part of this model. They hold form handling, gorm calls and startup.
- `defaultAuthenticatedID`, `defaultGetID` and `defaultFindOne` are not part of this model. They are lookups and a type assertion.
- The usecases `Update`, `Delete`, `UpdateOne` and `DeleteOne` are not part of this model. Each only forwards to persistence and panics on an error.
- scrypt, crypto/rand, HS256 signing and jwt-go's `ParseWithClaims` are abstract functions. No cryptographic property is claimed. jwt-go's own exp/iat/nbf checks are inside the abstract parser.
- `ParsedToken` has no field for the `ok` of the claims type assertion. The claims type is always the one jwt-go was given, so the assertion does not fail.
- The comparison of hex strings is not constant-time. Timing is not expressible here.
- Usecases.TokenClaims: reads the clock once as `now`, where the source reads it twice. Expiry is therefore exactly issued-at plus 30 days.
- Usecases.CreateToken: carries no contract of its own. It is the abstract signer applied to `TokenClaims`, and Login's contract and IssuedClaimsAccepted state what it issues.
- Usecases.Create: does not model gorm's ID, CreatedAt, UpdatedAt and DeletedAt. The stored record has id 0 and no timestamps.
- Middleware.ToLower: covers ASCII only. Go's `strings.ToLower` also maps non-ASCII letters, which are single characters here.
- Model.ParseDateFromString: follows the strict RFC 3339 profile. It requires upper-case 'T' and 'Z', a '.' before a fraction, a two-digit hour, a zone offset of at most 23:59, and no leap second. Go's `time.Parse` accepts more: a one-digit hour (all versions), zone offsets up to 24:60 (all versions), and ',' before the fraction (Go 1.17 and later). The model refuses those spellings. The instant the date denotes is not computed, and the `println` of the error is not modelled.
- Model.ParseAgeFromString, Model.ParseNumberFromString, Model.ParseDateFromString: the zero value Go returns beside an error is not carried, and neither is strconv's error text.
- Middleware.Paginate: `c.Set("limit", ...)` happens in the source before an offset is refused. The model reports only the refusal, since the chain is aborted then.
- Ages and numbers are unbounded integers after parsing. The parsers bound them, so Go's `uint` and `int` never overflow on these paths.

## Findings

| source | as written | input that shows it | evidently intended | confidence | as-written member | corrected member |
|---|---|---|---|---|---|---|
| usecases.go:131-139 | the check takes the first 32 characters of the form as the raw salt and compares the key's 128-character hex with the remaining 160 characters | any form from ProtectedFormFromPassword, with any password | decode the first 64 hex characters as the salt and compare with the last 128 | not executed; proved | Usecases.ProtectedFormNeverMatches | Usecases.ProtectThenCompareCorrected |
| usecases.go:59-61 | 409 "Email is already in use" is returned when the email is NOT in use | an email with no record: Create refuses it; an email with a record: Create passes the record on to persistence | refuse exactly the emails that are in use | not executed; proved | Usecases.Create | Usecases.CreateCorrected |
| middleware.go:56-61 | the whole Authorization header is lower-cased, so the token reaches the JWT parser altered | "Bearer eyJA" (any token with an upper-case letter) | match "bearer " without regard to case and pass the token on unchanged | not executed; proved | Middleware.TokenLowercased | Middleware.BearerTokenCorrectedKeepsToken |
| middleware.go:63-68 | a token the JWT parser refuses (bad signature, expired) makes the handler panic | "Bearer x" with any parser that refuses "x" | answer 401 like every other failed check | not executed; proved | Middleware.Authenticate | Middleware.AuthenticateCorrected |
