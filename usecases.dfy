/** usecases.go: the protected form of a password and its check, the claims
    of a login token, and the account usecases Create, isEmailInUse,
    FindByEmail and Login.

    scrypt, crypto/rand, HS256 signing, the clock and the database are not
    modelled; they enter as the fields of `UsecaseHandler` (functions) or as
    parameters (the random draw, the current time). */
module Usecases {
  import opened Util
  import opened Decimal
  import opened Model
  import Rfc3339

  newtype byte = x: int | 0 <= x < 256

  const SaltLength := 32
  const KeyLength := 64
  const ProtectedFormLength := 2 * (SaltLength + KeyLength)
  const ProtectionScheme := "lizard.v1"
  /** time.Hour * 24 * 30, in seconds. */
  const TokenLifetime := 60 * 60 * 24 * 30
  const LoginFailed := "Email or password incorrect"

  type Salt = s: seq<byte> | |s| == SaltLength witness seq(SaltLength, _ => 0)
  type DerivedKey = k: seq<byte> | |k| == KeyLength witness seq(KeyLength, _ => 0)

  /** config.go's Config, reduced to the two fields the core reads. */
  datatype Config = Config(appName: string, jwtSecret: string)

  /** JWTCustomClaims: Email and the StandardClaims of jwt-go that the source
      sets or checks (Id and NotBefore are never set). */
  datatype Claims = Claims(
    email: string,
    audience: string,
    expiresAt: int,
    issuedAt: int,
    issuer: string,
    subject: string)

  /** One `map[string]string{clause: value}` of a filter: a predicate with one
      `?` placeholder and the value bound to it. */
  datatype Condition = Condition(clause: string, value: string)

  /** The arguments of Persistence.Find; a nil order map is the empty map. */
  datatype FindQuery = FindQuery(filter: seq<Condition>, order: map<string, string>, offset: int, limit: int)

  /** persistence.go's Persistence interface, as the answers it gives. */
  datatype Persistence = Persistence(
    find: FindQuery -> Result<seq<Record>>,
    migrate: Record -> Option<Failure>,
    create: Record -> Option<Failure>)

  /** The library calls the usecases make: scrypt.Key(password, salt, 1<<15, 8, 1, 64)
      on the bytes of two strings, and HS256 signing of claims with a secret. */
  datatype Crypto = Crypto(
    scrypt: (string, string) -> Result<DerivedKey>,
    sign: (Claims, string) -> Result<string>)

  /** UsecaseHandler: its persistence handler and config, and the primitives it calls. */
  datatype UsecaseHandler = UsecaseHandler(persistence: Persistence, config: Config, crypto: Crypto)

  // ---------------------------------------------------------------- hex

  predicate IsLowerHex(c: char) { '0' <= c <= '9' || 'a' <= c <= 'f' }

  function HexDigit(n: nat): (c: char)
    requires n < 16
    ensures IsLowerHex(c)
  {
    if n < 10 then ('0' as int + n) as char else ('a' as int + n - 10) as char
  }

  /** fmt.Sprintf("%x", b): two lower-case hex digits per byte, high nibble first. */
  function Hex(b: seq<byte>): (s: string)
    ensures |s| == 2 * |b|
    ensures forall i | 0 <= i < |s| :: IsLowerHex(s[i])
  {
    if b == [] then "" else [HexDigit(b[0] as int / 16), HexDigit(b[0] as int % 16)] + Hex(b[1..])
  }

  lemma {:induction false} HexAppend(a: seq<byte>, b: seq<byte>)
    ensures Hex(a + b) == Hex(a) + Hex(b)
    decreases |a|
  {
    if a != [] {
      assert (a + b)[1..] == a[1..] + b;
      HexAppend(a[1..], b);
    } else {
      assert a + b == b;
    }
  }

  /** The value of one hex digit, either case (encoding/hex). */
  function NibbleValue(c: char): Option<nat>
  {
    if '0' <= c <= '9' then Some(c as int - '0' as int)
    else if 'a' <= c <= 'f' then Some(c as int - 'a' as int + 10)
    else if 'A' <= c <= 'F' then Some(c as int - 'A' as int + 10)
    else None
  }

  /** hex.DecodeString: pairs of hex digits to bytes. */
  function Unhex(s: string): (r: Option<seq<byte>>)
    ensures r.Some? ==> 2 * |r.value| == |s|
    decreases |s|
  {
    if s == [] then Some([])
    else if |s| < 2 then None
    else
      match (NibbleValue(s[0]), NibbleValue(s[1]), Unhex(s[2..]))
      case (Some(hi), Some(lo), Some(rest)) =>
        if hi < 16 && lo < 16 then Some([(hi * 16 + lo) as byte] + rest) else None
      case _ => None
  }

  lemma NibbleRoundTrip(n: nat)
    requires n < 16
    ensures NibbleValue(HexDigit(n)) == Some(n)
  {
  }

  /** Decoding undoes the encoding, so the encoding is injective. */
  lemma {:induction false} UnhexHex(b: seq<byte>)
    ensures Unhex(Hex(b)) == Some(b)
    decreases |b|
  {
    if b != [] {
      var s := Hex(b);
      var hi, lo := b[0] as int / 16, b[0] as int % 16;
      NibbleRoundTrip(hi);
      NibbleRoundTrip(lo);
      assert s[2..] == Hex(b[1..]);
      UnhexHex(b[1..]);
      assert [(hi * 16 + lo) as byte] + b[1..] == b;
    }
  }

  lemma HexInjective(a: seq<byte>, b: seq<byte>)
    requires Hex(a) == Hex(b)
    ensures a == b
  {
    UnhexHex(a);
    UnhexHex(b);
  }

  /** string(b) for a byte slice: one character per byte. */
  function ByteString(b: seq<byte>): (s: string)
    ensures |s| == |b|
  {
    seq(|b|, i requires 0 <= i < |b| => b[i] as int as char)
  }

  // ---------------------------------------------------------------- protected form

  /** ProtectedFormFromPassword: `draw` is what crypto/rand gave for the 32
      salt bytes. The form is the hex of salt followed by derived key. */
  function ProtectedFormFromPassword(h: UsecaseHandler, draw: Result<Salt>, password: string): (r: Result<string>)
    ensures r.Ok? <==> draw.Ok? && h.crypto.scrypt(password, ByteString(draw.value)).Ok?
    ensures draw.Err? ==> r == Err(draw.failure)
    ensures draw.Ok? && h.crypto.scrypt(password, ByteString(draw.value)).Err? ==>
      r == Err(h.crypto.scrypt(password, ByteString(draw.value)).failure)
    ensures r.Ok? ==>
      && draw.Ok? && h.crypto.scrypt(password, ByteString(draw.value)).Ok?
      && |r.value| == ProtectedFormLength
      && r.value[..2 * SaltLength] == Hex(draw.value)
      && r.value[2 * SaltLength..] == Hex(h.crypto.scrypt(password, ByteString(draw.value)).value)
      && forall i | 0 <= i < |r.value| :: IsLowerHex(r.value[i])
  {
    match draw
    case Err(e) => Err(e)
    case Ok(salt) =>
      match h.crypto.scrypt(password, ByteString(salt))
      case Err(e) => Err(e)
      case Ok(key) =>
        HexAppend(salt, key);
        Ok(Hex(salt + key))
  }

  /** ComparePasswordAndProtectedForm as written: the salt is the first 32
      characters of the form (slicing a shorter form panics), and the hex of
      the derived key is compared with everything after them. */
  function ComparePasswordAndProtectedForm(h: UsecaseHandler, password: string, protectedForm: string): (r: Outcome<bool>)
    ensures |protectedForm| < 32 <==> r.Panic?
    ensures |protectedForm| >= 32 ==>
      && (r.Fail? <==> h.crypto.scrypt(password, protectedForm[..32]).Err?)
      && (r == Done(true) <==>
            h.crypto.scrypt(password, protectedForm[..32]).Ok? &&
            protectedForm[32..] == Hex(h.crypto.scrypt(password, protectedForm[..32]).value))
  {
    if |protectedForm| < 32 then Panic(LibraryError("slice bounds out of range"))
    else
      var salt, oldHash := protectedForm[..32], protectedForm[32..];
      match h.crypto.scrypt(password, salt)
      case Err(e) => Fail(e)
      case Ok(newHash) => Done(Hex(newHash) == oldHash)
  }

  /** Whatever the password tried, a form made by ProtectedFormFromPassword
      never matches: 160 characters are compared with a 128-character hex. */
  lemma ProtectedFormNeverMatches(h: UsecaseHandler, draw: Result<Salt>, password: string, attempt: string)
    requires ProtectedFormFromPassword(h, draw, password).Ok?
    ensures var r := ComparePasswordAndProtectedForm(h, attempt, ProtectedFormFromPassword(h, draw, password).value);
      r == Done(false) || r.Fail?
  {
    var pf := ProtectedFormFromPassword(h, draw, password).value;
    assert |pf[32..]| == 160;
  }

  /** The check as evidently intended: decode the first 64 hex characters
      into the 32-byte salt and compare the key's hex with the last 128. */
  function ComparePasswordCorrected(h: UsecaseHandler, password: string, protectedForm: string): (r: Result<bool>)
    ensures r == Ok(true) <==>
      && |protectedForm| == ProtectedFormLength
      && Unhex(protectedForm[..2 * SaltLength]).Some?
      && h.crypto.scrypt(password, ByteString(Unhex(protectedForm[..2 * SaltLength]).value)).Ok?
      && protectedForm[2 * SaltLength..] == Hex(h.crypto.scrypt(password, ByteString(Unhex(protectedForm[..2 * SaltLength]).value)).value)
  {
    if |protectedForm| != ProtectedFormLength then Ok(false)
    else
      match Unhex(protectedForm[..2 * SaltLength])
      case None => Ok(false)
      case Some(salt) =>
        match h.crypto.scrypt(password, ByteString(salt))
        case Err(e) => Err(e)
        case Ok(newHash) => Ok(Hex(newHash) == protectedForm[2 * SaltLength..])
  }

  /** With the corrected check, a protected form verifies against its own
      password, and against another one only if scrypt gives that one the
      same key under the same salt. */
  lemma ProtectThenCompareCorrected(h: UsecaseHandler, draw: Result<Salt>, password: string, attempt: string)
    requires ProtectedFormFromPassword(h, draw, password).Ok?
    ensures ComparePasswordCorrected(h, password, ProtectedFormFromPassword(h, draw, password).value) == Ok(true)
    ensures ComparePasswordCorrected(h, attempt, ProtectedFormFromPassword(h, draw, password).value) == Ok(true) ==>
      h.crypto.scrypt(attempt, ByteString(draw.value)) == h.crypto.scrypt(password, ByteString(draw.value))
  {
    var pf := ProtectedFormFromPassword(h, draw, password).value;
    var salt := draw.value;
    UnhexHex(salt);
    assert Unhex(pf[..2 * SaltLength]) == Some(salt);
    if ComparePasswordCorrected(h, attempt, pf) == Ok(true) {
      HexInjective(h.crypto.scrypt(attempt, ByteString(salt)).value, h.crypto.scrypt(password, ByteString(salt)).value);
    }
  }

  // ---------------------------------------------------------------- tokens

  /** The claims CreateToken signs; `now` is time.Now().Unix(), read once
      where the source reads the clock twice. */
  function TokenClaims(config: Config, now: int, id: nat, email: string): (c: Claims)
    ensures c.issuer == config.appName && c.audience == config.appName && c.email == email
    ensures c.issuedAt == now && c.expiresAt == c.issuedAt + TokenLifetime
    ensures AllDigits(c.subject) && c.subject != []
  {
    Claims(email, config.appName, now + TokenLifetime, now, config.appName, Format(id))
  }

  /** The subject names the account: it reads back as the id whenever the id fits in 32 bits. */
  lemma SubjectNamesAccount(config: Config, now: int, id: nat, email: string)
    requires id <= MaxUint32
    ensures ParseUint32(TokenClaims(config, now, id, email).subject) == Ok(id)
  {
    ParseUint32RoundTrip(id);
  }

  /** CreateToken: the claims signed with HS256 under the configured secret. */
  function CreateToken(h: UsecaseHandler, now: int, id: nat, email: string): Result<string>
  {
    h.crypto.sign(TokenClaims(h.config, now, id, email), h.config.jwtSecret)
  }

  // ---------------------------------------------------------------- lookups

  /** UsecaseHandler.Find: a persistence error panics. */
  function Find(h: UsecaseHandler, query: FindQuery): (r: Outcome<seq<Record>>)
    ensures !r.Fail?
    ensures r.Done? <==> h.persistence.find(query).Ok?
    ensures r.Done? ==> r.value == h.persistence.find(query).value
  {
    match h.persistence.find(query)
    case Ok(models) => Done(models)
    case Err(e) => Panic(e)
  }

  /** FindByEmail: one filter on the email, offset 0, limit 1, no order. */
  function FindByEmail(h: UsecaseHandler, email: string): (r: Outcome<Record>)
    ensures var answer := h.persistence.find(FindQuery([Condition("email = ?", email)], map[], 0, 1));
      && (r.Panic? <==> answer.Err?)
      && (r.Fail? <==> answer == Ok([]))
      && (r.Fail? ==> r.failure == AppError(StatusNotFound, "Not found"))
      && (r.Done? <==> answer.Ok? && answer.value != [])
      && (r.Done? ==> r.value == answer.value[0])
  {
    match Find(h, FindQuery([Condition("email = ?", email)], map[], 0, 1))
    case Panic(e) => Panic(e)
    case Fail(e) => Fail(e)
    case Done(models) =>
      if |models| < 1 then Fail(AppError(StatusNotFound, "Not found")) else Done(models[0])
  }

  /** isEmailInUse: not found means not in use, a record means in use, and
      any other error is passed on (FindByEmail returns no other error). */
  function IsEmailInUse(h: UsecaseHandler, email: string): (r: Outcome<bool>)
    ensures var answer := h.persistence.find(FindQuery([Condition("email = ?", email)], map[], 0, 1));
      && (r == Done(false) <==> answer == Ok([]))
      && (r == Done(true) <==> answer.Ok? && answer.value != [])
      && (r.Panic? <==> answer.Err?)
      && !r.Fail?
  {
    match FindByEmail(h, email)
    case Panic(e) => Panic(e)
    case Fail(e) =>
      if e.AppError? && e.code == StatusNotFound then Done(false) else Fail(e)
    case Done(_) => Done(true)
  }

  // ---------------------------------------------------------------- login

  /** Login: an unknown email and a wrong password give the same 401; a token
      is made only after the comparison said yes. */
  function Login(h: UsecaseHandler, now: int, email: string, password: string): (r: Outcome<(string, Record)>)
    ensures FindByEmail(h, email).Fail? ==> r == Fail(AppError(StatusUnauthorized, LoginFailed))
    ensures (FindByEmail(h, email).Done? &&
             ComparePasswordAndProtectedForm(h, password, FindByEmail(h, email).value.password) == Done(false)) ==>
      r == Fail(AppError(StatusUnauthorized, LoginFailed))
    ensures r.Done? ==>
      && FindByEmail(h, email) == Done(r.value.1)
      && ComparePasswordAndProtectedForm(h, password, r.value.1.password) == Done(true)
      && CreateToken(h, now, r.value.1.id, r.value.1.email) == Ok(r.value.0)
    ensures FindByEmail(h, email).Panic? ==> r.Panic?
    ensures FindByEmail(h, email).Done? ==>
      var user := FindByEmail(h, email).value;
      var cmp := ComparePasswordAndProtectedForm(h, password, user.password);
      && (cmp.Panic? ==> r.Panic?)
      && (cmp.Fail? ==> r == Fail(cmp.failure))
      && (cmp == Done(true) && CreateToken(h, now, user.id, user.email).Err? ==>
            r == Fail(CreateToken(h, now, user.id, user.email).failure))
      && (cmp == Done(true) && CreateToken(h, now, user.id, user.email).Ok? ==>
            r == Done((CreateToken(h, now, user.id, user.email).value, user)))
  {
    match FindByEmail(h, email)
    case Panic(e) => Panic(e)
    case Fail(e) =>
      if e.AppError? && e.code == StatusNotFound then Fail(AppError(StatusUnauthorized, LoginFailed)) else Fail(e)
    case Done(user) =>
      match ComparePasswordAndProtectedForm(h, password, user.password)
      case Panic(e) => Panic(e)
      case Fail(e) => Fail(e)
      case Done(ok) =>
        if !ok then Fail(AppError(StatusUnauthorized, LoginFailed))
        else
          match CreateToken(h, now, user.id, user.email)
          case Err(e) => Fail(e)
          case Ok(token) => Done((token, user))
  }

  /** No account whose stored form was made by ProtectedFormFromPassword can
      log in, whatever password is tried. */
  lemma CreatedAccountsCannotLogIn(h: UsecaseHandler, draw: Result<Salt>, password: string,
                                    now: int, email: string, attempt: string)
    requires FindByEmail(h, email).Done?
    requires ProtectedFormFromPassword(h, draw, password).Ok?
    requires FindByEmail(h, email).value.password == ProtectedFormFromPassword(h, draw, password).value
    ensures !Login(h, now, email, attempt).Done?
  {
    ProtectedFormNeverMatches(h, draw, password, attempt);
  }

  // ---------------------------------------------------------------- create

  /** Create as written: the name and age checks come first, then the
      password is protected (a failure panics), then the email lookup, whose
      answer is used inverted: an email that is NOT in use is refused. */
  method Create(h: UsecaseHandler, draw: Result<Salt>, email: string, password: string,
                name: string, age: nat, number: int, date: Rfc3339.DateTime)
    returns (r: Outcome<Record>)
    ensures |name| < 5 ==> r == Fail(AppError(StatusBadRequest, "Name should be longer than 5 characters"))
    ensures |name| >= 5 && age < 5 ==> r == Fail(AppError(StatusBadRequest, "Age should be greater than 5"))
    ensures |name| >= 5 && age >= 5 && ProtectedFormFromPassword(h, draw, password).Err? ==> r.Panic?
    ensures r == Fail(AppError(StatusConflict, "Email is already in use")) <==>
      |name| >= 5 && age >= 5 && ProtectedFormFromPassword(h, draw, password).Ok? &&
      IsEmailInUse(h, email) == Done(false)
    ensures r.Done? ==>
      && IsEmailInUse(h, email) == Done(true)
      && r.value == Record(0, email, ProtectedFormFromPassword(h, draw, password).value, false,
                           ProtectionScheme, name, age, number, date)
      && h.persistence.migrate(r.value).None? && h.persistence.create(r.value).None?
    ensures |name| >= 5 && age >= 5 && ProtectedFormFromPassword(h, draw, password).Ok? ==>
      var record := Record(0, email, ProtectedFormFromPassword(h, draw, password).value, false,
                           ProtectionScheme, name, age, number, date);
      && (IsEmailInUse(h, email).Panic? ==> r.Panic?)
      && (IsEmailInUse(h, email) == Done(true) ==>
            && (h.persistence.migrate(record).None? && h.persistence.create(record).None? <==> r == Done(record))
            && (h.persistence.migrate(record).Some? || h.persistence.create(record).Some? ==> r.Panic?))
  {
    var model := Record(0, email, "", false, "", name, age, number, date);

    if |name| < 5 {
      return Fail(AppError(StatusBadRequest, "Name should be longer than 5 characters"));
    }
    if age < 5 {
      return Fail(AppError(StatusBadRequest, "Age should be greater than 5"));
    }

    model := model.(protectionScheme := ProtectionScheme);
    var protectedForm := ProtectedFormFromPassword(h, draw, password);
    if protectedForm.Err? {
      return Panic(protectedForm.failure);
    }
    model := model.(password := protectedForm.value, compromised := false);

    var inUse := IsEmailInUse(h, model.email);
    match inUse {
      case Panic(e) => return Panic(e);
      case Fail(e) => return Panic(e);
      case Done(_) =>
    }
    if inUse.value == false {
      return Fail(AppError(StatusConflict, "Email is already in use"));
    }

    var migrated := h.persistence.migrate(model);
    if migrated.Some? {
      return Panic(migrated.value);
    }
    var created := h.persistence.create(model);
    if created.Some? {
      return Panic(created.value);
    }
    return Done(model);
  }

  /** Create as evidently intended: the conflict is reported when the email
      IS in use, so a fresh email gets through to persistence. */
  method CreateCorrected(h: UsecaseHandler, draw: Result<Salt>, email: string, password: string,
                         name: string, age: nat, number: int, date: Rfc3339.DateTime)
    returns (r: Outcome<Record>)
    ensures |name| < 5 ==> r == Fail(AppError(StatusBadRequest, "Name should be longer than 5 characters"))
    ensures |name| >= 5 && age < 5 ==> r == Fail(AppError(StatusBadRequest, "Age should be greater than 5"))
    ensures |name| >= 5 && age >= 5 && ProtectedFormFromPassword(h, draw, password).Err? ==> r.Panic?
    ensures r == Fail(AppError(StatusConflict, "Email is already in use")) <==>
      |name| >= 5 && age >= 5 && ProtectedFormFromPassword(h, draw, password).Ok? &&
      IsEmailInUse(h, email) == Done(true)
    ensures r.Done? ==>
      && IsEmailInUse(h, email) == Done(false)
      && r.value == Record(0, email, ProtectedFormFromPassword(h, draw, password).value, false,
                           ProtectionScheme, name, age, number, date)
      && h.persistence.migrate(r.value).None? && h.persistence.create(r.value).None?
    ensures |name| >= 5 && age >= 5 && ProtectedFormFromPassword(h, draw, password).Ok? ==>
      var record := Record(0, email, ProtectedFormFromPassword(h, draw, password).value, false,
                           ProtectionScheme, name, age, number, date);
      && (IsEmailInUse(h, email).Panic? ==> r.Panic?)
      && (IsEmailInUse(h, email) == Done(false) ==>
            && (h.persistence.migrate(record).None? && h.persistence.create(record).None? <==> r == Done(record))
            && (h.persistence.migrate(record).Some? || h.persistence.create(record).Some? ==> r.Panic?))
  {
    var model := Record(0, email, "", false, "", name, age, number, date);

    if |name| < 5 {
      return Fail(AppError(StatusBadRequest, "Name should be longer than 5 characters"));
    }
    if age < 5 {
      return Fail(AppError(StatusBadRequest, "Age should be greater than 5"));
    }

    model := model.(protectionScheme := ProtectionScheme);
    var protectedForm := ProtectedFormFromPassword(h, draw, password);
    if protectedForm.Err? {
      return Panic(protectedForm.failure);
    }
    model := model.(password := protectedForm.value, compromised := false);

    var inUse := IsEmailInUse(h, model.email);
    match inUse {
      case Panic(e) => return Panic(e);
      case Fail(e) => return Panic(e);
      case Done(_) =>
    }
    if inUse.value {
      return Fail(AppError(StatusConflict, "Email is already in use"));
    }

    var migrated := h.persistence.migrate(model);
    if migrated.Some? {
      return Panic(migrated.value);
    }
    var created := h.persistence.create(model);
    if created.Some? {
      return Panic(created.value);
    }
    return Done(model);
  }
}
