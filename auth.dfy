/**
 * internal/auth/auth.go: password hashing and the signed access token.
 *
 * bcrypt and golang-jwt are foreign libraries. Each is a record of functions
 * (`Bcrypt`, `JwtLibrary`); what the model assumes of them is stated as
 * predicates (`SoundBcrypt`, `LawfulJwt`, ...) that the lemmas require.
 * Wall-clock time is the parameter `now`, in whole seconds.
 */
module Auth {
  import opened Wrappers
  import opened Uuids

  /** The error values the functions of auth.go can return. */
  datatype AuthError =
    | HashFailed                 // bcrypt.GenerateFromPassword failed
    | MismatchedHashAndPassword  // bcrypt.CompareHashAndPassword failed
    | SigningFailed              // Token.SignedString failed
    | Malformed                  // the token could not be split and decoded
    | UnexpectedSigningMethod    // the keyfunc refused a non-HMAC method
    | SignatureInvalid           // the signature does not match the key
    | Expired                    // claims validation: the token is past its exp
    | InvalidToken               // "invalid token"
    | InvalidClaimsFormat        // "invalid claims format"
    | InvalidUserId              // "invalid user ID in token"

  // ---------------------------------------------------------------- bcrypt

  /** The random bytes bcrypt draws for a fresh salt. */
  type Salt = seq<byte>

  /**
   * bcrypt at DefaultCost: `generate(password, salt)` is GenerateFromPassword
   * (None when it fails), `compare(hash, password)` is true when
   * CompareHashAndPassword returns nil.
   */
  datatype Bcrypt = Bcrypt(generate: (string, Salt) -> Option<string>, compare: (string, string) -> bool)

  /** A hash bcrypt produces is a non-empty string that verifies against its password. */
  ghost predicate SoundBcrypt(b: Bcrypt)
  {
    forall password, salt ::
      b.generate(password, salt).Some? ==>
        b.generate(password, salt).value != "" && b.compare(b.generate(password, salt).value, password)
  }

  /** Idealised collision resistance: a hash verifies against no other password. */
  ghost predicate BindingBcrypt(b: Bcrypt)
  {
    forall password, other, salt ::
      b.generate(password, salt).Some? && b.compare(b.generate(password, salt).value, other) ==> other == password
  }

  /** HashPassword: ("", err) when bcrypt fails, (hash, nil) otherwise. */
  function HashPassword(b: Bcrypt, password: string, salt: Salt): (r: GoResult<string, AuthError>)
    ensures r.err.Some? <==> b.generate(password, salt).None?
    ensures r.err.Some? ==> r.value == "" && r.err == Some(HashFailed)
    ensures r.err.None? ==> Some(r.value) == b.generate(password, salt)
  {
    match b.generate(password, salt)
    case None => GoResult("", Some(HashFailed))
    case Some(hashed) => GoResult(hashed, None)
  }

  /** CheckPasswordHash: nil exactly when bcrypt accepts the password for the hash. */
  function CheckPasswordHash(b: Bcrypt, password: string, hash: string): (err: Option<AuthError>)
    ensures err.None? <==> b.compare(hash, password)
  {
    if b.compare(hash, password) then None else Some(MismatchedHashAndPassword)
  }

  /** HashPassword returns the empty string exactly when it returns an error. */
  lemma HashPasswordEmptyIffError(b: Bcrypt, password: string, salt: Salt)
    requires SoundBcrypt(b)
    ensures HashPassword(b, password, salt).value == "" <==> HashPassword(b, password, salt).err.Some?
  {
  }

  /** A password checks against the hash HashPassword made of it, and (for a binding bcrypt) only that password does. */
  lemma CheckHashedPassword(b: Bcrypt, password: string, other: string, salt: Salt)
    requires SoundBcrypt(b) && BindingBcrypt(b)
    requires HashPassword(b, password, salt).err.None?
    ensures CheckPasswordHash(b, password, HashPassword(b, password, salt).value).None?
    ensures other != password ==> CheckPasswordHash(b, other, HashPassword(b, password, salt).value).Some?
  {
  }

  // ------------------------------------------------------------ golang-jwt

  /** The signing methods golang-jwt registers; the first three are SigningMethodHMAC. */
  datatype Alg = HS256 | HS384 | HS512 | RS256 | ES256 | EdDSA | NoneAlg

  predicate IsHmac(alg: Alg)
  {
    alg == HS256 || alg == HS384 || alg == HS512
  }

  /** The registered claims of RFC 7519 section 4.1 that the service uses; dates are NumericDate seconds. */
  datatype Claims = Claims(issuer: string, subject: string, issuedAt: Option<int>, expiresAt: Option<int>)

  /** A compact JWS once split and decoded: its header's alg, its claims and its signature. */
  datatype Jws = Jws(alg: Alg, claims: Claims, signature: string)

  /**
   * golang-jwt's encoding and HMAC, not modelled: `sign(alg, claims, key)` is
   * NewWithClaims(alg, claims).SignedString(key) (None when it fails),
   * `decode(token)` splits and base64url/JSON-decodes a compact token (None
   * when malformed), `mac(alg, claims, key)` is the signature a token with
   * that header and payload must carry under `key`.
   */
  datatype JwtLibrary = JwtLibrary(
    sign: (Alg, Claims, string) -> Option<string>,
    decode: string -> Option<Jws>,
    mac: (Alg, Claims, string) -> string)

  /** verify(sign(c, k), k) = c: a signed token is non-empty and decodes to its header, its claims and their MAC. */
  ghost predicate LawfulJwt(lib: JwtLibrary)
  {
    forall alg, claims, key ::
      lib.sign(alg, claims, key).Some? ==>
        lib.sign(alg, claims, key).value != "" &&
        lib.decode(lib.sign(alg, claims, key).value) == Some(Jws(alg, claims, lib.mac(alg, claims, key)))
  }

  /** Idealised MAC: the same header and payload never carry the same MAC under two keys. */
  ghost predicate KeyedMac(lib: JwtLibrary)
  {
    forall alg, claims, key, key' ::
      key != key' ==> lib.mac(alg, claims, key) != lib.mac(alg, claims, key')
  }

  const Issuer: string := "chirpy"

  /** The claims MakeJWT signs; the model reads the clock once, where auth.go reads it twice. */
  function NewClaims(userID: Uuid, expiresIn: int, now: int): Claims
  {
    Claims(Issuer, ToString(userID), Some(now), Some(now + expiresIn))
  }

  /** MakeJWT: an HS256 token over NewClaims keyed by the secret; ("", err) if signing fails. */
  function MakeJWT(lib: JwtLibrary, userID: Uuid, tokenSecret: string, expiresIn: int, now: int): (r: GoResult<string, AuthError>)
    ensures r.err.Some? ==> r.value == "" && r.err == Some(SigningFailed)
    ensures r.err.None? <==> lib.sign(HS256, NewClaims(userID, expiresIn, now), tokenSecret).Some?
  {
    match lib.sign(HS256, NewClaims(userID, expiresIn, now), tokenSecret)
    case None => GoResult("", Some(SigningFailed))
    case Some(tokenString) => GoResult(tokenString, None)
  }

  /** What a token MakeJWT produced carries: issuer "chirpy", the user as subject, exp = iat + expiresIn, HS256 under the secret. */
  lemma MakeJWTClaims(lib: JwtLibrary, userID: Uuid, tokenSecret: string, expiresIn: int, now: int)
    requires LawfulJwt(lib)
    requires MakeJWT(lib, userID, tokenSecret, expiresIn, now).err.None?
    ensures var token := MakeJWT(lib, userID, tokenSecret, expiresIn, now).value;
      && token != ""
      && lib.decode(token).Some?
      && var jws := lib.decode(token).value;
      && jws.alg == HS256
      && jws.claims.issuer == "chirpy"
      && jws.claims.subject == ToString(userID)
      && jws.claims.issuedAt == Some(now)
      && jws.claims.expiresAt == Some(now + expiresIn)
      && jws.signature == lib.mac(HS256, jws.claims, tokenSecret)
  {
  }

  /** The keyfunc ValidateJWT hands the parser: the secret for an HMAC method, an error for any other. */
  function KeyFunc(tokenSecret: string, signingMethod: Alg): (r: Result<string, AuthError>)
    ensures r.Ok? <==> IsHmac(signingMethod)
    ensures r.Ok? ==> r.value == tokenSecret
    ensures r.Err? ==> r.error == UnexpectedSigningMethod
  {
    if IsHmac(signingMethod) then Ok(tokenSecret) else Err(UnexpectedSigningMethod)
  }

  /** Claims validation as golang-jwt v5 does it here: a token with an exp is accepted only before it. */
  predicate Unexpired(claims: Claims, now: int)
  {
    claims.expiresAt.None? || now < claims.expiresAt.value
  }

  /** The claims a parsed token holds: ParseWithClaims fills the RegisteredClaims it is given. */
  datatype ClaimsValue = Registered(claims: Claims) | OtherClaims

  /** A parsed jwt.Token: its method, its claims, and its Valid flag. */
  datatype Token = Token(signingMethod: Alg, claims: ClaimsValue, valid: bool)

  /**
   * jwt.ParseWithClaims with a RegisteredClaims target and ValidateJWT's
   * keyfunc, in golang-jwt v5's order: decode, keyfunc, signature, claims.
   */
  function ParseWithClaims(lib: JwtLibrary, tokenString: string, tokenSecret: string, now: int): (r: Result<Token, AuthError>)
    ensures r.Ok? ==> r.value.valid && r.value.claims.Registered?
  {
    match lib.decode(tokenString)
    case None => Err(Malformed)
    case Some(jws) =>
      match KeyFunc(tokenSecret, jws.alg)
      case Err(e) => Err(e)
      case Ok(key) =>
        if jws.signature != lib.mac(jws.alg, jws.claims, key) then Err(SignatureInvalid)
        else if !Unexpired(jws.claims, now) then Err(Expired)
        else Ok(Token(jws.alg, Registered(jws.claims), true))
  }

  /**
   * ValidateJWT: the user the token names, or (uuid.Nil, err) at the first
   * failing rung of parse/signature/expiry, Valid flag, claims type, subject.
   */
  function ValidateJWT(lib: JwtLibrary, tokenString: string, tokenSecret: string, now: int): (r: GoResult<Uuid, AuthError>)
    ensures r.err.Some? ==> r.value == Nil
    ensures r.err.None? ==>
      && lib.decode(tokenString).Some?
      && var jws := lib.decode(tokenString).value;
      && IsHmac(jws.alg)
      && jws.signature == lib.mac(jws.alg, jws.claims, tokenSecret)
      && Unexpired(jws.claims, now)
      && Parse(jws.claims.subject) == Some(r.value)
  {
    match ParseWithClaims(lib, tokenString, tokenSecret, now)
    case Err(e) => GoResult(Nil, Some(e))
    case Ok(token) =>
      if !token.valid then GoResult(Nil, Some(InvalidToken))
      else
        match token.claims
        case OtherClaims => GoResult(Nil, Some(InvalidClaimsFormat))
        case Registered(claims) =>
          match Parse(claims.subject)
          case None => GoResult(Nil, Some(InvalidUserId))
          case Some(userID) => GoResult(userID, None)
  }

  /**
   * A token whose method is not HMAC is refused with "unexpected signing
   * method", and the answer does not depend on the secret: the key is never released.
   */
  lemma ValidateRejectsNonHmac(lib: JwtLibrary, tokenString: string, tokenSecret: string, otherSecret: string, now: int)
    requires lib.decode(tokenString).Some? && !IsHmac(lib.decode(tokenString).value.alg)
    ensures ValidateJWT(lib, tokenString, tokenSecret, now) == GoResult(Nil, Some(UnexpectedSigningMethod))
    ensures ValidateJWT(lib, tokenString, tokenSecret, now) == ValidateJWT(lib, tokenString, otherSecret, now)
  {
  }

  /** A correctly signed, unexpired token whose subject is not a UUID is refused with "invalid user ID in token". */
  lemma ValidateRejectsNonUuidSubject(lib: JwtLibrary, tokenString: string, tokenSecret: string, now: int)
    requires lib.decode(tokenString).Some?
    requires var jws := lib.decode(tokenString).value;
      IsHmac(jws.alg) && jws.signature == lib.mac(jws.alg, jws.claims, tokenSecret) && Unexpired(jws.claims, now)
    requires Parse(lib.decode(tokenString).value.claims.subject).None?
    ensures ValidateJWT(lib, tokenString, tokenSecret, now) == GoResult(Nil, Some(InvalidUserId))
  {
  }

  /** The library never hands back an invalid token or other claims without an error, so those two rungs are never reached. */
  lemma ValidateNeverInvalidTokenRungs(lib: JwtLibrary, tokenString: string, tokenSecret: string, now: int)
    ensures ValidateJWT(lib, tokenString, tokenSecret, now).err != Some(InvalidToken)
    ensures ValidateJWT(lib, tokenString, tokenSecret, now).err != Some(InvalidClaimsFormat)
  {
  }

  /** Round trip: a token MakeJWT made for a user validates, with the same secret and before it expires, to that user. */
  lemma ValidateMakeJWT(lib: JwtLibrary, userID: Uuid, tokenSecret: string, expiresIn: int, now: int, later: int)
    requires LawfulJwt(lib)
    requires MakeJWT(lib, userID, tokenSecret, expiresIn, now).err.None?
    requires later < now + expiresIn
    ensures ValidateJWT(lib, MakeJWT(lib, userID, tokenSecret, expiresIn, now).value, tokenSecret, later) == GoResult(userID, None)
  {
    ParseToString(userID);
  }

  /** Once its lifetime is over, the same token is refused as expired. */
  lemma ValidateMakeJWTExpired(lib: JwtLibrary, userID: Uuid, tokenSecret: string, expiresIn: int, now: int, later: int)
    requires LawfulJwt(lib)
    requires MakeJWT(lib, userID, tokenSecret, expiresIn, now).err.None?
    requires later >= now + expiresIn
    ensures ValidateJWT(lib, MakeJWT(lib, userID, tokenSecret, expiresIn, now).value, tokenSecret, later) == GoResult(Nil, Some(Expired))
  {
  }

  /** Under another secret, the token's signature does not verify. */
  lemma ValidateMakeJWTOtherSecret(lib: JwtLibrary, userID: Uuid, tokenSecret: string, otherSecret: string, expiresIn: int, now: int, later: int)
    requires LawfulJwt(lib) && KeyedMac(lib)
    requires MakeJWT(lib, userID, tokenSecret, expiresIn, now).err.None?
    requires otherSecret != tokenSecret
    ensures ValidateJWT(lib, MakeJWT(lib, userID, tokenSecret, expiresIn, now).value, otherSecret, later) == GoResult(Nil, Some(SignatureInvalid))
  {
  }

  /**
   * The method check admits the whole HMAC family: a token signed with HS384
   * or HS512 under the secret validates, though MakeJWT only uses HS256.
   */
  lemma ValidateAcceptsHmacFamily(lib: JwtLibrary, alg: Alg, userID: Uuid, tokenSecret: string, expiresIn: int, now: int)
    requires LawfulJwt(lib)
    requires alg == HS384 || alg == HS512
    requires expiresIn > 0
    requires lib.sign(alg, NewClaims(userID, expiresIn, now), tokenSecret).Some?
    ensures ValidateJWT(lib, lib.sign(alg, NewClaims(userID, expiresIn, now), tokenSecret).value, tokenSecret, now) == GoResult(userID, None)
  {
    ParseToString(userID);
  }
}
