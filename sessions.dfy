/**
 * The login, refresh and revoke flows of internal/api/handlers/auth.go.
 * GetBearerToken and MakeRefreshToken are not part of this model: their
 * outcomes arrive as `bearer` and `minted` (None for their error return).
 */
module Sessions {
  import opened Wrappers
  import opened Uuids
  import opened Auth
  import opened Database
  import opened Http

  /** time.Hour: the lifetime of every access token the server issues. */
  const AccessTokenLifetime: int := 3600
  /** 60 days: the lifetime of a refresh token. */
  const RefreshTokenLifetime: int := 3600 * 24 * 60

  const IncorrectCredentials: string := "Incorrect email or password"

  /** The login request body. */
  datatype Credentials = Credentials(password: string, email: string)

  class AuthHandler {
    const db: Store
    const jwtSecret: string
    const bcrypt: Bcrypt
    const jwt: JwtLibrary

    constructor (db: Store, jwtSecret: string, bcrypt: Bcrypt, jwt: JwtLibrary)
      ensures this.db == db && this.jwtSecret == jwtSecret && this.bcrypt == bcrypt && this.jwt == jwt
    {
      this.db := db;
      this.jwtSecret := jwtSecret;
      this.bcrypt := bcrypt;
      this.jwt := jwt;
    }

    /** Whether the credentials name a stored user whose hash matches the password. */
    predicate Authenticates(c: Credentials, fault: bool)
      reads db
    {
      && db.GetUserByEmail(c.email, fault).Ok?
      && CheckPasswordHash(bcrypt, c.password, db.GetUserByEmail(c.email, fault).value.hashedPassword).None?
    }

    /**
     * Login: an unknown email and a wrong password get the same 401; on
     * success a one-hour access token and a fresh refresh-token row that
     * lives 60 days. Only the refresh-token table can change, and only
     * when the answer is 200.
     */
    method Login(params: Option<Credentials>, minted: Option<string>, now: int, lookupFault: bool, insertFault: bool) returns (resp: Response)
      requires db.Valid()
      modifies db`refreshTokens
      ensures db.Valid()
      ensures params.None? ==> resp == Error(StatusInternalServerError, "Couldn't decode parameters")
      ensures params.Some? && !old(Authenticates(params.value, lookupFault)) ==>
        resp == Error(StatusUnauthorized, IncorrectCredentials)
      ensures resp.status == StatusOK <==>
        && params.Some?
        && old(Authenticates(params.value, lookupFault))
        && MakeJWT(jwt, old(db.GetUserByEmail(params.value.email, lookupFault)).value.id, jwtSecret, AccessTokenLifetime, now).err.None?
        && minted.Some?
        && !insertFault && minted.value !in old(db.refreshTokens)
      ensures resp.status == StatusOK ==>
        var user := old(db.GetUserByEmail(params.value.email, lookupFault)).value;
        && resp.body == LoginJson(Public(user), MakeJWT(jwt, user.id, jwtSecret, AccessTokenLifetime, now).value, minted.value)
        && db.refreshTokens == old(db.refreshTokens)[minted.value :=
             RefreshTokenRow(minted.value, now, now, user.id, now + RefreshTokenLifetime, None)]
      ensures params.Some? && old(Authenticates(params.value, lookupFault)) ==>
        var user := old(db.GetUserByEmail(params.value.email, lookupFault)).value;
        var accessToken := MakeJWT(jwt, user.id, jwtSecret, AccessTokenLifetime, now);
        && (accessToken.err.Some? ==> resp == Error(StatusInternalServerError, "Couldn't create access JWT"))
        && (accessToken.err.None? && minted.None? ==> resp == Error(StatusInternalServerError, "Couldn't create refresh token"))
        && (accessToken.err.None? && minted.Some? && (insertFault || minted.value in old(db.refreshTokens)) ==>
              resp == Error(StatusInternalServerError, "Couldn't save refresh token"))
      ensures resp.status != StatusOK ==> db.refreshTokens == old(db.refreshTokens) && !resp.body.LoginJson?
      ensures resp.status in {StatusOK, StatusUnauthorized, StatusInternalServerError}
    {
      if params.None? {
        return Error(StatusInternalServerError, "Couldn't decode parameters");
      }
      var user := db.GetUserByEmail(params.value.email, lookupFault);
      if user.Err? {
        return Error(StatusUnauthorized, IncorrectCredentials);
      }
      var err := CheckPasswordHash(bcrypt, params.value.password, user.value.hashedPassword);
      if err.Some? {
        return Error(StatusUnauthorized, IncorrectCredentials);
      }
      var accessToken := MakeJWT(jwt, user.value.id, jwtSecret, AccessTokenLifetime, now);
      if accessToken.err.Some? {
        return Error(StatusInternalServerError, "Couldn't create access JWT");
      }
      if minted.None? {
        return Error(StatusInternalServerError, "Couldn't create refresh token");
      }
      var row := db.CreateRefreshToken(minted.value, user.value.id, now + RefreshTokenLifetime, now, insertFault);
      if row.Err? {
        return Error(StatusInternalServerError, "Couldn't save refresh token");
      }
      resp := Respond(StatusOK, LoginJson(Public(user.value), accessToken.value, minted.value));
    }

    /**
     * RefreshToken: 400 without a bearer token, 401 when the store yields no
     * user for it, otherwise a new one-hour access token for the owner of the
     * stored row. It only reads the store, so the refresh token is not rotated.
     */
    function RefreshToken(bearer: Option<string>, now: int, fault: bool): (resp: Response)
      reads db
      ensures bearer.None? ==> resp == Error(StatusBadRequest, "Couldn't find token")
      ensures bearer.Some? && db.GetUserFromRefreshToken(bearer.value, now, fault).Err? ==>
        resp == Error(StatusUnauthorized, "Couldn't get user for refresh token")
      ensures resp.status == StatusOK ==>
        && bearer.Some? && bearer.value in db.refreshTokens
        && db.refreshTokenUsable(db.refreshTokens[bearer.value], now)
        && resp.body.TokenJson?
        && Some(resp.body.token) == MakeToken(db.refreshTokens[bearer.value].userId, now)
      ensures bearer.Some? && db.GetUserFromRefreshToken(bearer.value, now, fault).Ok? ==>
        var t := MakeJWT(jwt, db.GetUserFromRefreshToken(bearer.value, now, fault).value.id, jwtSecret, AccessTokenLifetime, now);
        && (t.err.None? ==> resp == Response(StatusOK, TokenJson(t.value)))
        && (t.err.Some? ==> resp == Error(StatusUnauthorized, "Couldn't validate token"))
      ensures resp.status in {StatusOK, StatusBadRequest, StatusUnauthorized}
    {
      if bearer.None? then Error(StatusBadRequest, "Couldn't find token")
      else
        var user := db.GetUserFromRefreshToken(bearer.value, now, fault);
        if user.Err? then Error(StatusUnauthorized, "Couldn't get user for refresh token")
        else
          var accessToken := MakeJWT(jwt, user.value.id, jwtSecret, AccessTokenLifetime, now);
          if accessToken.err.Some? then Error(StatusUnauthorized, "Couldn't validate token")
          else Respond(StatusOK, TokenJson(accessToken.value))
    }

    /** The access token this handler mints for a user at `now`, if signing succeeds. */
    function MakeToken(userID: Uuid, now: int): Option<string>
    {
      var t := MakeJWT(jwt, userID, jwtSecret, AccessTokenLifetime, now);
      if t.err.None? then Some(t.value) else None
    }

    /**
     * RevokeToken: 400 without a bearer token (store untouched), 500 when
     * the update fails, otherwise 204 with the row marked revoked.
     */
    method RevokeToken(bearer: Option<string>, now: int, fault: bool) returns (resp: Response)
      requires db.Valid()
      modifies db`refreshTokens
      ensures db.Valid()
      ensures bearer.None? ==> resp == Error(StatusBadRequest, "Couldn't find token")
      ensures bearer.Some? && fault ==> resp == Error(StatusInternalServerError, "Couldn't revoke session")
      ensures bearer.Some? && !fault ==> resp == Response(StatusNoContent, NoBody)
      ensures resp.status == StatusNoContent && bearer.value in old(db.refreshTokens) ==>
        db.refreshTokens == old(db.refreshTokens)[bearer.value := Revoked(old(db.refreshTokens)[bearer.value], now)]
      ensures resp.status != StatusNoContent || bearer.value !in old(db.refreshTokens) ==>
        db.refreshTokens == old(db.refreshTokens)
    {
      if bearer.None? {
        return Error(StatusBadRequest, "Couldn't find token");
      }
      var err := db.RevokeRefreshToken(bearer.value, now, fault);
      if err.Some? {
        return Error(StatusInternalServerError, "Couldn't revoke session");
      }
      resp := Respond(StatusNoContent, NoBody);
    }
  }

  /**
   * A token RefreshToken hands out validates, for the owner of the stored
   * row, until an hour after it was issued.
   */
  lemma RefreshedTokenValidates(h: AuthHandler, bearer: Option<string>, now: int, fault: bool, later: int)
    requires LawfulJwt(h.jwt)
    requires h.RefreshToken(bearer, now, fault).status == StatusOK
    requires later < now + AccessTokenLifetime
    ensures bearer.Some? && bearer.value in h.db.refreshTokens
    ensures ValidateJWT(h.jwt, h.RefreshToken(bearer, now, fault).body.token, h.jwtSecret, later)
      == GoResult(h.db.refreshTokens[bearer.value].userId, None)
  {
    var owner := h.db.refreshTokens[bearer.value].userId;
    ValidateMakeJWT(h.jwt, owner, h.jwtSecret, AccessTokenLifetime, now, later);
  }
}
