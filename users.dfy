/**
 * Account creation and update (internal/api/handlers/user.go). The fresh
 * user id and the bcrypt salt, which the database and crypto/rand supply in
 * the service, are parameters here; GetBearerToken's outcome is `bearer`.
 */
module Users {
  import opened Wrappers
  import opened Uuids
  import opened Auth
  import opened Database
  import opened Http
  import opened Sessions

  class UserHandler {
    const db: Store
    const jwtSecret: string
    const bcrypt: Bcrypt
    const jwt: JwtLibrary

    constructor (db: Store, jwtSecret: string, bcrypt: Bcrypt, jwt: JwtLibrary)
      ensures this.db == db && this.jwtSecret == jwtSecret && this.bcrypt == bcrypt && this.jwt == jwt
    {
      this.db := db;
      this.jwtSecret := jwtSecret;
      this.bcrypt := bcrypt;
      this.jwt := jwt;
    }

    /**
     * Create: the stored row carries the bcrypt output, never the password;
     * a hashing failure or a store error creates no row; success answers
     * 201 with the public fields of the new row.
     */
    method Create(params: Option<Credentials>, salt: Salt, id: Uuid, now: int, fault: bool) returns (resp: Response)
      requires db.Valid()
      modifies db`users
      ensures db.Valid()
      ensures params.None? ==> resp == Error(StatusInternalServerError, "Something went wrong")
      ensures params.Some? && bcrypt.generate(params.value.password, salt).None? ==>
        resp == Error(StatusInternalServerError, "Couldn't hash password")
      ensures resp.status == StatusCreated <==>
        && params.Some?
        && bcrypt.generate(params.value.password, salt).Some?
        && !fault && UserIndex(old(db.users), id).None?
      ensures resp.status == StatusCreated ==>
        var row := UserRow(id, now, now, params.value.email, bcrypt.generate(params.value.password, salt).value, false);
        && db.users == old(db.users) + [row]
        && resp.body == UserJson(Public(row))
      ensures (params.Some? && bcrypt.generate(params.value.password, salt).Some?
          && (fault || UserIndex(old(db.users), id).Some?)) ==>
        resp == Error(StatusInternalServerError, "Something went wrong")
      ensures resp.status != StatusCreated ==>
        db.users == old(db.users) && resp.status == StatusInternalServerError
    {
      if params.None? {
        return Error(StatusInternalServerError, "Something went wrong");
      }
      var hashed := HashPassword(bcrypt, params.value.password, salt);
      if hashed.err.Some? {
        return Error(StatusInternalServerError, "Couldn't hash password");
      }
      var user := db.CreateUser(id, params.value.email, hashed.value, now, fault);
      if user.Err? {
        return Error(StatusInternalServerError, "Something went wrong");
      }
      resp := Respond(StatusCreated, UserJson(Public(user.value)));
    }

    /**
     * Update: the bearer token is checked before the body is read (401
     * "Missing or malformed token", then 401 "Invalid token"); on success
     * only the row whose id is the token subject gets the new email and
     * hash.
     */
    method Update(bearer: Option<string>, params: Option<Credentials>, salt: Salt, now: int, fault: bool) returns (resp: Response)
      requires db.Valid()
      modifies db`users
      ensures db.Valid()
      ensures bearer.None? ==> resp == Error(StatusUnauthorized, "Missing or malformed token")
      ensures bearer.Some? && ValidateJWT(jwt, bearer.value, jwtSecret, now).err.Some? ==>
        resp == Error(StatusUnauthorized, "Invalid token")
      ensures bearer.Some? && ValidateJWT(jwt, bearer.value, jwtSecret, now).err.None? ==>
        && (params.None? ==> resp == Error(StatusInternalServerError, "Something went wrong"))
        && (params.Some? && bcrypt.generate(params.value.password, salt).None? ==>
              resp == Error(StatusInternalServerError, "Couldn't hash password"))
        && (params.Some? && bcrypt.generate(params.value.password, salt).Some?
              && (fault || UserIndex(old(db.users), ValidateJWT(jwt, bearer.value, jwtSecret, now).value).None?) ==>
              resp == Error(StatusInternalServerError, "Something went wrong"))
      ensures resp.status == StatusOK <==>
        && bearer.Some? && ValidateJWT(jwt, bearer.value, jwtSecret, now).err.None?
        && params.Some? && bcrypt.generate(params.value.password, salt).Some?
        && !fault && UserIndex(old(db.users), ValidateJWT(jwt, bearer.value, jwtSecret, now).value).Some?
      ensures resp.status == StatusOK ==>
        var subject := ValidateJWT(jwt, bearer.value, jwtSecret, now).value;
        var i := UserIndex(old(db.users), subject).value;
        var row := old(db.users)[i].(email := params.value.email,
                                     hashedPassword := bcrypt.generate(params.value.password, salt).value,
                                     updatedAt := now);
        && db.users == old(db.users)[i := row]
        && resp.body == UserJson(Public(row))
      ensures resp.status != StatusOK ==> db.users == old(db.users)
      ensures |db.users| == |old(db.users)|
      ensures forall k :: 0 <= k < |db.users| && db.users[k] != old(db.users)[k] ==>
        bearer.Some? && db.users[k].id == ValidateJWT(jwt, bearer.value, jwtSecret, now).value
    {
      if bearer.None? {
        return Error(StatusUnauthorized, "Missing or malformed token");
      }
      var userID := ValidateJWT(jwt, bearer.value, jwtSecret, now);
      if userID.err.Some? {
        return Error(StatusUnauthorized, "Invalid token");
      }
      if params.None? {
        return Error(StatusInternalServerError, "Something went wrong");
      }
      var hashed := HashPassword(bcrypt, params.value.password, salt);
      if hashed.err.Some? {
        return Error(StatusInternalServerError, "Couldn't hash password");
      }
      var user := db.UpdateUser(userID.value, params.value.email, hashed.value, now, fault);
      if user.Err? {
        return Error(StatusInternalServerError, "Something went wrong");
      }
      resp := Respond(StatusOK, UserJson(Public(user.value)));
    }
  }
}
