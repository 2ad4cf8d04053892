/**
 * Wiring of the handlers (internal/api/router.go): every handler shares one
 * store, and the admin handler and the metrics middleware share one hit
 * counter. Three end-to-end scenarios over a fresh store follow.
 */
module Server {
  import opened Wrappers
  import opened Uuids
  import opened Auth
  import opened Database
  import opened Http
  import opened Metrics
  import opened Sessions
  import opened Users
  import opened Chirps
  import opened Webhooks
  import opened Admin

  class Router {
    const authHandler: AuthHandler
    const chirpsHandler: ChirpsHandler
    const usersHandler: UserHandler
    const adminHandler: AdminHandler
    const webhookHandler: WebhookHandler
    const metricsMiddleware: MetricsMiddleware

    /** Router: builds each handler from the one configuration. */
    constructor (db: Store, platform: string, jwtSecret: string, polkaKey: string, fileserverHits: HitCounter,
                 bcrypt: Bcrypt, jwt: JwtLibrary)
      ensures authHandler.db == db && chirpsHandler.db == db && usersHandler.db == db
      ensures adminHandler.db == db && webhookHandler.db == db
      ensures adminHandler.fileserverHits == fileserverHits && metricsMiddleware.hits == fileserverHits
      ensures adminHandler.platform == platform && webhookHandler.polkaKey == polkaKey
      ensures authHandler.jwtSecret == jwtSecret && chirpsHandler.jwtSecret == jwtSecret && usersHandler.jwtSecret == jwtSecret
      ensures authHandler.jwt == jwt && chirpsHandler.jwt == jwt && usersHandler.jwt == jwt
      ensures authHandler.bcrypt == bcrypt && usersHandler.bcrypt == bcrypt
    {
      authHandler := new AuthHandler(db, jwtSecret, bcrypt, jwt);
      chirpsHandler := new ChirpsHandler(db, jwtSecret, jwt);
      usersHandler := new UserHandler(db, jwtSecret, bcrypt, jwt);
      adminHandler := new AdminHandler(db, platform, fileserverHits);
      webhookHandler := new WebhookHandler(db, polkaKey);
      metricsMiddleware := new MetricsMiddleware(fileserverHits);
    }
  }

  /**
   * Two file-server requests through the middleware are reported by
   * /admin/metrics, and a reset on the "dev" platform brings the report
   * back to zero: the counter the middleware raises is the one Reset zeroes.
   */
  method HitsReportedThenReset(fileServer: Request -> Response, bcrypt: Bcrypt, jwt: JwtLibrary)
    returns (before: Response, after: Response)
    ensures before == Response(StatusOK, MetricsHtml(2))
    ensures after == Response(StatusOK, MetricsHtml(0))
  {
    var store := new Store((row: RefreshTokenRow, now: int) => true);
    var hits := new HitCounter();
    var router := new Router(store, DevPlatform, "secret", "polka", hits, bcrypt, jwt);
    var _ := router.metricsMiddleware.MetricsInc(fileServer, "/app/");
    var _ := router.metricsMiddleware.MetricsInc(fileServer, "/app/assets/logo.png");
    before := router.adminHandler.GetMetrics();
    var _ := router.adminHandler.Reset(None);
    after := router.adminHandler.GetMetrics();
  }

  /**
   * A refresh token handed out at login, while the store still admits it,
   * refreshes to a new access token that validates to the user.
   */
  method LogInThenRefresh(bcrypt: Bcrypt, jwt: JwtLibrary, jwtSecret: string, email: string, password: string,
                          salt: Salt, id: Uuid, minted: string, now: int, later: int)
    returns (login: Response, refreshed: Response)
    requires SoundBcrypt(bcrypt) && LawfulJwt(jwt)
    requires bcrypt.generate(password, salt).Some?
    requires jwt.sign(HS256, NewClaims(id, AccessTokenLifetime, now), jwtSecret).Some?
    requires jwt.sign(HS256, NewClaims(id, AccessTokenLifetime, later), jwtSecret).Some?
    requires now <= later < now + RefreshTokenLifetime
    ensures login.status == StatusOK && login.body.LoginJson? && login.body.refreshToken == minted
    ensures refreshed.status == StatusOK && refreshed.body.TokenJson?
    ensures ValidateJWT(jwt, refreshed.body.token, jwtSecret, later) == GoResult(id, None)
  {
    var store := new Store((row: RefreshTokenRow, t: int) => t < row.expiresAt);
    var hits := new HitCounter();
    var router := new Router(store, DevPlatform, jwtSecret, "polka", hits, bcrypt, jwt);
    var created := router.usersHandler.Create(Some(Credentials(password, email)), salt, id, now, false);
    assert store.users[0].email == email;
    login := router.authHandler.Login(Some(Credentials(password, email)), Some(minted), now, false, false);
    assert store.refreshTokens[minted].userId == id;
    assert UserIndex(store.users, id) == Some(0);
    refreshed := router.authHandler.RefreshToken(Some(minted), later, false);
    ValidateMakeJWT(jwt, id, jwtSecret, AccessTokenLifetime, later, later);
  }

  /**
   * A user who signs up can log in with the same email and password; the
   * login answers with the created user's public fields, and its access
   * token validates to the new user's id within the hour.
   */
  method SignUpThenLogIn(bcrypt: Bcrypt, jwt: JwtLibrary, jwtSecret: string, email: string, password: string,
                         salt: Salt, id: Uuid, minted: string, now: int, later: int)
    returns (created: Response, login: Response)
    requires SoundBcrypt(bcrypt) && LawfulJwt(jwt)
    requires bcrypt.generate(password, salt).Some?
    requires jwt.sign(HS256, NewClaims(id, AccessTokenLifetime, now), jwtSecret).Some?
    requires now <= later < now + AccessTokenLifetime
    ensures created.status == StatusCreated && created.body.UserJson?
    ensures login.status == StatusOK && login.body.LoginJson?
    ensures login.body.user == created.body.user && login.body.refreshToken == minted
    ensures ValidateJWT(jwt, login.body.token, jwtSecret, later) == GoResult(id, None)
  {
    var store := new Store((row: RefreshTokenRow, t: int) => t < row.expiresAt);
    var hits := new HitCounter();
    var router := new Router(store, DevPlatform, jwtSecret, "polka", hits, bcrypt, jwt);
    created := router.usersHandler.Create(Some(Credentials(password, email)), salt, id, now, false);
    assert store.users[0].email == email;
    login := router.authHandler.Login(Some(Credentials(password, email)), Some(minted), now, false, false);
    ValidateMakeJWT(jwt, id, jwtSecret, AccessTokenLifetime, now, later);
  }
}
