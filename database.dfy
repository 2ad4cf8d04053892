/**
 * The relational store behind the handlers (internal/database is not part of
 * this model): three tables and the queries the handlers call. Each query
 * takes `fault`, standing for a database error the model does not explain
 * (lost connection, a constraint outside the model); ids and times are
 * passed in where the database would generate them.
 */
module Database {
  import opened Wrappers
  import opened Uuids

  datatype UserRow = UserRow(id: Uuid, createdAt: int, updatedAt: int, email: string, hashedPassword: string, isChirpyRed: bool)

  datatype RefreshTokenRow = RefreshTokenRow(token: string, createdAt: int, updatedAt: int, userId: Uuid, expiresAt: int, revokedAt: Option<int>)

  datatype Chirp = Chirp(id: Uuid, createdAt: int, updatedAt: int, body: string, userId: Uuid)

  /** sql.ErrNoRows, or any other database error. */
  datatype DbError = NoRows | Failure

  /** The first position of `s` whose element satisfies `p`. */
  function FirstIndex<T>(s: seq<T>, p: T -> bool): (r: Option<nat>)
    ensures r.Some? ==> r.value < |s| && p(s[r.value]) && forall i :: 0 <= i < r.value ==> !p(s[i])
    ensures r.None? ==> forall i :: 0 <= i < |s| ==> !p(s[i])
  {
    if s == [] then None
    else if p(s[0]) then Some(0)
    else match FirstIndex(s[1..], p)
      case None => None
      case Some(i) => Some(i + 1)
  }

  function UserIndex(users: seq<UserRow>, id: Uuid): Option<nat>
  {
    FirstIndex(users, (u: UserRow) => u.id == id)
  }

  function ChirpIndex(chirps: seq<Chirp>, id: Uuid): Option<nat>
  {
    FirstIndex(chirps, (c: Chirp) => c.id == id)
  }

  predicate UniqueUserIds(users: seq<UserRow>)
  {
    forall i, j :: 0 <= i < j < |users| ==> users[i].id != users[j].id
  }

  predicate UniqueChirpIds(chirps: seq<Chirp>)
  {
    forall i, j :: 0 <= i < j < |chirps| ==> chirps[i].id != chirps[j].id
  }

  /** GetChirpsByAuthorID's rows: the chirps of one author, in table order. */
  function ByAuthor(chirps: seq<Chirp>, author: Uuid): (r: seq<Chirp>)
    ensures forall c :: c in r <==> c in chirps && c.userId == author
    ensures multiset(r) <= multiset(chirps)
  {
    if chirps == [] then []
    else
      var rest := ByAuthor(chirps[1..], author);
      assert chirps == [chirps[0]] + chirps[1..];
      if chirps[0].userId == author then [chirps[0]] + rest else rest
  }

  /** The table after deleting the rows with one id. */
  function WithoutChirp(chirps: seq<Chirp>, id: Uuid): (r: seq<Chirp>)
    ensures forall c :: c in r <==> c in chirps && c.id != id
    ensures UniqueChirpIds(chirps) ==> UniqueChirpIds(r)
  {
    if chirps == [] then []
    else
      var rest := WithoutChirp(chirps[1..], id);
      if chirps[0].id == id then rest
      else
        assert UniqueChirpIds(chirps) ==> forall c :: c in rest ==> c.id != chirps[0].id;
        [chirps[0]] + rest
  }

  /** Deleting a stored chirp by id removes that one chirp and nothing else. */
  lemma {:induction false} WithoutChirpRemovesOne(chirps: seq<Chirp>, c: Chirp)
    requires UniqueChirpIds(chirps) && c in chirps
    ensures multiset(WithoutChirp(chirps, c.id)) + multiset{c} == multiset(chirps)
    ensures |WithoutChirp(chirps, c.id)| == |chirps| - 1
  {
    assert chirps == [chirps[0]] + chirps[1..];
    if chirps[0] == c {
      assert forall d :: d in chirps[1..] ==> d.id != c.id;
      WithoutChirpAbsent(chirps[1..], c.id);
    } else {
      assert chirps[0].id != c.id;
      WithoutChirpRemovesOne(chirps[1..], c);
    }
  }

  /** Deleting an id no chirp has changes nothing. */
  lemma {:induction false} WithoutChirpAbsent(chirps: seq<Chirp>, id: Uuid)
    requires forall d :: d in chirps ==> d.id != id
    ensures WithoutChirp(chirps, id) == chirps
  {
    if chirps != [] {
      WithoutChirpAbsent(chirps[1..], id);
    }
  }

  /** A refresh-token row after revocation at `now`. */
  function Revoked(row: RefreshTokenRow, now: int): (r: RefreshTokenRow)
    ensures r.revokedAt == Some(now) && r.updatedAt == now
    ensures r.token == row.token && r.userId == row.userId && r.createdAt == row.createdAt && r.expiresAt == row.expiresAt
  {
    row.(revokedAt := Some(now), updatedAt := now)
  }

  class Store {
    var users: seq<UserRow>
    var refreshTokens: map<string, RefreshTokenRow>
    var chirps: seq<Chirp>
    /**
     * The condition GetUserFromRefreshToken puts on a row at a given time
     * (whether it filters expired or revoked rows is decided in SQL that is
     * not part of this model).
     */
    const refreshTokenUsable: (RefreshTokenRow, int) -> bool

    /** Primary keys are unique, and each refresh-token row sits under its own token. */
    ghost predicate Valid()
      reads this
    {
      && UniqueUserIds(users)
      && UniqueChirpIds(chirps)
      && forall t :: t in refreshTokens ==> refreshTokens[t].token == t
    }

    constructor (refreshTokenUsable: (RefreshTokenRow, int) -> bool)
      ensures Valid()
      ensures users == [] && refreshTokens == map[] && chirps == []
      ensures this.refreshTokenUsable == refreshTokenUsable
    {
      users := [];
      refreshTokens := map[];
      chirps := [];
      this.refreshTokenUsable := refreshTokenUsable;
    }

    /** CreateUser: a new row with the given id, not yet Chirpy Red; fails on a taken id. */
    method CreateUser(id: Uuid, email: string, hashedPassword: string, now: int, fault: bool) returns (r: Result<UserRow, DbError>)
      requires Valid()
      modifies this`users
      ensures Valid()
      ensures r.Ok? <==> !fault && UserIndex(old(users), id).None?
      ensures r.Ok? ==> r.value == UserRow(id, now, now, email, hashedPassword, false) && users == old(users) + [r.value]
      ensures r.Err? ==> r.error == Failure && users == old(users)
    {
      if fault || UserIndex(users, id).Some? {
        return Err(Failure);
      }
      r := Ok(UserRow(id, now, now, email, hashedPassword, false));
      users := users + [r.value];
    }

    /** GetUserByEmail: the first row with that email, or sql.ErrNoRows. */
    function GetUserByEmail(email: string, fault: bool): (r: Result<UserRow, DbError>)
      reads this
      ensures r.Ok? ==> r.value in users && r.value.email == email
      ensures !fault && r.Err? ==> forall u :: u in users ==> u.email != email
    {
      if fault then Err(Failure)
      else
        match FirstIndex(users, (u: UserRow) => u.email == email)
        case None => Err(NoRows)
        case Some(i) => Ok(users[i])
    }

    /** UpdateUser: new email and hash for the row with that id, or sql.ErrNoRows. */
    method UpdateUser(id: Uuid, email: string, hashedPassword: string, now: int, fault: bool) returns (r: Result<UserRow, DbError>)
      requires Valid()
      modifies this`users
      ensures Valid()
      ensures r.Ok? <==> !fault && UserIndex(old(users), id).Some?
      ensures r.Ok? ==>
        var i := UserIndex(old(users), id).value;
        && r.value == old(users)[i].(email := email, hashedPassword := hashedPassword, updatedAt := now)
        && users == old(users)[i := r.value]
      ensures r.Err? ==> users == old(users) && r.error == (if fault then Failure else NoRows)
    {
      if fault {
        return Err(Failure);
      }
      var i := UserIndex(users, id);
      if i.None? {
        return Err(NoRows);
      }
      r := Ok(users[i.value].(email := email, hashedPassword := hashedPassword, updatedAt := now));
      users := users[i.value := r.value];
    }

    /** UpgradeUserToChirpyRed: set the flag on the row with that id, or sql.ErrNoRows. */
    method UpgradeUserToChirpyRed(id: Uuid, now: int, fault: bool) returns (r: Result<UserRow, DbError>)
      requires Valid()
      modifies this`users
      ensures Valid()
      ensures r.Ok? <==> !fault && UserIndex(old(users), id).Some?
      ensures r.Ok? ==>
        var i := UserIndex(old(users), id).value;
        && r.value == old(users)[i].(isChirpyRed := true, updatedAt := now)
        && users == old(users)[i := r.value]
      ensures r.Err? ==> users == old(users) && r.error == (if fault then Failure else NoRows)
    {
      if fault {
        return Err(Failure);
      }
      var i := UserIndex(users, id);
      if i.None? {
        return Err(NoRows);
      }
      r := Ok(users[i.value].(isChirpyRed := true, updatedAt := now));
      users := users[i.value := r.value];
    }

    /** CreateRefreshToken: a new, unrevoked row under a token not yet stored. */
    method CreateRefreshToken(token: string, userId: Uuid, expiresAt: int, now: int, fault: bool) returns (r: Result<RefreshTokenRow, DbError>)
      requires Valid()
      modifies this`refreshTokens
      ensures Valid()
      ensures r.Ok? <==> !fault && token !in old(refreshTokens)
      ensures r.Ok? ==>
        && r.value == RefreshTokenRow(token, now, now, userId, expiresAt, None)
        && refreshTokens == old(refreshTokens)[token := r.value]
      ensures r.Err? ==> r.error == Failure && refreshTokens == old(refreshTokens)
    {
      if fault || token in refreshTokens {
        return Err(Failure);
      }
      r := Ok(RefreshTokenRow(token, now, now, userId, expiresAt, None));
      refreshTokens := refreshTokens[token := r.value];
    }

    /** GetUserFromRefreshToken: the owner of a stored row the query admits at `now`. */
    function GetUserFromRefreshToken(token: string, now: int, fault: bool): (r: Result<UserRow, DbError>)
      reads this
      ensures r.Ok? ==>
        && token in refreshTokens
        && refreshTokenUsable(refreshTokens[token], now)
        && r.value in users
        && r.value.id == refreshTokens[token].userId
      ensures !fault && token !in refreshTokens ==> r == Err(NoRows)
      ensures (!fault && token in refreshTokens && refreshTokenUsable(refreshTokens[token], now)
          && UserIndex(users, refreshTokens[token].userId).Some?) ==>
        r == Ok(users[UserIndex(users, refreshTokens[token].userId).value])
    {
      if fault then Err(Failure)
      else if token !in refreshTokens || !refreshTokenUsable(refreshTokens[token], now) then Err(NoRows)
      else
        match UserIndex(users, refreshTokens[token].userId)
        case None => Err(NoRows)
        case Some(i) => Ok(users[i])
    }

    /** RevokeRefreshToken: mark the row with that token revoked at `now`; no other row changes. */
    method RevokeRefreshToken(token: string, now: int, fault: bool) returns (err: Option<DbError>)
      requires Valid()
      modifies this`refreshTokens
      ensures Valid()
      ensures err.Some? <==> fault
      ensures err.Some? ==> refreshTokens == old(refreshTokens)
      ensures err.None? && token in old(refreshTokens) ==>
        refreshTokens == old(refreshTokens)[token := Revoked(old(refreshTokens)[token], now)]
      ensures err.None? && token !in old(refreshTokens) ==> refreshTokens == old(refreshTokens)
    {
      if fault {
        return Some(Failure);
      }
      if token in refreshTokens {
        refreshTokens := refreshTokens[token := Revoked(refreshTokens[token], now)];
      }
      err := None;
    }

    /** CreateChirp: a new chirp at the end of the table; fails on a taken id. */
    method CreateChirp(id: Uuid, body: string, userId: Uuid, now: int, fault: bool) returns (r: Result<Chirp, DbError>)
      requires Valid()
      modifies this`chirps
      ensures Valid()
      ensures r.Ok? <==> !fault && ChirpIndex(old(chirps), id).None?
      ensures r.Ok? ==> r.value == Chirp(id, now, now, body, userId) && chirps == old(chirps) + [r.value]
      ensures r.Err? ==> r.error == Failure && chirps == old(chirps)
    {
      if fault || ChirpIndex(chirps, id).Some? {
        return Err(Failure);
      }
      r := Ok(Chirp(id, now, now, body, userId));
      chirps := chirps + [r.value];
    }

    /** GetChirps: every chirp, in table order. */
    function GetChirps(fault: bool): (r: Result<seq<Chirp>, DbError>)
      reads this
      ensures r.Ok? <==> !fault
      ensures r.Ok? ==> r.value == chirps
    {
      if fault then Err(Failure) else Ok(chirps)
    }

    /** GetChirpsByAuthorID: the chirps of one author. */
    function GetChirpsByAuthorID(author: Uuid, fault: bool): (r: Result<seq<Chirp>, DbError>)
      reads this
      ensures r.Ok? <==> !fault
      ensures r.Ok? ==> forall c :: c in r.value <==> c in chirps && c.userId == author
    {
      if fault then Err(Failure) else Ok(ByAuthor(chirps, author))
    }

    /** GetChirp: the chirp with that id, or sql.ErrNoRows. */
    function GetChirp(id: Uuid, fault: bool): (r: Result<Chirp, DbError>)
      reads this
      ensures r.Ok? ==> r.value in chirps && r.value.id == id
      ensures !fault ==> (r.Ok? <==> exists c :: c in chirps && c.id == id)
    {
      if fault then Err(Failure)
      else
        match ChirpIndex(chirps, id)
        case None => Err(NoRows)
        case Some(i) => Ok(chirps[i])
    }

    /** DeleteChirp: remove the chirp with that id. */
    method DeleteChirp(id: Uuid, fault: bool) returns (err: Option<DbError>)
      requires Valid()
      modifies this`chirps
      ensures Valid()
      ensures err.Some? <==> fault
      ensures err.Some? ==> chirps == old(chirps)
      ensures err.None? ==> chirps == WithoutChirp(old(chirps), id)
    {
      if fault {
        return Some(Failure);
      }
      chirps := WithoutChirp(chirps, id);
      err := None;
    }

    /** Reset: delete every user, and with them their refresh tokens and chirps. */
    method Reset(fault: bool) returns (err: Option<DbError>)
      requires Valid()
      modifies this`users, this`refreshTokens, this`chirps
      ensures Valid()
      ensures err.Some? <==> fault
      ensures err.Some? ==> users == old(users) && refreshTokens == old(refreshTokens) && chirps == old(chirps)
      ensures err.None? ==> users == [] && refreshTokens == map[] && chirps == []
    {
      if fault {
        return Some(Failure);
      }
      users, refreshTokens, chirps := [], map[], [];
      err := None;
    }
  }
}
