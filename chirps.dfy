/**
 * The chirp endpoints of internal/api/handlers/chirps.go. GetBearerToken is
 * not part of this model: its outcome arrives as `bearer`. The fresh chirp id
 * the database generates is a parameter.
 */
module Chirps {
  import opened Wrappers
  import opened Uuids
  import opened Text
  import opened Profanity
  import opened Auth
  import opened Database
  import opened Http

  /** The longest body accepted, in bytes (Go's len on a string). */
  const MaxChirpLength: nat := 140

  /** sort.Slice's order: newest first when `desc`, oldest first otherwise. */
  predicate InOrder(a: Chirp, b: Chirp, desc: bool)
  {
    if desc then a.createdAt >= b.createdAt else a.createdAt <= b.createdAt
  }

  predicate Sorted(s: seq<Chirp>, desc: bool)
  {
    forall k, l :: 0 <= k < l < |s| ==> InOrder(s[k], s[l], desc)
  }

  /** sort.Slice on CreatedAt, in place (insertion sort; ties keep no promised order). */
  method SortChirps(a: array<Chirp>, desc: bool)
    modifies a
    ensures Sorted(a[..], desc)
    ensures multiset(a[..]) == multiset(old(a[..]))
  {
    var i := 0;
    while i < a.Length
      invariant 0 <= i <= a.Length
      invariant Sorted(a[..i], desc)
      invariant multiset(a[..]) == multiset(old(a[..]))
    {
      Insert(a, i, desc);
      i := i + 1;
    }
    assert a[..] == a[..a.Length];
  }

  /** Moves a[i] down into the sorted prefix a[..i]. */
  method Insert(a: array<Chirp>, i: nat, desc: bool)
    requires i < a.Length
    requires Sorted(a[..i], desc)
    modifies a
    ensures Sorted(a[..i + 1], desc)
    ensures multiset(a[..]) == multiset(old(a[..]))
  {
    var j := i;
    while j > 0 && !InOrder(a[j - 1], a[j], desc)
      invariant 0 <= j <= i
      invariant forall k, l :: 0 <= k < l <= i && k != j && l != j ==> InOrder(a[k], a[l], desc)
      invariant forall l :: j < l <= i ==> InOrder(a[j], a[l], desc)
      invariant multiset(a[..]) == multiset(old(a[..]))
    {
      Swap(a, j - 1, j);
      j := j - 1;
    }
  }

  method Swap(a: array<Chirp>, p: nat, q: nat)
    requires p < a.Length && q < a.Length
    modifies a
    ensures a[..] == old(a[..])[p := old(a[q])][q := old(a[p])]
    ensures multiset(a[..]) == multiset(old(a[..]))
  {
    a[p], a[q] := a[q], a[p];
  }

  class ChirpsHandler {
    const db: Store
    const jwtSecret: string
    const jwt: JwtLibrary

    constructor (db: Store, jwtSecret: string, jwt: JwtLibrary)
      ensures this.db == db && this.jwtSecret == jwtSecret && this.jwt == jwt
    {
      this.db := db;
      this.jwtSecret := jwtSecret;
      this.jwt := jwt;
    }

    /**
     * Create: a valid bearer token is required (401 otherwise); a body over
     * 140 bytes is refused with 400 before anything is stored; the stored
     * chirp holds the filtered body and the token subject as author.
     */
    method Create(bearer: Option<string>, params: Option<string>, id: Uuid, now: int, fault: bool) returns (resp: Response)
      requires db.Valid()
      modifies db`chirps
      ensures db.Valid()
      ensures bearer.None? ==> resp == Error(StatusUnauthorized, "Missing or malformed token")
      ensures bearer.Some? && ValidateJWT(jwt, bearer.value, jwtSecret, now).err.Some? ==>
        resp == Error(StatusUnauthorized, "Invalid token")
      ensures bearer.Some? && ValidateJWT(jwt, bearer.value, jwtSecret, now).err.None? && params.None? ==>
        resp == Error(StatusInternalServerError, "Something went wrong")
      ensures bearer.Some? && ValidateJWT(jwt, bearer.value, jwtSecret, now).err.None? && params.Some? ==>
        (Utf8Len(params.value) > MaxChirpLength <==> resp == Error(StatusBadRequest, "Chirp is too long"))
      ensures resp.status == StatusCreated <==>
        && bearer.Some? && ValidateJWT(jwt, bearer.value, jwtSecret, now).err.None?
        && params.Some? && Utf8Len(params.value) <= MaxChirpLength
        && !fault && ChirpIndex(old(db.chirps), id).None?
      ensures resp.status == StatusCreated ==>
        var chirp := Chirp(id, now, now, Cleaned(params.value), ValidateJWT(jwt, bearer.value, jwtSecret, now).value);
        && db.chirps == old(db.chirps) + [chirp]
        && resp.body == ChirpJson(chirp)
      ensures (bearer.Some? && ValidateJWT(jwt, bearer.value, jwtSecret, now).err.None?
          && params.Some? && Utf8Len(params.value) <= MaxChirpLength
          && (fault || ChirpIndex(old(db.chirps), id).Some?)) ==>
        resp == Error(StatusInternalServerError, "Something went wrong")
      ensures resp.status != StatusCreated ==> db.chirps == old(db.chirps)
    {
      if bearer.None? {
        return Error(StatusUnauthorized, "Missing or malformed token");
      }
      var userID := ValidateJWT(jwt, bearer.value, jwtSecret, now);
      if userID.err.Some? {
        return Error(StatusUnauthorized, "Invalid token");
      }
      if params.None? {
        return Error(StatusInternalServerError, "Something went wrong");
      }
      if Utf8Len(params.value) > MaxChirpLength {
        return Error(StatusBadRequest, "Chirp is too long");
      }
      var cleanedBody := ReplaceProfaneWords(params.value);
      var chirp := db.CreateChirp(id, cleanedBody, userID.value, now, fault);
      if chirp.Err? {
        return Error(StatusInternalServerError, "Something went wrong");
      }
      resp := Respond(StatusCreated, ChirpJson(chirp.value));
    }

    /** The rows GetAll fetches: every chirp, or those of the author named by `authorId`. */
    function Fetched(authorId: string): (r: seq<Chirp>)
      reads db
      requires authorId == "" || Parse(authorId).Some?
      ensures forall c :: c in r <==> c in db.chirps && (authorId != "" ==> c.userId == Parse(authorId).value)
    {
      if authorId == "" then db.chirps else ByAuthor(db.chirps, Parse(authorId).value)
    }

    /**
     * GetAll: 400 for an `author_id` that is not a UUID, 500 on a store
     * error, otherwise 200 with the fetched chirps sorted by creation time,
     * newest first exactly when `sort` is "desc". No chirps encode as JSON
     * null, since the response slice is never appended to.
     */
    method GetAll(authorId: string, sortOrder: string, fault: bool) returns (resp: Response)
      ensures authorId != "" && Parse(authorId).None? ==> resp == Error(StatusBadRequest, "Invalid author ID")
      ensures (authorId == "" || Parse(authorId).Some?) && fault ==>
        resp == Error(StatusInternalServerError, "Something went wrong")
      ensures resp.status == StatusOK <==> (authorId == "" || Parse(authorId).Some?) && !fault
      ensures resp.status == StatusOK ==>
        && (resp.body == JsonNull <==> Fetched(authorId) == [])
        && (resp.body != JsonNull ==>
              && resp.body.ChirpsJson?
              && Sorted(resp.body.chirps, sortOrder == "desc")
              && multiset(resp.body.chirps) == multiset(Fetched(authorId)))
    {
      var fetched: Result<seq<Chirp>, DbError>;
      if authorId != "" {
        var authorID := Parse(authorId);
        if authorID.None? {
          return Error(StatusBadRequest, "Invalid author ID");
        }
        fetched := db.GetChirpsByAuthorID(authorID.value, fault);
      } else {
        fetched := db.GetChirps(fault);
      }
      if fetched.Err? {
        return Error(StatusInternalServerError, "Something went wrong");
      }
      var chirps := fetched.value;
      var a := new Chirp[|chirps|](k requires 0 <= k < |chirps| => chirps[k]);
      assert a[..] == chirps;
      SortChirps(a, sortOrder == "desc");

      var responses: Option<seq<Chirp>> := None;
      for n := 0 to a.Length
        invariant responses == if n == 0 then None else Some(a[..n])
      {
        assert a[..n + 1] == a[..n] + [a[n]];
        responses := Some(if responses.None? then [a[n]] else responses.value + [a[n]]);
      }
      assert a.Length > 0 ==> a[..a.Length] == a[..];
      if responses.None? {
        assert multiset(chirps) == multiset{};
        resp := Respond(StatusOK, JsonNull);
      } else {
        resp := Respond(StatusOK, ChirpsJson(responses.value));
      }
    }

    /** GetByID: 400 for an id that is not a UUID, 404 when no chirp has it. */
    function GetByID(chirpId: string, fault: bool): (resp: Response)
      reads db
      ensures Parse(chirpId).None? ==> resp == Error(StatusBadRequest, "Invalid chirp ID")
      ensures Parse(chirpId).Some? && db.GetChirp(Parse(chirpId).value, fault).Err? ==>
        resp == Error(StatusNotFound, "Chirp not found")
      ensures resp.status == StatusOK ==>
        resp.body.ChirpJson? && resp.body.chirp in db.chirps && Some(resp.body.chirp.id) == Parse(chirpId)
    {
      match Parse(chirpId)
      case None => Error(StatusBadRequest, "Invalid chirp ID")
      case Some(id) =>
        match db.GetChirp(id, fault)
        case Err(_) => Error(StatusNotFound, "Chirp not found")
        case Ok(chirp) => Respond(StatusOK, ChirpJson(chirp))
    }

    /**
     * Delete: 400 for a bad id before any token check, 401 without a valid
     * token, 404 when the chirp is absent, 403 (store unchanged) when the
     * caller is not its author; otherwise exactly that chirp is removed.
     */
    method Delete(chirpId: string, bearer: Option<string>, now: int, lookupFault: bool, deleteFault: bool) returns (resp: Response)
      requires db.Valid()
      modifies db`chirps
      ensures db.Valid()
      ensures Parse(chirpId).None? ==> resp == Error(StatusBadRequest, "Invalid chirp ID")
      ensures Parse(chirpId).Some? && bearer.None? ==> resp == Error(StatusUnauthorized, "Missing or malformed token")
      ensures Parse(chirpId).Some? && bearer.Some? && ValidateJWT(jwt, bearer.value, jwtSecret, now).err.Some? ==>
        resp == Error(StatusUnauthorized, "Invalid token")
      ensures (Parse(chirpId).Some? && bearer.Some? && ValidateJWT(jwt, bearer.value, jwtSecret, now).err.None?
          && old(db.GetChirp(Parse(chirpId).value, lookupFault)).Err?) ==>
        resp == Error(StatusNotFound, "Chirp not found")
      ensures (Parse(chirpId).Some? && bearer.Some? && ValidateJWT(jwt, bearer.value, jwtSecret, now).err.None?
          && old(db.GetChirp(Parse(chirpId).value, lookupFault)).Ok?
          && old(db.GetChirp(Parse(chirpId).value, lookupFault)).value.userId != ValidateJWT(jwt, bearer.value, jwtSecret, now).value) ==>
        resp == Error(StatusForbidden, "You cannot delete another user's chirp")
      ensures resp.status == StatusForbidden ==>
        && old(db.GetChirp(Parse(chirpId).value, lookupFault)).Ok?
        && old(db.GetChirp(Parse(chirpId).value, lookupFault)).value.userId != ValidateJWT(jwt, bearer.value, jwtSecret, now).value
      ensures (Parse(chirpId).Some? && bearer.Some? && ValidateJWT(jwt, bearer.value, jwtSecret, now).err.None?
          && old(db.GetChirp(Parse(chirpId).value, lookupFault)).Ok?
          && old(db.GetChirp(Parse(chirpId).value, lookupFault)).value.userId == ValidateJWT(jwt, bearer.value, jwtSecret, now).value
          && deleteFault) ==>
        resp == Error(StatusInternalServerError, "Something went wrong")
      ensures resp.status == StatusNoContent <==>
        && Parse(chirpId).Some? && bearer.Some? && ValidateJWT(jwt, bearer.value, jwtSecret, now).err.None?
        && old(db.GetChirp(Parse(chirpId).value, lookupFault)).Ok?
        && old(db.GetChirp(Parse(chirpId).value, lookupFault)).value.userId == ValidateJWT(jwt, bearer.value, jwtSecret, now).value
        && !deleteFault
      ensures resp.status == StatusNoContent ==>
        var gone := old(db.GetChirp(Parse(chirpId).value, lookupFault)).value;
        && resp.body == NoBody
        && multiset(db.chirps) + multiset{gone} == multiset(old(db.chirps))
        && db.chirps == WithoutChirp(old(db.chirps), gone.id)
      ensures resp.status != StatusNoContent ==> db.chirps == old(db.chirps)
    {
      var id := Parse(chirpId);
      if id.None? {
        return Error(StatusBadRequest, "Invalid chirp ID");
      }
      if bearer.None? {
        return Error(StatusUnauthorized, "Missing or malformed token");
      }
      var userID := ValidateJWT(jwt, bearer.value, jwtSecret, now);
      if userID.err.Some? {
        return Error(StatusUnauthorized, "Invalid token");
      }
      var chirp := db.GetChirp(id.value, lookupFault);
      if chirp.Err? {
        return Error(StatusNotFound, "Chirp not found");
      }
      if chirp.value.userId != userID.value {
        return Error(StatusForbidden, "You cannot delete another user's chirp");
      }
      WithoutChirpRemovesOne(db.chirps, chirp.value);
      var err := db.DeleteChirp(chirp.value.id, deleteFault);
      if err.Some? {
        return Error(StatusInternalServerError, "Something went wrong");
      }
      resp := Respond(StatusNoContent, JsonNull);
    }
  }

  /** Every stored chirp is found by GetByID under the canonical form of its id. */
  lemma GetByIDFindsStored(h: ChirpsHandler, c: Chirp)
    requires h.db.Valid() && c in h.db.chirps
    ensures h.GetByID(ToString(c.id), false) == Response(StatusOK, ChirpJson(c))
  {
    ParseToString(c.id);
    var i := ChirpIndex(h.db.chirps, c.id);
    assert i.Some?;
    var k :| 0 <= k < |h.db.chirps| && h.db.chirps[k] == c;
    if i.value != k {
      assert false;
    }
  }
}
