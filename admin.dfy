/** The admin endpoints (internal/api/handlers/admin.go). */
module Admin {
  import opened Wrappers
  import opened Database
  import opened Http
  import opened Metrics

  const DevPlatform: string := "dev"

  class AdminHandler {
    const db: Store
    const platform: string
    const fileserverHits: HitCounter

    constructor (db: Store, platform: string, fileserverHits: HitCounter)
      ensures this.db == db && this.platform == platform && this.fileserverHits == fileserverHits
    {
      this.db := db;
      this.platform := platform;
      this.fileserverHits := fileserverHits;
    }

    /** GetMetrics: 200 with the page reporting the counter's current value. */
    function GetMetrics(): (resp: Response)
      reads fileserverHits
      ensures resp.status == StatusOK
      ensures resp.body.MetricsHtml? && resp.body.hits == fileserverHits.value as int
    {
      Respond(StatusOK, MetricsHtml(fileserverHits.Load() as int))
    }

    /**
     * Reset: outside the "dev" platform 403 with store and counter untouched;
     * in "dev" the store is cleared and then the counter set to 0, except
     * that a failing store reset answers 500 and leaves the counter alone.
     * `fault` is the text of the store's error, when it fails.
     */
    method Reset(fault: Option<string>) returns (resp: Response)
      requires db.Valid()
      modifies db`users, db`refreshTokens, db`chirps, fileserverHits
      ensures db.Valid()
      ensures platform != DevPlatform ==>
        && resp == Response(StatusForbidden, Text("Forbidden: this endpoint is only available in development mode"))
        && unchanged(db) && unchanged(fileserverHits)
      ensures platform == DevPlatform && fault.Some? ==>
        && resp == Response(StatusInternalServerError, Text("Error deleting users: " + fault.value))
        && unchanged(db) && unchanged(fileserverHits)
      ensures platform == DevPlatform && fault.None? ==>
        && resp == Response(StatusOK, Text("Hits reset to 0"))
        && db.users == [] && db.refreshTokens == map[] && db.chirps == []
        && fileserverHits.value == 0
    {
      if platform != DevPlatform {
        return Response(StatusForbidden, Text("Forbidden: this endpoint is only available in development mode"));
      }
      var err := db.Reset(fault.Some?);
      if err.Some? {
        return Response(StatusInternalServerError, Text("Error deleting users: " + fault.value));
      }
      fileserverHits.Store(0);
      resp := Response(StatusOK, Text("Hits reset to 0"));
    }
  }
}
