/**
 * The Polka payment webhook (internal/api/handlers/webhook.go). GetAPIKey is
 * not part of this model: its outcome arrives as `apiKey`.
 */
module Webhooks {
  import opened Wrappers
  import opened Uuids
  import opened Database
  import opened Http

  const UpgradedEvent: string := "user.upgraded"

  /** The webhook body: `{"event": ..., "data": {"user_id": ...}}`. */
  datatype Webhook = Webhook(event: string, userId: Uuid)

  class WebhookHandler {
    const db: Store
    const polkaKey: string

    constructor (db: Store, polkaKey: string)
      ensures this.db == db && this.polkaKey == polkaKey
    {
      this.db := db;
      this.polkaKey := polkaKey;
    }

    /**
     * HandlePolkaWebhooks: both key checks come before the body is read; any
     * event other than "user.upgraded" is acknowledged with 204 and changes
     * nothing; otherwise exactly the named user becomes Chirpy Red (404 when
     * there is no such user, 500 on other store errors).
     */
    method HandlePolkaWebhooks(apiKey: Option<string>, params: Option<Webhook>, now: int, fault: bool) returns (resp: Response)
      requires db.Valid()
      modifies db`users
      ensures db.Valid()
      ensures apiKey.None? ==> resp == Error(StatusUnauthorized, "Missing or malformed token")
      ensures apiKey.Some? && apiKey.value != polkaKey ==> resp == Error(StatusUnauthorized, "Invalid API key")
      ensures apiKey == Some(polkaKey) && params.None? ==> resp == Error(StatusInternalServerError, "Something went wrong")
      ensures apiKey == Some(polkaKey) && params.Some? && params.value.event != UpgradedEvent ==>
        resp == Response(StatusNoContent, NoBody)
      ensures apiKey == Some(polkaKey) && params.Some? && params.value.event == UpgradedEvent ==>
        if fault then resp == Error(StatusInternalServerError, "Couldn't update user")
        else if UserIndex(old(db.users), params.value.userId).None? then resp == Error(StatusNotFound, "Couldn't find user")
        else
          var i := UserIndex(old(db.users), params.value.userId).value;
          && resp == Response(StatusNoContent, NoBody)
          && db.users == old(db.users)[i := old(db.users)[i].(isChirpyRed := true, updatedAt := now)]
      ensures db.users != old(db.users) ==>
        && apiKey == Some(polkaKey) && params.Some? && params.value.event == UpgradedEvent
        && resp == Response(StatusNoContent, NoBody)
    {
      if apiKey.None? {
        return Error(StatusUnauthorized, "Missing or malformed token");
      }
      if apiKey.value != polkaKey {
        return Error(StatusUnauthorized, "Invalid API key");
      }
      if params.None? {
        return Error(StatusInternalServerError, "Something went wrong");
      }
      if params.value.event != UpgradedEvent {
        return Error(StatusNoContent, "Invalid event");
      }
      var user := db.UpgradeUserToChirpyRed(params.value.userId, now, fault);
      if user.Err? {
        if user.error == NoRows {
          return Error(StatusNotFound, "Couldn't find user");
        }
        return Error(StatusInternalServerError, "Couldn't update user");
      }
      resp := Respond(StatusNoContent, JsonNull);
    }
  }
}
