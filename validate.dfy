/**
 * The standalone validator of the root package (validate.go): it checks a
 * chirp body and answers with its filtered form without storing anything.
 */
module Validate {
  import opened Wrappers
  import opened Text
  import opened Profanity
  import opened Http
  import opened Chirps

  /**
   * validateChirpHandler: 500 when the body does not decode, 400 for more
   * than 140 bytes, otherwise 200 with `cleaned_body` set to the filtered
   * body (140 bytes exactly is accepted).
   */
  method ValidateChirpHandler(params: Option<string>) returns (resp: Response)
    ensures params.None? ==> resp == Error(StatusInternalServerError, "Something went wrong")
    ensures params.Some? && Utf8Len(params.value) > MaxChirpLength ==> resp == Error(StatusBadRequest, "Chirp is too long")
    ensures params.Some? && Utf8Len(params.value) <= MaxChirpLength ==>
      resp == Response(StatusOK, CleanedJson(Cleaned(params.value)))
  {
    if params.None? {
      return Error(StatusInternalServerError, "Something went wrong");
    }
    if Utf8Len(params.value) > MaxChirpLength {
      return Error(StatusBadRequest, "Chirp is too long");
    }
    var cleanedBody := ReplaceProfaneWords(params.value);
    resp := Respond(StatusOK, CleanedJson(cleanedBody));
  }
}
