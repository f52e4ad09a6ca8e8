/** The older back end's error handler: validation errors are always 400,
    errors whose status code is 401 pass their message through, and every
    other error is hidden behind a 500. */
module LegacyErrorHandler {
  import opened Common
  import opened Http

  const InvalidInput := "Invalid input"
  const InternalServerError := "Internal server error"

  /** `errorHandler(error, request, reply)`, as the calls it makes on the reply. */
  function HandleError(e: Thrown): (calls: seq<ReplyCall>)
    ensures SetsStatusThenSendsOnce(calls)
    // the status depends only on whether there is a validation and whether the code is 401
    ensures StatusSent(calls) == if e.ValidationError? then 400 else if e.StatusCode() == Some(401) then 401 else 500
    // the body never holds a status code; only validation errors carry details
    ensures "statusCode" !in BodySent(calls)
    ensures BodySent(calls).Keys == if e.ValidationError? then {"message", "details"} else {"message"}
    ensures e.ValidationError? ==> BodySent(calls)["details"] == DetailsJson(e.validation)
    ensures BodySent(calls)["message"] ==
      JStr(if e.ValidationError? then InvalidInput
           else if e.StatusCode() == Some(401) then e.message
           else InternalServerError)
  {
    if e.Validation().Some? then
      Reply(400, map["message" := JStr(InvalidInput), "details" := DetailsJson(e.validation)])
    else if e.StatusCode() == Some(401) then
      Reply(401, map["message" := JStr(e.Message())])
    else
      Reply(500, map["message" := JStr(InternalServerError)])
  }

  /** Any error carrying status 401, not only an `HttpError`, reaches the
      client with its own message. */
  lemma Any401PassesThrough(msg: string)
    ensures HandleError(PlainError(msg, Some(401))) == Reply(401, map["message" := JStr(msg)])
    ensures HandleError(HttpError(msg, 401)) == Reply(401, map["message" := JStr(msg)])
  {
  }

  /** HTTP errors other than 401 that carry no validation (400, 403, 404,
      ...) all become 500. */
  lemma OtherHttpErrorsBecome500(msg: string, code: int)
    requires code != 401
    ensures StatusSent(HandleError(HttpError(msg, code))) == 500
    ensures BodySent(HandleError(HttpError(msg, code))) == map["message" := JStr(InternalServerError)]
  {
  }
}
