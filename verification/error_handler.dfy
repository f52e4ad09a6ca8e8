/** The API's Fastify error handler: a thrown error becomes one status and
    one JSON body. */
module ErrorHandler {
  import opened Common
  import opened Http

  const InvalidInput := "Invalid input"
  const InternalServerError := "Internal server error"

  /** `errorHandler(error, request, reply)`, as the calls it makes on the reply. */
  function HandleError(e: Thrown): (calls: seq<ReplyCall>)
    ensures SetsStatusThenSendsOnce(calls)
    // the status: the error's own code for validation and HTTP errors, 500 otherwise
    ensures StatusSent(calls) == if e.ValidationError? || e.HttpError? then e.StatusCode().value else 500
    // the body always echoes the status; only validation errors carry details
    ensures "statusCode" in BodySent(calls) && BodySent(calls)["statusCode"] == JNum(StatusSent(calls))
    ensures "details" in BodySent(calls) <==> e.Validation().Some?
    ensures BodySent(calls).Keys <= {"message", "statusCode", "details"}
    ensures e.ValidationError? ==> BodySent(calls)["details"] == DetailsJson(e.validation)
    // the message: a fixed text, except that an HttpError's own message is sent
    ensures "message" in BodySent(calls)
    ensures BodySent(calls)["message"] ==
      JStr(if e.ValidationError? then InvalidInput else if e.HttpError? then e.message else InternalServerError)
  {
    if e.Validation().Some? then
      Reply(e.statusCode, map[
        "message" := JStr(InvalidInput),
        "statusCode" := JNum(e.statusCode),
        "details" := DetailsJson(e.validation)])
    else if e.HttpError? then
      Reply(e.statusCode, map["message" := JStr(e.Message()), "statusCode" := JNum(e.statusCode)])
    else
      Reply(500, map["message" := JStr(InternalServerError), "statusCode" := JNum(500)])
  }

  /** A plain error's own message never reaches the client, whatever
      status code it carries: only an `HttpError` keeps its status. */
  lemma PlainErrorMessageHidden(msg: string, code: Option<int>)
    requires msg != InternalServerError
    ensures StatusSent(HandleError(PlainError(msg, code))) == 500
    ensures JStr(msg) !in BodySent(HandleError(PlainError(msg, code))).Values
  {
    var b := BodySent(HandleError(PlainError(msg, code)));
    assert b == map["message" := JStr(InternalServerError), "statusCode" := JNum(500)];
    assert b.Values == {JStr(InternalServerError), JNum(500)};
  }

  /** The validation error of the handler's own test: the `if` entry is
      dropped and the status is the error's 400. */
  lemma ValidationExample()
    ensures var calls := HandleError(ValidationError(
              [ValidationEntry("if", "Error from if"), ValidationEntry("required", "Field is required")], 400));
            && StatusSent(calls) == 400
            && BodySent(calls) == map[
                 "message" := JStr("Invalid input"),
                 "statusCode" := JNum(400),
                 "details" := JArr([JStr("Field is required")])]
  {
    var v := [ValidationEntry("if", "Error from if"), ValidationEntry("required", "Field is required")];
    assert v[1..][1..] == [];
    assert Details(v) == ["Field is required"];
    assert DetailsJson(v) == JArr([JStr("Field is required")]);
  }
}
