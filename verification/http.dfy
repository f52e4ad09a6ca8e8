/** What travels between the services and the HTTP layer: the errors that
    are thrown, the schema-validation entries Fastify attaches to them, and
    the calls a handler makes on the reply object. */
module Http {
  import opened Common

  /** One entry of `error.validation`: the failing keyword and its message. */
  datatype ValidationEntry = ValidationEntry(keyword: string, message: string)

  /** An error reaching an error handler: an `Error` that is not an
      `HttpError`, possibly carrying a `statusCode` (as the errors Fastify
      and its plugins throw do), an `HttpError`, a validation error, or an
      error raised inside bcrypt. The class `HttpError`
      (api/src/common/errors/httpError.js) is not part of this model; it is
      taken to carry the message and status code it is built with. */
  datatype Thrown =
    | PlainError(message: string, code: Option<int>)
    | HttpError(message: string, statusCode: int)
    | ValidationError(validation: seq<ValidationEntry>, statusCode: int)
    | LibraryError
  {
    /** `error.validation` (only Fastify's validation errors have one). */
    function Validation(): Option<seq<ValidationEntry>> {
      if ValidationError? then Some(validation) else None
    }

    /** `error.statusCode` (library errors have none). */
    function StatusCode(): Option<int> {
      match this
      case PlainError(_, code) => code
      case HttpError(_, code) => Some(code)
      case ValidationError(_, code) => Some(code)
      case _ => None
    }

    /** `error.message`, for the errors whose message is part of the model. */
    function Message(): string
      requires PlainError? || HttpError?
    {
      message
    }
  }

  /** The payload a JWT is signed over: `{id, email}` of a user. */
  datatype Claims = Claims(id: Option<Json>, email: Option<Json>)

  /** A call a handler makes on the Fastify reply object. */
  datatype ReplyCall = Status(code: int) | Send(body: Json)

  /** `reply.status(code).send(body)`. */
  function Reply(code: int, body: map<string, Json>): seq<ReplyCall> {
    [Status(code), Send(JObj(body))]
  }

  /** The status code set by a handler run that set it once and sent once. */
  predicate SetsStatusThenSendsOnce(calls: seq<ReplyCall>) {
    |calls| == 2 && calls[0].Status? && calls[1].Send? && calls[1].body.JObj?
  }

  function StatusSent(calls: seq<ReplyCall>): int
    requires SetsStatusThenSendsOnce(calls)
  {
    calls[0].code
  }

  function BodySent(calls: seq<ReplyCall>): map<string, Json>
    requires SetsStatusThenSendsOnce(calls)
  {
    calls[1].body.fields
  }

  /** `validation.filter((x) => x.keyword !== "if").map((x) => x.message)`. */
  function Details(v: seq<ValidationEntry>): (d: seq<string>)
    ensures |d| <= |v|
    ensures forall m :: m in d ==> exists i :: 0 <= i < |v| && v[i].keyword != "if" && v[i].message == m
    ensures forall i :: 0 <= i < |v| && v[i].keyword != "if" ==> v[i].message in d
  {
    if v == [] then []
    else
      var rest := Details(v[1..]);
      assert forall i :: 1 <= i < |v| ==> v[1..][i - 1] == v[i];
      (if v[0].keyword == "if" then [] else [v[0].message]) + rest
  }

  /** Filtering keeps the order: the details of two lists put one after the
      other are the details of each, in the same order. */
  lemma {:induction false} DetailsAppend(v: seq<ValidationEntry>, w: seq<ValidationEntry>)
    ensures Details(v + w) == Details(v) + Details(w)
  {
    if v == [] {
      assert v + w == w;
    } else {
      assert (v + w)[1..] == v[1..] + w;
      DetailsAppend(v[1..], w);
    }
  }

  /** The details as a JSON array of strings. */
  function DetailsJson(v: seq<ValidationEntry>): Json {
    var d := Details(v);
    JArr(seq(|d|, i requires 0 <= i < |d| => JStr(d[i])))
  }
}
