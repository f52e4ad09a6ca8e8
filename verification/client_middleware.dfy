/** The web client's Next.js middleware: public pages pass, other pages
    pass only when a token is found, and otherwise the browser is sent to
    the login page. */
module ClientMiddleware {
  import opened Common

  /** `NextResponse.next()` or `NextResponse.redirect(new URL(location, req.url))`. */
  datatype Response = Next | Redirect(location: string)

  const PublicPaths: seq<string> := ["/login", "/register"]
  const LoginPath := "/login"

  /** `config.matcher`: the paths the middleware runs on. */
  const Matcher: seq<string> := ["/"]

  /** `req.headers.authorization?.split(" ")[1]`: the second space-separated
      field of the header, when there is one. */
  function HeaderToken(authorization: Option<string>): (t: Option<string>)
    ensures authorization.None? ==> t.None?
    ensures authorization.Some? && ' ' !in authorization.value ==> t.None?
    ensures t.Some? ==> ' ' !in t.value
  {
    match authorization
    case None => None
    case Some(h) =>
      var fields := Split(h, ' ');
      if |fields| >= 2 then Some(fields[1]) else None
  }

  /** The header field after the first space, up to the next one. */
  lemma HeaderTokenIsSecondField(scheme: string, value: string, rest: Option<string>)
    requires ' ' !in scheme && ' ' !in value
    ensures var tail := if rest.Some? then value + [' '] + rest.value else value;
            HeaderToken(Some(scheme + [' '] + tail)) == Some(value)
  {
    var tail := if rest.Some? then value + [' '] + rest.value else value;
    SplitAtFirst(scheme, tail, ' ');
    if rest.Some? {
      SplitAtFirst(value, rest.value, ' ');
    }
    assert Split(tail, ' ')[0] == value;
  }

  /** The token the middleware finds: the `token` cookie when it is set
      (a cookie object is truthy whatever its value), else the header field. */
  function FoundToken(tokenCookie: Option<string>, authorization: Option<string>): bool {
    tokenCookie.Some? || TruthyString(HeaderToken(authorization))
  }

  /** `middleware(req)` for a request whose path is `pathname`. */
  function Middleware(pathname: string, tokenCookie: Option<string>, authorization: Option<string>): (r: Response)
    // public pages pass without any token check
    ensures pathname in PublicPaths ==> r == Next
    // other pages pass exactly when a token is found
    ensures pathname !in PublicPaths ==> (r == Next <==> FoundToken(tokenCookie, authorization))
    // the only redirect is to the login page
    ensures r.Redirect? ==> r.location == LoginPath
  {
    if pathname in PublicPaths then Next
    else if !FoundToken(tokenCookie, authorization) then Redirect(LoginPath)
    else Next
  }

  /** `Authorization: Bearer abc` with no cookie gives the token `abc`, so the
      request passes; a header with no space gives no token and a redirect. */
  lemma MiddlewareExamples(path: string, header: string)
    requires path !in PublicPaths
    requires ' ' !in header
    ensures Middleware(path, None, Some("Bearer abc")) == Next
    ensures Middleware(path, None, Some(header)) == Redirect(LoginPath)
    ensures Middleware(path, None, None) == Redirect(LoginPath)
  {
    HeaderTokenIsSecondField("Bearer", "abc", None);
    assert "Bearer abc" == "Bearer" + [' '] + "abc";
  }

  /** The matcher confines the middleware to `/`, which is not a public
      page: on the paths it runs on, the public-page branch is never taken. */
  lemma MatcherExcludesPublicPaths(pathname: string)
    requires pathname in Matcher
    ensures pathname !in PublicPaths
    ensures Middleware(pathname, None, None) == Redirect(LoginPath)
  {
  }
}
