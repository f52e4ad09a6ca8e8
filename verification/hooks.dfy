/** The API's global request hook: every request outside the public
    prefixes must carry a JWT that verifies, or it is answered with 401. */
module Hooks {
  import opened Common
  import opened Http

  /** The hooks `registerHooks` adds to the Fastify instance, by name. */
  function RegisterHooks(): (added: seq<string>)
    ensures |added| == 1 && added[0] == "onRequest"
  {
    ["onRequest"]
  }

  /** The pattern `/^\/(api\/auth|docs)/`: a slash at the very start,
      followed by `api/auth` or by `docs`. */
  predicate MatchesExcludePattern(url: string) {
    |url| >= 1 && url[0] == '/' && (StartsWith(url[1..], "api/auth") || StartsWith(url[1..], "docs"))
  }

  /** The pattern is a plain start-anchored prefix test on the two public
      prefixes, with no boundary after them. */
  lemma ExcludePatternIsPrefixTest(url: string)
    ensures MatchesExcludePattern(url) <==> StartsWith(url, "/api/auth") || StartsWith(url, "/docs")
  {
    if |url| >= 9 {
      assert url[..9] == [url[0]] + url[1..][..8];
      assert StartsWith(url, "/api/auth") <==> url[0] == '/' && StartsWith(url[1..], "api/auth");
    }
    if |url| >= 5 {
      assert url[..5] == [url[0]] + url[1..][..4];
      assert StartsWith(url, "/docs") <==> url[0] == '/' && StartsWith(url[1..], "docs");
    }
  }

  /** What one run of the `onRequest` hook does: how often it calls
      `request.jwtVerify()` and the calls it makes on the reply. */
  datatype HookRun = HookRun(verifyCalls: nat, replies: seq<ReplyCall>)

  /** The `onRequest` hook for a request to `url`; `verifySucceeds` is the
      outcome `request.jwtVerify()` would have. */
  function OnRequest(url: string, verifySucceeds: bool): (run: HookRun)
    // excluded URLs: no verification, no reply
    ensures MatchesExcludePattern(url) ==> run == HookRun(0, [])
    // every other URL is verified exactly once
    ensures !MatchesExcludePattern(url) ==> run.verifyCalls == 1
    // a reply is sent exactly when verification fails, and it is a 401
    ensures !MatchesExcludePattern(url) ==> (run.replies == [] <==> verifySucceeds)
    ensures run.replies != [] ==> run.replies == [Status(401), Send(JObj(map["error" := JStr("Unauthorized")]))]
  {
    if MatchesExcludePattern(url) then HookRun(0, [])
    else if verifySucceeds then HookRun(1, [])
    else HookRun(1, [Status(401), Send(JObj(map["error" := JStr("Unauthorized")]))])
  }

  /** No trailing boundary: `/api/authx` and `/docsfoo` skip verification,
      `/x/docs` and `/api/users` do not. */
  lemma ExclusionExamples()
    ensures MatchesExcludePattern("/api/auth/login")
    ensures MatchesExcludePattern("/api/authx")
    ensures MatchesExcludePattern("/docsfoo")
    ensures !MatchesExcludePattern("/x/docs")
    ensures !MatchesExcludePattern("/api/users")
  {
    assert "/api/auth/login"[1..][..8] == "api/auth";
    assert "/api/authx"[1..][..8] == "api/auth";
    assert "/docsfoo"[1..][..4] == "docs";
    assert "/api/users"[1..][..8] == "api/user";
    assert "/x/docs"[1..][..4] == "x/do";
  }
}
