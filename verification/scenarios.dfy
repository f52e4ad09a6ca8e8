/** What the client sees when the services' errors reach the error
    handlers of their own back end. */
module Scenarios {
  import opened Common
  import opened Http
  import Passwords
  import AuthService
  import LegacyAuthService
  import ErrorHandler
  import LegacyErrorHandler

  /** A failed API login, by unknown email or by wrong password, reaches the
      client as a 401 carrying the shared message. */
  lemma ApiLoginFailureIs401(
    email: Option<Json>, password: Option<Json>,
    findByEmail: Option<Json> -> Option<map<string, Json>>, verify: (string, string) -> bool, sign: Claims -> string)
    requires findByEmail(email).None? ||
             Passwords.VerifyPassword(password, Get(findByEmail(email).value, "password"), verify) == Ok(false)
    ensures var o := AuthService.LoginUser(email, password, findByEmail, verify, sign);
            && o.result.Err?
            && StatusSent(ErrorHandler.HandleError(o.result.error)) == 401
            && BodySent(ErrorHandler.HandleError(o.result.error))["message"] == JStr(AuthService.InvalidCredentials)
  {
  }

  /** A registration with an empty password is refused before anything is
      saved, and the client only sees a 500 with the generic message. */
  lemma ApiEmptyPasswordIs500(userData: map<string, Json>, hash: string -> string)
    requires Get(userData, "password") == Some(JStr(""))
    ensures var o := AuthService.RegisterUser(userData, hash);
            && o.saved == []
            && o.result == Err(PlainError(Passwords.PasswordEmpty, None))
            && StatusSent(ErrorHandler.HandleError(o.result.error)) == 500
            && BodySent(ErrorHandler.HandleError(o.result.error))["message"] == JStr(ErrorHandler.InternalServerError)
  {
  }

  /** The older back end's login failure is a plain error with no status
      code, so its error handler answers 500 rather than 401 and the
      credentials message never reaches the client. */
  lemma LegacyLoginFailureIs500()
    ensures var calls := LegacyErrorHandler.HandleError(PlainError(LegacyAuthService.InvalidCredentials, None));
            && StatusSent(calls) == 500
            && BodySent(calls) == map["message" := JStr(LegacyErrorHandler.InternalServerError)]
  {
  }

  /** An HTTP error gets the same status from both back ends only when its
      code is 401 (or 500 itself): a 403 keeps its status in the API and
      becomes a 500 in the older back end. */
  lemma HandlersAgreeOnlyOn401(msg: string, code: int)
    ensures (StatusSent(ErrorHandler.HandleError(HttpError(msg, code))) ==
             StatusSent(LegacyErrorHandler.HandleError(HttpError(msg, code))))
            <==> (code == 401 || code == 500)
  {
  }
}
