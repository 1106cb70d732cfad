/**
 * The session interceptor AuthenticeInterceptor: before a handler runs,
 * preHandle lets through what is not a handler method, CORS pre-flight
 * (OPTIONS) requests and handlers marked @Ignore; otherwise it demands a
 * token with a stored session, slides the session's expiry forward when
 * little of it is left, and records the session's login id for the rest of
 * the request. afterCompletion forgets the login id again.
 *
 * The AuthProvider is a store of sessions keyed by token, AuthenticeHolder
 * is a single optional login id, and the request is the handful of facts
 * preHandle reads from it. The clock and the configured timeout are inputs.
 */
module Interceptors {
  import opened Wrappers
  import opened AuthChecks

  /** LoginSubject: who is logged in and when the session expires, in epoch milliseconds. */
  datatype LoginSubject = LoginSubject(loginId: string, loginExpireTime: int)

  /**
   * The session store behind the AuthProvider interface: getSubject reads
   * the subject stored under a token and refreshToken writes one back.
   */
  class SessionStore {
    var sessions: map<string, LoginSubject>

    constructor(initial: map<string, LoginSubject>)
      ensures sessions == initial
    {
      sessions := initial;
    }

    /** getSubject(token): the subject stored under the token, or null. */
    method GetSubject(token: string) returns (subject: Option<LoginSubject>)
      ensures subject.Some? <==> token in sessions
      ensures subject.Some? ==> subject.value == sessions[token]
    {
      if token in sessions {
        subject := Some(sessions[token]);
      } else {
        subject := None;
      }
    }

    /**
     * refreshToken(token, subject): store the refreshed subject under a
     * token. The store may fail, as a database update that throws does;
     * success is reported only for a token that has a session, and only a
     * success changes the store.
     */
    method RefreshToken(token: string, subject: LoginSubject) returns (ok: bool)
      modifies this
      ensures ok ==> token in old(sessions)
      ensures sessions == if ok then old(sessions)[token := subject] else old(sessions)
    {
      ok :| ok ==> token in sessions;
      if ok {
        sessions := sessions[token := subject];
      }
    }
  }

  /** AuthenticeHolder: the login id of the request being handled, if any. */
  class LoginIdHolder {
    var loginId: Option<string>

    constructor()
      ensures loginId == None
    {
      loginId := None;
    }

    /** setLoginId(loginId). */
    method SetLoginId(id: string)
      modifies this
      ensures loginId == Some(id)
    {
      loginId := Some(id);
    }

    /** clearLoginId(). */
    method ClearLoginId()
      modifies this
      ensures loginId == None
    {
      loginId := None;
    }
  }

  /** What preHandle reads from the request and its handler. */
  datatype Request = Request(
    isHandlerMethod: bool,           // handler instanceof HandlerMethod
    httpMethod: string,              // request.getMethod()
    ignoreOnMethod: Option<Ignore>,  // @Ignore on the handler method
    ignoreOnClass: Option<Ignore>,   // @Ignore on its declaring class
    token: Option<string>)           // what the provider's getToken(request) returned

  /** The UnAuthorizedException preHandle throws. */
  datatype Rejection = Unauthorized

  /** StringUtils.isEmpty: null or the empty string. */
  predicate IsEmpty(token: Option<string>)
  {
    token.None? || token.value == ""
  }

  /** The HTTP status SC_OK that a pre-flight request is answered with. */
  const StatusOk: int := 200

  /** The branch of preHandle a request takes. */
  datatype Step =
    | NotAHandler
    | Preflight
    | Ignored
    | MissingToken
    | UnknownToken
    | Authenticated(token: string, subject: LoginSubject)
  {
    /** The branches that throw UnAuthorizedException. */
    predicate Rejected()
    {
      this == MissingToken || this == UnknownToken
    }
  }

  /** The guard chain of preHandle, checked in order; only the last two steps consult the store. */
  function Classify(req: Request, sessions: map<string, LoginSubject>): (step: Step)
    ensures step.Authenticated? ==>
      req.token == Some(step.token) && step.token in sessions && sessions[step.token] == step.subject
  {
    if !req.isHandlerMethod then NotAHandler
    else if req.httpMethod == "OPTIONS" then Preflight
    else if CheckIgnore(req.ignoreOnMethod, req.ignoreOnClass) then Ignored
    else if IsEmpty(req.token) then MissingToken
    else if req.token.value !in sessions then UnknownToken
    else Authenticated(req.token.value, sessions[req.token.value])
  }

  /** A session is refreshed when at most millsCritical milliseconds of it remain. */
  predicate NeedsRefresh(expireTime: int, currentTime: int, millsCritical: int)
  {
    expireTime - currentTime <= millsCritical
  }

  /** The expiry after preHandle: now plus the timeout (in seconds) when refreshed, else unchanged. */
  function SlidExpiry(expireTime: int, currentTime: int, timeout: int, millsCritical: int): (e: int)
    ensures e == expireTime || e == currentTime + timeout * 1000
  {
    if NeedsRefresh(expireTime, currentTime, millsCritical) then currentTime + timeout * 1000 else expireTime
  }

  /**
   * The threshold Math.floor(timeout * 1000 * 0.6) in exact arithmetic:
   * sixty percent of the timeout, in milliseconds.
   */
  function MillsCritical(timeout: int): (c: int)
    requires timeout >= 0
    ensures 0 <= c <= timeout * 1000
    ensures timeout > 0 ==> c < timeout * 1000
  {
    timeout * 600
  }

  class AuthenticeInterceptor {
    var authProvider: SessionStore
    const holder: LoginIdHolder

    constructor(authProvider: SessionStore, holder: LoginIdHolder)
      ensures this.authProvider == authProvider && this.holder == holder
    {
      this.authProvider := authProvider;
      this.holder := holder;
    }

    /** setAuthProvider(authProvider). */
    method SetAuthProvider(authProvider: SessionStore)
      modifies this
      ensures this.authProvider == authProvider
    {
      this.authProvider := authProvider;
    }

    /**
     * preHandle: pass a non-handler, answer a pre-flight with 200, pass an
     * ignored handler; reject an empty token or one without a session;
     * otherwise ask the store to refresh the session if it is close to
     * expiry, ignore whether that worked, record its login id and pass. `status` is what was set on the response, if anything.
     */
    method PreHandle(req: Request, currentTime: int, timeout: int, millsCritical: int)
      returns (r: Result<bool, Rejection>, status: Option<int>)
      modifies authProvider, holder
      ensures var step := Classify(req, old(authProvider.sessions));
        && r == (if step.Rejected() then Err(Unauthorized) else Ok(true))
        && status == (if step == Preflight then Some(StatusOk) else None)
        && holder.loginId == (if step.Authenticated? then Some(step.subject.loginId) else old(holder.loginId))
      ensures var step := Classify(req, old(authProvider.sessions));
        !step.Authenticated? ==> authProvider.sessions == old(authProvider.sessions)
      ensures var step := Classify(req, old(authProvider.sessions));
        step.Authenticated? ==>
          authProvider.sessions == old(authProvider.sessions)
          || authProvider.sessions == old(authProvider.sessions)[step.token := step.subject.(loginExpireTime :=
               SlidExpiry(step.subject.loginExpireTime, currentTime, timeout, millsCritical))]
    {
      if !req.isHandlerMethod {
        return Ok(true), None;
      }
      if req.httpMethod == "OPTIONS" {
        return Ok(true), Some(StatusOk);
      }
      if CheckIgnore(req.ignoreOnMethod, req.ignoreOnClass) {
        return Ok(true), None;
      }
      var token := req.token;
      if IsEmpty(token) {
        return Err(Unauthorized), None;
      }
      var found := authProvider.GetSubject(token.value);
      if found.None? {
        return Err(Unauthorized), None;
      }
      var subject := found.value;
      var expireTime := subject.loginExpireTime;
      if expireTime - currentTime <= millsCritical {
        subject := subject.(loginExpireTime := currentTime + timeout * 1000);
        var _ := authProvider.RefreshToken(token.value, subject);
      }
      holder.SetLoginId(subject.loginId);
      return Ok(true), None;
    }

    /** afterCompletion: clear the login id. */
    method AfterCompletion()
      modifies holder
      ensures holder.loginId == None
    {
      holder.ClearLoginId();
    }
  }

  // ---------------------------------------------------------------------------
  // Properties of the guard chain and of the sliding refresh
  // ---------------------------------------------------------------------------

  /** preHandle throws exactly for a checked handler whose token is empty or has no session. */
  lemma RejectedIff(req: Request, sessions: map<string, LoginSubject>)
    ensures Classify(req, sessions).Rejected() <==>
      && req.isHandlerMethod
      && req.httpMethod != "OPTIONS"
      && req.ignoreOnMethod.None? && req.ignoreOnClass.None?
      && (IsEmpty(req.token) || req.token.value !in sessions)
  {
  }

  /**
   * Non-handlers, pre-flight requests, ignored handlers and empty tokens are
   * decided without looking at the store.
   */
  lemma DecidedBeforeLookup(req: Request, sessions: map<string, LoginSubject>, other: map<string, LoginSubject>)
    requires !req.isHandlerMethod || req.httpMethod == "OPTIONS"
      || CheckIgnore(req.ignoreOnMethod, req.ignoreOnClass) || IsEmpty(req.token)
    ensures Classify(req, sessions) == Classify(req, other)
  {
  }

  /** A stored session for a non-empty token on a checked handler is always let through. */
  lemma StoredSessionPasses(req: Request, sessions: map<string, LoginSubject>)
    requires req.isHandlerMethod && req.httpMethod != "OPTIONS"
    requires !CheckIgnore(req.ignoreOnMethod, req.ignoreOnClass)
    requires !IsEmpty(req.token) && req.token.value in sessions
    ensures Classify(req, sessions) == Authenticated(req.token.value, sessions[req.token.value])
  {
  }

  /** When the threshold is within the timeout, a refresh never brings the expiry forward. */
  lemma RefreshNeverShortens(expireTime: int, currentTime: int, timeout: int, millsCritical: int)
    requires millsCritical <= timeout * 1000
    ensures SlidExpiry(expireTime, currentTime, timeout, millsCritical) >= expireTime
  {
  }

  /** After preHandle the session has more than millsCritical milliseconds left, if the threshold is below the timeout. */
  lemma SessionOutlivesThreshold(expireTime: int, currentTime: int, timeout: int, millsCritical: int)
    requires millsCritical < timeout * 1000
    ensures SlidExpiry(expireTime, currentTime, timeout, millsCritical) - currentTime > millsCritical
  {
  }

  /** A second request at the same instant does not refresh again. */
  lemma RefreshSettles(expireTime: int, currentTime: int, timeout: int, millsCritical: int)
    requires millsCritical < timeout * 1000
    ensures var e := SlidExpiry(expireTime, currentTime, timeout, millsCritical);
      SlidExpiry(e, currentTime, timeout, millsCritical) == e
  {
    SessionOutlivesThreshold(expireTime, currentTime, timeout, millsCritical);
  }

  /** A refresh happens exactly when the remaining time is at most the threshold, and then lasts a full timeout. */
  lemma RefreshIff(expireTime: int, currentTime: int, timeout: int, millsCritical: int)
    requires millsCritical < timeout * 1000
    ensures SlidExpiry(expireTime, currentTime, timeout, millsCritical) == currentTime + timeout * 1000
      <==> expireTime - currentTime <= millsCritical || expireTime == currentTime + timeout * 1000
  {
  }

  /**
   * With the configured threshold of sixty percent of a positive timeout,
   * the three lemmas above apply: the session outlives the threshold after
   * preHandle, a second request at once does not refresh again, and a
   * refresh happens exactly when at most sixty percent of the timeout is left.
   */
  lemma ConfiguredRefresh(expireTime: int, currentTime: int, timeout: int)
    requires timeout > 0
    ensures var c := MillsCritical(timeout);
      var e := SlidExpiry(expireTime, currentTime, timeout, c);
      && e - currentTime > c
      && SlidExpiry(e, currentTime, timeout, c) == e
      && (e == currentTime + timeout * 1000 <==>
          expireTime - currentTime <= c || expireTime == currentTime + timeout * 1000)
  {
    var c := MillsCritical(timeout);
    SessionOutlivesThreshold(expireTime, currentTime, timeout, c);
    RefreshSettles(expireTime, currentTime, timeout, c);
    RefreshIff(expireTime, currentTime, timeout, c);
  }
}
