/**
 * The Streamlit front end's session handling (auth_utils.py): the keys it
 * keeps in st.session_state, the getters over them, and how login, logout,
 * token validation and page switching change them.
 *
 * HTTP calls are not made here: each call's outcome (a parsed JSON reply, or
 * the exception requests raised) is an input.
 */
module AuthSession {
  import opened Wrappers

  /** A key of st.session_state: missing, or present with a value. */
  datatype Slot<T> = Missing | Present(val: T)

  /** The user_info dictionary {"username": ..., "name": ...}; either entry may
      be None when the reply lacked it. */
  datatype UserInfo = UserInfo(username: Option<string>, name: Option<string>)

  /** The four session keys the module manages. */
  datatype SessionState = SessionState(
    jwtToken: Slot<Option<string>>,
    userInfo: Slot<Option<UserInfo>>,
    loggedIn: Slot<bool>,
    currentPage: Slot<string>)

  /** A JSON reply of the backend, reduced to the keys this module reads. */
  datatype Reply = Reply(success: bool, message: string, token: Option<string>,
                         username: Option<string>, name: Option<string>)

  /** The exception classes the module tells apart. */
  datatype Failure = ConnectionFailure | TimedOut | OtherFailure

  /** How an HTTP call ended: a parsed reply, or an exception with its text. */
  datatype Exchange = Answered(reply: Reply) | Raised(failure: Failure, detail: string)

  const ConnectionErrorMessage: string := "서버에 연결할 수 없습니다. 백엔드 서버가 실행 중인지 확인하세요."
  const TimeoutMessage: string := "서버 응답 시간이 초과되었습니다."
  const NoTokenMessage: string := "토큰이 없습니다."
  const LoginPage: string := "login"
  const SignupPage: string := "signup"

  function FailureReply(message: string): Reply
  {
    Reply(false, message, None, None, None)
  }

  /** The reply a failed call is turned into; `what` names the operation in
      the catch-all message ("로그인", "회원가입"). */
  function ErrorReply(e: Exchange, what: string): Reply
    requires !e.Answered?
  {
    match e.failure
    case ConnectionFailure => FailureReply(ConnectionErrorMessage)
    case TimedOut => FailureReply(TimeoutMessage)
    case OtherFailure => FailureReply(what + " 중 오류가 발생했습니다: " + e.detail)
  }

  function Fill<T>(slot: Slot<T>, default: T): Slot<T>
  {
    if slot.Missing? then Present(default) else slot
  }

  /** init_session: fills in each missing key and leaves present ones alone. */
  function Init(s: SessionState): SessionState
  {
    SessionState(Fill(s.jwtToken, None), Fill(s.userInfo, None), Fill(s.loggedIn, false), Fill(s.currentPage, LoginPage))
  }

  /** is_logged_in: the flag is set and a token is stored. */
  predicate IsLoggedIn(s: SessionState)
  {
    s.loggedIn == Present(true) && s.jwtToken.Present? && s.jwtToken.val.Some?
  }

  /** get_user_name / get_username: None unless user_info holds a dictionary. */
  function UserName(s: SessionState): Option<string>
  {
    if s.userInfo.Present? && s.userInfo.val.Some? then s.userInfo.val.value.name else None
  }

  /** get_username: the stored user's username, None unless user_info holds
      a dictionary. */
  function Username(s: SessionState): Option<string>
  {
    if s.userInfo.Present? && s.userInfo.val.Some? then s.userInfo.val.value.username else None
  }

  /** get_current_page, defaulting to the login page. */
  function CurrentPage(s: SessionState): string
  {
    if s.currentPage.Present? then s.currentPage.val else LoginPage
  }

  /** login: the session changes only on a successful reply. */
  function LoginEffect(s: SessionState, e: Exchange): (SessionState, Reply)
  {
    match e
    case Answered(r) =>
      if r.success then
        (s.(jwtToken := Present(r.token), userInfo := Present(Some(UserInfo(r.username, r.name))),
            loggedIn := Present(true)), r)
      else (s, r)
    case _ => (s, ErrorReply(e, "로그인"))
  }

  /** logout */
  function LogoutEffect(s: SessionState): SessionState
  {
    SessionState(Present(None), Present(None), Present(false), Present(LoginPage))
  }

  /** The stored token, if any: session_state.get('jwt_token'). */
  function StoredToken(s: SessionState): Option<string>
  {
    if s.jwtToken.Present? then s.jwtToken.val else None
  }

  /** validate_token. `server` gives the outcome of the request carrying a
      given Authorization header; the returned Option is the header actually
      sent, None when no request was made. Every exception is caught alike. */
  function ValidateEffect(s: SessionState, server: string -> Exchange): (SessionState, Reply, Option<string>)
  {
    var token := StoredToken(s);
    if token.None? || token.value == "" then (s, FailureReply(NoTokenMessage), None)
    else
      var header := "Bearer " + token.value;
      match server(header)
      case Answered(r) => (if r.success then s else LogoutEffect(s), r, Some(header))
      case Raised(_, detail) => (s, FailureReply("토큰 검증 중 오류: " + detail), Some(header))
  }

  /** signup (the HTTP wrapper): the reply or an error reply; it takes no
      session, so it cannot change one. */
  function SignupCall(e: Exchange): (r: Reply)
    ensures e.Answered? ==> r == e.reply
    ensures !e.Answered? ==> !r.success
  {
    match e
    case Answered(r) => r
    case _ => ErrorReply(e, "회원가입")
  }

  /** init_session is idempotent, and it never overwrites a present key, so an
      existing login survives it. */
  lemma InitIdempotentAndPreserving(s: SessionState)
    ensures Init(Init(s)) == Init(s)
    ensures s.jwtToken.Present? ==> Init(s).jwtToken == s.jwtToken
    ensures s.userInfo.Present? ==> Init(s).userInfo == s.userInfo
    ensures s.loggedIn.Present? ==> Init(s).loggedIn == s.loggedIn
    ensures s.currentPage.Present? ==> Init(s).currentPage == s.currentPage
    ensures IsLoggedIn(s) ==> IsLoggedIn(Init(s)) && UserName(Init(s)) == UserName(s)
    ensures Init(s).jwtToken.Present? && Init(s).userInfo.Present? && Init(s).loggedIn.Present? && Init(s).currentPage.Present?
  {
  }

  /** A fresh session is logged out, has no user and shows the login page. */
  lemma FreshSessionLoggedOut()
    ensures var s := Init(SessionState(Missing, Missing, Missing, Missing));
      !IsLoggedIn(s) && UserName(s) == None && Username(s) == None && StoredToken(s) == None
      && CurrentPage(s) == LoginPage
  {
  }

  /** After login the user is logged in exactly when the reply was a success
      carrying a token: a success with a null token leaves is_logged_in false.
      The page is never touched, and any failure leaves the session as it
      was. */
  lemma LoginOutcome(s: SessionState, e: Exchange)
    ensures var (after, reply) := LoginEffect(s, e);
      && (e.Answered? && e.reply.success ==>
            IsLoggedIn(after) == e.reply.token.Some? && UserName(after) == e.reply.name
            && Username(after) == e.reply.username && StoredToken(after) == e.reply.token
            && after.loggedIn == Present(true))
      && (!(e.Answered? && e.reply.success) ==> after == s && !reply.success)
      && after.currentPage == s.currentPage
  {
  }

  /** After logout nobody is logged in, no user is known and the login page
      shows, whatever the session held before. */
  lemma LogoutLogsOut(s: SessionState)
    ensures !IsLoggedIn(LogoutEffect(s))
    ensures UserName(LogoutEffect(s)) == None && Username(LogoutEffect(s)) == None
    ensures StoredToken(LogoutEffect(s)) == None
    ensures CurrentPage(LogoutEffect(s)) == LoginPage
  {
  }

  /** validate_token: without a token (missing, None or empty) it fails without
      a request; otherwise it sends "Bearer <token>"; an unsuccessful reply
      logs out, a successful one or a failed call leaves the session as it
      was. */
  lemma ValidateOutcome(s: SessionState, server: string -> Exchange)
    ensures var (after, reply, sent) := ValidateEffect(s, server);
      && (StoredToken(s) == None || StoredToken(s) == Some("") ==>
            sent == None && after == s && !reply.success && reply.message == NoTokenMessage)
      && (StoredToken(s).Some? && StoredToken(s).value != "" ==>
            sent == Some("Bearer " + StoredToken(s).value)
            && (server(sent.value).Answered? && !server(sent.value).reply.success ==>
                  after == LogoutEffect(s) && !IsLoggedIn(after))
            && (server(sent.value).Answered? && server(sent.value).reply.success ==> after == s)
            && (!server(sent.value).Answered? ==> after == s && !reply.success))
  {
  }

  /** The session object: one field per st.session_state key. */
  class Session {
    var jwtToken: Slot<Option<string>>
    var userInfo: Slot<Option<UserInfo>>
    var loggedIn: Slot<bool>
    var currentPage: Slot<string>

    function State(): SessionState
      reads this
    {
      SessionState(jwtToken, userInfo, loggedIn, currentPage)
    }

    /** A new browser session: no keys at all. */
    constructor ()
      ensures State() == SessionState(Missing, Missing, Missing, Missing)
    {
      jwtToken, userInfo, loggedIn, currentPage := Missing, Missing, Missing, Missing;
    }

    method InitSession()
      modifies this
      ensures State() == Init(old(State()))
    {
      if jwtToken.Missing? {
        jwtToken := Present(None);
      }
      if userInfo.Missing? {
        userInfo := Present(None);
      }
      if loggedIn.Missing? {
        loggedIn := Present(false);
      }
      if currentPage.Missing? {
        currentPage := Present(LoginPage);
      }
    }

    method Login(e: Exchange) returns (reply: Reply)
      modifies this
      ensures (State(), reply) == LoginEffect(old(State()), e)
    {
      match e
      case Answered(r) =>
        if r.success {
          jwtToken := Present(r.token);
          userInfo := Present(Some(UserInfo(r.username, r.name)));
          loggedIn := Present(true);
        }
        reply := r;
      case _ =>
        reply := ErrorReply(e, "로그인");
    }

    method Logout()
      modifies this
      ensures State() == LogoutEffect(old(State()))
    {
      jwtToken := Present(None);
      userInfo := Present(None);
      loggedIn := Present(false);
      currentPage := Present(LoginPage);
    }

    method ValidateToken(server: string -> Exchange) returns (reply: Reply, sent: Option<string>)
      modifies this
      ensures (State(), reply, sent) == ValidateEffect(old(State()), server)
    {
      var token := StoredToken(State());
      if token.None? || token.value == "" {
        return FailureReply(NoTokenMessage), None;
      }
      var header := "Bearer " + token.value;
      sent := Some(header);
      match server(header)
      case Answered(r) =>
        if !r.success {
          Logout();
        }
        reply := r;
      case Raised(_, detail) =>
        reply := FailureReply("토큰 검증 중 오류: " + detail);
    }

    method GoToSignup()
      modifies this
      ensures State() == old(State()).(currentPage := Present(SignupPage))
    {
      currentPage := Present(SignupPage);
    }

    method GoToLogin()
      modifies this
      ensures State() == old(State()).(currentPage := Present(LoginPage))
    {
      currentPage := Present(LoginPage);
    }
  }
}
