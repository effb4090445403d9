/**
 * The backend's AuthService: signup, login and token validation over the user
 * table. The table is a map from username to user row; the unique columns of
 * the users table (username and email) become the invariant `Unique`.
 *
 * The password encoder and the token provider are collaborators: the encoded
 * password of a signup is an input (BCrypt salts it afresh on every call),
 * and `matches`, `createToken`, `validToken` and `subject` are functions the
 * service is built with.
 */
module AuthService {
  import opened Wrappers

  datatype User = User(username: string, password: string, name: string, email: string)

  datatype SignupRequest = SignupRequest(username: string, password: string, name: string, email: string)

  datatype LoginRequest = LoginRequest(username: string, password: string)

  /** The fields of AuthResponse the service fills in; absent ones are null. */
  datatype AuthResponse = AuthResponse(
    success: bool, message: string,
    token: Option<string>, username: Option<string>, name: Option<string>)

  const DuplicateUsernameMessage: string := "이미 사용 중인 아이디입니다."
  const DuplicateEmailMessage: string := "이미 사용 중인 이메일입니다."
  const SignupSuccessMessage: string := "회원가입이 완료되었습니다. 로그인해주세요."
  const LoginFailMessage: string := "아이디 또는 비밀번호가 올바르지 않습니다."
  const LoginSuccessMessage: string := "로그인 성공"
  const TokenValidMessage: string := "토큰 유효"
  const TokenInvalidMessage: string := "토큰이 유효하지 않습니다."

  function Fail(message: string): AuthResponse
  {
    AuthResponse(false, message, None, None, None)
  }

  /** Every row is filed under its own username, and no two rows share an
      email (the unique constraints of the users table). */
  ghost predicate Unique(users: map<string, User>)
  {
    && (forall u | u in users :: users[u].username == u)
    && (forall u, v | u in users && v in users && u != v :: users[u].email != users[v].email)
  }

  predicate EmailTaken(users: map<string, User>, email: string)
  {
    exists u | u in users :: users[u].email == email
  }

  /** The effect of signup on the table and its reply. */
  function SignupOutcome(users: map<string, User>, request: SignupRequest, encoded: string): (AuthResponse, map<string, User>)
  {
    if request.username in users then (Fail(DuplicateUsernameMessage), users)
    else if EmailTaken(users, request.email) then (Fail(DuplicateEmailMessage), users)
    else
      var user := User(request.username, encoded, request.name, request.email);
      (AuthResponse(true, SignupSuccessMessage, None, None, None), users[request.username := user])
  }

  /** Signup keeps usernames and emails unique, fails with the username message
      whenever the username is taken (even if the email is taken too), fails
      with the email message for a new username with a taken email, and
      otherwise adds exactly one row built from the request and the encoded
      password. */
  lemma {:induction false} SignupKeepsUnique(users: map<string, User>, request: SignupRequest, encoded: string)
    requires Unique(users)
    ensures Unique(SignupOutcome(users, request, encoded).1)
    ensures var (reply, after) := SignupOutcome(users, request, encoded);
      && (request.username in users ==> reply == Fail(DuplicateUsernameMessage) && after == users)
      && (request.username !in users && EmailTaken(users, request.email) ==>
            reply == Fail(DuplicateEmailMessage) && after == users)
      && (reply.success <==> request.username !in users && !EmailTaken(users, request.email))
      && (reply.success ==>
            && after.Keys == users.Keys + {request.username}
            && |after| == |users| + 1
            && after[request.username] == User(request.username, encoded, request.name, request.email)
            && forall u | u in users :: after[u] == users[u])
  {
    var (reply, after) := SignupOutcome(users, request, encoded);
    if reply.success {
      var added := User(request.username, encoded, request.name, request.email);
      assert after == users[request.username := added];
      forall u, v | u in after && v in after && u != v
        ensures after[u].email != after[v].email
      {
        if u == request.username {
          assert after[v] == users[v];
        } else if v == request.username {
          assert after[u] == users[u];
        }
      }
    }
  }

  /** What login replies, given the table and the collaborators. */
  function LoginReply(users: map<string, User>, request: LoginRequest,
                      matches: (string, string) -> bool, createToken: string -> string): (reply: AuthResponse)
  {
    if request.username !in users then Fail(LoginFailMessage)
    else
      var user := users[request.username];
      if !matches(request.password, user.password) then Fail(LoginFailMessage)
      else AuthResponse(true, LoginSuccessMessage, Some(createToken(user.username)), Some(user.username), Some(user.name))
  }

  /** Login succeeds exactly for a known user whose stored password matches,
      and the token is made for the stored username; an unknown username and
      a wrong password get the same reply, so a caller cannot tell them
      apart. */
  lemma LoginSucceedsIffKnownAndMatching(users: map<string, User>, request: LoginRequest,
                                         matches: (string, string) -> bool, createToken: string -> string)
    ensures var reply := LoginReply(users, request, matches, createToken);
      && (reply.success <==> request.username in users && matches(request.password, users[request.username].password))
      && (reply.success ==>
            reply.token == Some(createToken(users[request.username].username))
            && reply.name == Some(users[request.username].name))
      && (!reply.success ==> reply == Fail(LoginFailMessage))
  {
  }

  /** What validateToken replies. */
  function ValidateReply(users: map<string, User>, token: string,
                         validToken: string -> bool, subject: string -> string): (reply: AuthResponse)
    ensures reply.success <==> validToken(token) && subject(token) in users
    ensures reply.success ==>
      reply.username == Some(users[subject(token)].username) && reply.name == Some(users[subject(token)].name)
      && reply.token == None
    ensures !reply.success ==> reply == Fail(TokenInvalidMessage)
  {
    if validToken(token) && subject(token) in users then
      var user := users[subject(token)];
      AuthResponse(true, TokenValidMessage, None, Some(user.username), Some(user.name))
    else Fail(TokenInvalidMessage)
  }

  /** The service object: the user table plus its collaborators. */
  class Service {
    var users: map<string, User>
    const matches: (string, string) -> bool
    const createToken: string -> string
    const validToken: string -> bool
    const subject: string -> string

    ghost predicate Valid()
      reads this
    {
      Unique(users)
    }

    constructor (matches: (string, string) -> bool, createToken: string -> string,
                 validToken: string -> bool, subject: string -> string)
      ensures Valid() && users == map[]
      ensures this.matches == matches && this.createToken == createToken
      ensures this.validToken == validToken && this.subject == subject
    {
      users := map[];
      this.matches := matches;
      this.createToken := createToken;
      this.validToken := validToken;
      this.subject := subject;
    }

    /** signup: the username check comes first, then the email check; only a
        request passing both is saved. */
    method Signup(request: SignupRequest, encoded: string) returns (reply: AuthResponse)
      requires Valid()
      modifies this
      ensures Valid()
      ensures (reply, users) == SignupOutcome(old(users), request, encoded)
    {
      SignupKeepsUnique(users, request, encoded);
      if request.username in users {
        return Fail(DuplicateUsernameMessage);
      }
      if EmailTaken(users, request.email) {
        return Fail(DuplicateEmailMessage);
      }
      var user := User(request.username, encoded, request.name, request.email);
      users := users[request.username := user];
      reply := AuthResponse(true, SignupSuccessMessage, None, None, None);
    }

    /** login: a read-only lookup with early returns; the table is untouched. */
    method Login(request: LoginRequest) returns (reply: AuthResponse)
      ensures reply == LoginReply(users, request, matches, createToken)
      ensures reply.success <==> request.username in users && matches(request.password, users[request.username].password)
    {
      if request.username !in users {
        return Fail(LoginFailMessage);
      }
      var user := users[request.username];
      if !matches(request.password, user.password) {
        return Fail(LoginFailMessage);
      }
      var token := createToken(user.username);
      reply := AuthResponse(true, LoginSuccessMessage, Some(token), Some(user.username), Some(user.name));
    }

    /** validateToken: succeeds iff the token is valid and its subject is a
        known user, and then carries that user's username and name. */
    method ValidateToken(token: string) returns (reply: AuthResponse)
      ensures reply == ValidateReply(users, token, validToken, subject)
      ensures reply.success <==> validToken(token) && subject(token) in users
      ensures reply.success ==>
                (reply.username == Some(users[subject(token)].username)
                 && reply.name == Some(users[subject(token)].name))
    {
      if validToken(token) {
        var username := subject(token);
        if username in users {
          var user := users[username];
          return AuthResponse(true, TokenValidMessage, None, Some(user.username), Some(user.name));
        }
      }
      reply := Fail(TokenInvalidMessage);
    }
  }
}
