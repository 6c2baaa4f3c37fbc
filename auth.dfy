/** The request authentication gate: AuthInterceptor.preHandle, the helpers
    it uses, the per-request AuthContext it fills and the servlet response it
    writes rejections to. */
module Auth {
  import opened Common
  import opened JavaStrings
  import opened Entities

  const BearerPrefix := "Bearer "

  const MsgTokenMissing := "Token autentikasi tidak ditemukan"
  const MsgTokenInvalid := "Token autentikasi tidak valid"
  const MsgTokenFormat := "Format token autentikasi tidak valid"
  const MsgTokenExpired := "Token autentikasi sudah expired"
  const MsgUserNotFound := "User tidak ditemukan"

  /** The parts of an HTTP request the gate reads. */
  datatype Request = Request(path: string, authorization: Option<string>)

  /** A registry entry: the token currently accepted for one user. */
  datatype AuthToken = AuthToken(userId: Uuid, token: string)

  /** What the gate consults besides the request. Token signing is not part of
      the model: JwtUtil.validateToken(token, true) and JwtUtil.extractUserId
      are arbitrary functions. The token registry maps each user to the one
      token stored for them; the user table maps ids to users. */
  datatype Collaborators = Collaborators(
    validateToken: string -> bool,
    extractUserId: string -> Option<Uuid>,
    tokens: map<Uuid, string>,
    users: map<Uuid, User>)

  /** AuthTokenService.findUserToken: the entry for the user, if its token is this one. */
  function FindUserToken(tokens: map<Uuid, string>, userId: Uuid, token: string): Option<AuthToken> {
    if userId in tokens && tokens[userId] == token then Some(AuthToken(userId, token)) else None
  }

  /** UserService.getUserById. */
  function GetUserById(users: map<Uuid, User>, id: Uuid): Option<User> {
    if id in users then Some(users[id]) else None
  }

  /** extractToken: the text after "Bearer " (case-sensitive, one space), or
      null for a missing header or any other scheme. */
  function ExtractToken(header: Option<string>): (token: Option<string>)
    ensures token.Some? <==> header.Some? && StartsWith(header.value, BearerPrefix)
    ensures token.Some? ==> header.value == BearerPrefix + token.value
  {
    if header.Some? && StartsWith(header.value, BearerPrefix) then
      assert header.value == BearerPrefix + header.value[7..];
      Some(header.value[7..])
    else None
  }

  /** isPublicEndpoint: the path equals "/error" or starts with one of the
      public prefixes (a plain text prefix, not a path segment). */
  predicate IsPublicEndpoint(path: string) {
    StartsWith(path, "/api/auth") ||
    StartsWith(path, "/auth") ||
    path == "/error" ||
    StartsWith(path, "/uploads") ||
    StartsWith(path, "/css") ||
    StartsWith(path, "/js") ||
    StartsWith(path, "/images")
  }

  /** The body sendErrorResponse writes, and its two fixed parts. */
  const ErrorBodyHead := "{\"status\":\"fail\",\"message\":\""
  const ErrorBodyTail := "\",\"data\":null}"

  function ErrorBody(message: string): string {
    ErrorBodyHead + message + ErrorBodyTail
  }

  /** The message of a rejection body, read back. */
  function MessageOf(body: string): Option<string> {
    if |ErrorBodyHead| + |ErrorBodyTail| <= |body| && StartsWith(body, ErrorBodyHead) &&
       body[|body| - |ErrorBodyTail|..] == ErrorBodyTail
    then Some(body[|ErrorBodyHead|..|body| - |ErrorBodyTail|])
    else None
  }

  /** The message is recoverable from every rejection body. */
  lemma ErrorBodyRoundTrip(message: string)
    ensures MessageOf(ErrorBody(message)) == Some(message)
  {
    var b := ErrorBody(message);
    assert b[..|ErrorBodyHead|] == ErrorBodyHead;
    assert b[|b| - |ErrorBodyTail|..] == ErrorBodyTail;
    assert b[|ErrorBodyHead|..|b| - |ErrorBodyTail|] == message;
  }

  /** A collaborator call the gate makes, in order. */
  datatype Call =
    | HeaderRead
    | TokenValidated(token: string)
    | UserIdExtracted(token: string)
    | TokenLookedUp(userId: Uuid, token: string)
    | UserLookedUp(userId: Uuid)
    | ContextSet(user: User)

  /** How a request leaves the gate: admitted (with the user put in the
      context, none for a public path) or rejected with a status and message. */
  datatype Decision = Admit(user: Option<User>) | Reject(status: int, message: string)

  datatype Verdict = Verdict(decision: Decision, calls: seq<Call>)

  /** preHandle as a function of the request and the collaborators: each step
      runs only when every earlier one passed, and the first failure decides. */
  function Gate(req: Request, env: Collaborators): Verdict {
    if IsPublicEndpoint(req.path) then Verdict(Admit(None), [])
    else
      var token := ExtractToken(req.authorization);
      if token.None? || token.value == "" then
        Verdict(Reject(401, MsgTokenMissing), [HeaderRead])
      else
        var t := token.value;
        if !env.validateToken(t) then
          Verdict(Reject(401, MsgTokenInvalid), [HeaderRead, TokenValidated(t)])
        else
          var userId := env.extractUserId(t);
          if userId.None? then
            Verdict(Reject(401, MsgTokenFormat), [HeaderRead, TokenValidated(t), UserIdExtracted(t)])
          else
            var entry := FindUserToken(env.tokens, userId.value, t);
            var upToLookup := [HeaderRead, TokenValidated(t), UserIdExtracted(t), TokenLookedUp(userId.value, t)];
            if entry.None? then
              Verdict(Reject(401, MsgTokenExpired), upToLookup)
            else
              var user := GetUserById(env.users, entry.value.userId);
              if user.None? then
                Verdict(Reject(404, MsgUserNotFound), upToLookup + [UserLookedUp(entry.value.userId)])
              else
                Verdict(Admit(user), upToLookup + [UserLookedUp(entry.value.userId), ContextSet(user.value)])
  }

  /** Every check of the gate passes for this request. */
  predicate AllChecksPass(req: Request, env: Collaborators) {
    var token := ExtractToken(req.authorization);
    token.Some? && token.value != "" &&
    env.validateToken(token.value) &&
    env.extractUserId(token.value).Some? &&
    var userId := env.extractUserId(token.value).value;
    userId in env.tokens && env.tokens[userId] == token.value &&
    userId in env.users
  }

  /** Fail-closed: a request is admitted exactly when its path is public or
      every check passes; a protected request is admitted with the user the
      registry entry names, and only then is the context set. */
  lemma GateAdmitsExactly(req: Request, env: Collaborators)
    ensures Gate(req, env).decision.Admit? <==> IsPublicEndpoint(req.path) || AllChecksPass(req, env)
    ensures !IsPublicEndpoint(req.path) && AllChecksPass(req, env) ==>
      var t := ExtractToken(req.authorization).value;
      var user := env.users[env.extractUserId(t).value];
      Gate(req, env).decision == Admit(Some(user)) && ContextSet(user) in Gate(req, env).calls
    ensures (exists u :: ContextSet(u) in Gate(req, env).calls) <==>
      !IsPublicEndpoint(req.path) && AllChecksPass(req, env)
  {
    var v := Gate(req, env);
    if !IsPublicEndpoint(req.path) && AllChecksPass(req, env) {
      var t := ExtractToken(req.authorization).value;
      assert ContextSet(env.users[env.extractUserId(t).value]) == v.calls[|v.calls| - 1];
    }
  }

  /** A public path is admitted without reading the header or calling anyone. */
  lemma PublicPathSkipsChecks(req: Request, env: Collaborators)
    requires IsPublicEndpoint(req.path)
    ensures Gate(req, env) == Verdict(Admit(None), [])
  {
  }

  /** Every rejection is 401 or 404; it is 404 exactly when the token passed
      every check and the user is gone, and a 404 always says so. */
  lemma RejectionStatuses(req: Request, env: Collaborators)
    ensures Gate(req, env).decision.Reject? ==> Gate(req, env).decision.status in {401, 404}
    ensures Gate(req, env).decision.Reject? && Gate(req, env).decision.status == 404 ==>
      Gate(req, env).decision.message == MsgUserNotFound
    ensures Gate(req, env).decision.Reject? && Gate(req, env).decision.status == 404 <==>
      !IsPublicEndpoint(req.path) && !AllChecksPass(req, env) &&
      var t := ExtractToken(req.authorization);
      t.Some? && t.value != "" && env.validateToken(t.value) && env.extractUserId(t.value).Some? &&
      FindUserToken(env.tokens, env.extractUserId(t.value).value, t.value).Some?
  {
  }

  /** The first failing step decides, and no later collaborator is called. */
  lemma FirstFailureDecides(req: Request, env: Collaborators)
    requires !IsPublicEndpoint(req.path)
    ensures var t := ExtractToken(req.authorization);
      (t.None? || t.value == "") ==> Gate(req, env) == Verdict(Reject(401, MsgTokenMissing), [HeaderRead])
    ensures var t := ExtractToken(req.authorization);
      t.Some? && t.value != "" && !env.validateToken(t.value) ==>
        Gate(req, env) == Verdict(Reject(401, MsgTokenInvalid), [HeaderRead, TokenValidated(t.value)])
    ensures var t := ExtractToken(req.authorization);
      t.Some? && t.value != "" && env.validateToken(t.value) && env.extractUserId(t.value).None? ==>
        Gate(req, env).decision == Reject(401, MsgTokenFormat) &&
        forall c :: c in Gate(req, env).calls ==> !c.TokenLookedUp? && !c.UserLookedUp?
    ensures var t := ExtractToken(req.authorization);
      t.Some? && t.value != "" && env.validateToken(t.value) && env.extractUserId(t.value).Some? &&
      FindUserToken(env.tokens, env.extractUserId(t.value).value, t.value).None? ==>
        Gate(req, env).decision == Reject(401, MsgTokenExpired) &&
        forall c :: c in Gate(req, env).calls ==> !c.UserLookedUp? && !c.ContextSet?
  {
  }

  /** A missing header, another scheme, and "Bearer " with nothing after it
      are all the same rejection. */
  lemma MissingTokenExamples(path: string, env: Collaborators)
    requires !IsPublicEndpoint(path)
    ensures Gate(Request(path, None), env).decision == Reject(401, MsgTokenMissing)
    ensures Gate(Request(path, Some("Basic 12345")), env).decision == Reject(401, MsgTokenMissing)
    ensures Gate(Request(path, Some("Bearer ")), env).decision == Reject(401, MsgTokenMissing)
  {
    assert !StartsWith("Basic 12345", BearerPrefix) by {
      assert "Basic 12345"[..7] != BearerPrefix by { assert "Basic 12345"[0] == 'B' && "Basic 12345"[1] == 'a'; }
    }
    assert ExtractToken(Some("Bearer ")) == Some("") by {
      assert "Bearer "[..7] == BearerPrefix;
    }
  }

  /** extractToken inverts prefixing with "Bearer ". */
  lemma ExtractTokenRoundTrip(token: string)
    ensures ExtractToken(Some(BearerPrefix + token)) == Some(token)
  {
    assert (BearerPrefix + token)[..7] == BearerPrefix;
    assert (BearerPrefix + token)[7..] == token;
  }

  /** Prefixes are matched as text, not as path segments: whatever follows a
      public path that is not "/error" keeps it public ("/js" + "on/private"
      is public). */
  lemma PublicPrefixIsTextual(path: string, rest: string)
    requires IsPublicEndpoint(path) && path != "/error"
    ensures IsPublicEndpoint(path + rest)
  {
    var p := path + rest;
    assert forall n :: 0 <= n <= |path| ==> p[..n] == path[..n];
  }

  /** Everything under the application's own API is guarded, and "/error" is
      public only as itself: nothing below it is. */
  lemma ApplicationPathsAreGuarded(rest: string)
    ensures !IsPublicEndpoint("/api/tugas" + rest)
    ensures rest != [] ==> !IsPublicEndpoint("/error" + rest)
  {
    // "/api/tugas" leaves "/api/auth" at index 5 and every other prefix by
    // index 2; "/error" leaves every prefix at index 1
    var api, err := "/api/tugas" + rest, "/error" + rest;
    assert api[1] == 'a' && api[2] == 'p' && api[5] == 't';
    assert err[1] == 'e';
    assert rest != [] ==> |err| != |"/error"|;
  }

  /** AuthContext: the user resolved for the request being handled, if any. */
  class AuthContext {
    var authUser: Option<User>

    constructor ()
      ensures authUser.None? && !IsAuthenticated()
    {
      authUser := None;
    }

    /** isAuthenticated: a user has been set. */
    predicate IsAuthenticated()
      reads this
    {
      authUser.Some?
    }

    method SetAuthUser(user: Option<User>)
      modifies this
      ensures authUser == user
      ensures IsAuthenticated() <==> user.Some?
    {
      authUser := user;
    }
  }

  /** The servlet response: status, content type, character encoding and what
      was written to its body. */
  class HttpResponse {
    var status: int
    var contentType: Option<string>
    var characterEncoding: Option<string>
    var body: string

    constructor ()
      ensures status == 200 && contentType.None? && characterEncoding.None? && body == ""
    {
      status := 200;
      contentType, characterEncoding := None, None;
      body := "";
    }

    method SetStatus(s: int)
      modifies this
      ensures status == s
      ensures contentType == old(contentType) && characterEncoding == old(characterEncoding) && body == old(body)
    {
      status := s;
    }

    method SetContentType(t: string)
      modifies this
      ensures contentType == Some(t)
      ensures status == old(status) && characterEncoding == old(characterEncoding) && body == old(body)
    {
      contentType := Some(t);
    }

    method SetCharacterEncoding(e: string)
      modifies this
      ensures characterEncoding == Some(e)
      ensures status == old(status) && contentType == old(contentType) && body == old(body)
    {
      characterEncoding := Some(e);
    }

    /** getWriter().write(s): appends to the body. */
    method Write(s: string)
      modifies this
      ensures body == old(body) + s
      ensures status == old(status) && contentType == old(contentType) && characterEncoding == old(characterEncoding)
    {
      body := body + s;
    }
  }

  class AuthInterceptor {
    const authContext: AuthContext

    constructor (authContext: AuthContext)
      ensures this.authContext == authContext
    {
      this.authContext := authContext;
    }

    /** sendErrorResponse: status, JSON in UTF-8, and the fail body with the message. */
    method SendErrorResponse(response: HttpResponse, status: int, message: string)
      modifies response
      ensures response.status == status
      ensures response.contentType == Some("application/json")
      ensures response.characterEncoding == Some("UTF-8")
      ensures response.body == old(response.body) + ErrorBody(message)
    {
      response.SetStatus(status);
      response.SetContentType("application/json");
      response.SetCharacterEncoding("UTF-8");
      response.Write(ErrorBody(message));
    }

    /** preHandle: the result is Gate's decision; a rejection is written to the
        response and leaves the context alone; an admission writes nothing and,
        on a protected path, puts the resolved user in the context. `calls`
        lists the collaborator calls made. */
    method PreHandle(request: Request, response: HttpResponse, env: Collaborators)
      returns (proceed: bool, calls: seq<Call>)
      modifies response, authContext
      ensures var v := Gate(request, env);
        proceed == v.decision.Admit? && calls == v.calls &&
        match v.decision
        case Admit(user) =>
          response.status == old(response.status) && response.contentType == old(response.contentType) &&
          response.characterEncoding == old(response.characterEncoding) && response.body == old(response.body) &&
          authContext.authUser == (if user.Some? then user else old(authContext.authUser))
        case Reject(status, message) =>
          response.status == status && response.contentType == Some("application/json") &&
          response.characterEncoding == Some("UTF-8") && response.body == old(response.body) + ErrorBody(message) &&
          authContext.authUser == old(authContext.authUser)
    {
      if IsPublicEndpoint(request.path) {
        return true, [];
      }

      calls := [HeaderRead];
      var token := ExtractToken(request.authorization);
      if token.None? || token.value == "" {
        SendErrorResponse(response, 401, MsgTokenMissing);
        return false, calls;
      }

      calls := calls + [TokenValidated(token.value)];
      if !env.validateToken(token.value) {
        SendErrorResponse(response, 401, MsgTokenInvalid);
        return false, calls;
      }

      calls := calls + [UserIdExtracted(token.value)];
      var userId := env.extractUserId(token.value);
      if userId.None? {
        SendErrorResponse(response, 401, MsgTokenFormat);
        return false, calls;
      }

      calls := calls + [TokenLookedUp(userId.value, token.value)];
      var authToken := FindUserToken(env.tokens, userId.value, token.value);
      if authToken.None? {
        SendErrorResponse(response, 401, MsgTokenExpired);
        return false, calls;
      }

      calls := calls + [UserLookedUp(authToken.value.userId)];
      var authUser := GetUserById(env.users, authToken.value.userId);
      if authUser.None? {
        SendErrorResponse(response, 404, MsgUserNotFound);
        return false, calls;
      }

      calls := calls + [ContextSet(authUser.value)];
      authContext.SetAuthUser(authUser);
      return true, calls;
    }
  }
}
