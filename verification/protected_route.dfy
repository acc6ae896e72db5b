/** The protected profile route: the token-verifying middleware followed by
    the profile handler.  The middleware either ends the request with a
    response or passes the decoded user id on to the handler. */
module ProtectedRoute {
  import opened Lookup
  import opened Store
  import opened Http
  import opened Session
  import opened Header

  const NoTokenProvided := "No token provided"
  const FailedToAuthenticate := "Failed to authenticate token"
  const UserNotFound := "User not found"

  /** What the middleware does with a request: answer it, or call the next handler
      with the request's user id set. */
  datatype Gate = Halt(response: Response) | Next(userId: UserId)

  /** `verifyToken`: no usable token is 403, a token that fails verification
      (bad signature, malformed or expired) is 500, otherwise continue. */
  function VerifyToken(authorization: Option<string>, jwt: Jwt, now: int): (g: Gate)
    ensures ExtractToken(authorization).None? <==> g == Halt(Response(Forbidden, ErrorBody(NoTokenProvided)))
    ensures g.Next? <==>
      ExtractToken(authorization).Some? && Verify(jwt, ExtractToken(authorization).value, now).Some?
    ensures g.Next? ==> g.userId == Verify(jwt, ExtractToken(authorization).value, now).value.userId
    ensures g.Halt? && ExtractToken(authorization).Some? ==>
      g.response == Response(ServerError, ErrorBody(FailedToAuthenticate))
  {
    match ExtractToken(authorization)
    case None => Halt(Response(Forbidden, ErrorBody(NoTokenProvided)))
    case Some(token) =>
      match Verify(jwt, token, now)
      case None => Halt(Response(ServerError, ErrorBody(FailedToAuthenticate)))
      case Some(claims) => Next(claims.userId)
  }

  /** `getUserProfile`: 404 for an unknown id, otherwise the user's full name and
      email and nothing else. */
  function GetUserProfile(st: State, userId: UserId): (r: Response)
    ensures FindById(st.users, userId).None? <==> r == Response(NotFound, ErrorBody(UserNotFound))
    ensures FindById(st.users, userId).Some? ==>
      var u := st.users[FindById(st.users, userId).value];
      r == Response(Ok, ProfileBody(u.fullName, u.email))
  {
    match FindById(st.users, userId)
    case None => Response(NotFound, ErrorBody(UserNotFound))
    case Some(i) => Response(Ok, ProfileBody(st.users[i].fullName, st.users[i].email))
  }

  /** `GET /profile`: the middleware, then the handler if the middleware lets it through. */
  function Profile(st: State, authorization: Option<string>, jwt: Jwt, now: int): (r: Response)
    ensures ExtractToken(authorization).None? ==> r == Response(Forbidden, ErrorBody(NoTokenProvided))
    ensures ExtractToken(authorization).Some? && Verify(jwt, ExtractToken(authorization).value, now).None? ==>
      r == Response(ServerError, ErrorBody(FailedToAuthenticate))
    ensures ExtractToken(authorization).Some? && Verify(jwt, ExtractToken(authorization).value, now).Some? ==>
      r == GetUserProfile(st, Verify(jwt, ExtractToken(authorization).value, now).value.userId)
  {
    match VerifyToken(authorization, jwt, now)
    case Halt(response) => response
    case Next(userId) => GetUserProfile(st, userId)
  }

  /** The fields of a user the profile route may depend on. */
  function PublicView(users: seq<User>): seq<(UserId, string, string)> {
    seq(|users|, k requires 0 <= k < |users| => (users[k].id, users[k].fullName, users[k].email))
  }

  /** Without a usable token the handler is never reached: the answer is 403
      whatever the store holds. */
  lemma ProfileWithoutToken(st: State, authorization: Option<string>, jwt: Jwt, now: int)
    requires ExtractToken(authorization).None?
    ensures Profile(st, authorization, jwt, now) == Response(Forbidden, ErrorBody(NoTokenProvided))
  {
  }

  /** A token that fails verification is 500 and the handler is never reached. */
  lemma ProfileWithBadToken(st: State, authorization: Option<string>, jwt: Jwt, now: int)
    requires ExtractToken(authorization).Some?
    requires Verify(jwt, ExtractToken(authorization).value, now).None?
    ensures Profile(st, authorization, jwt, now) == Response(ServerError, ErrorBody(FailedToAuthenticate))
  {
  }

  /** The profile route never reveals a password: two stores that agree on every
      user's id, full name and email give the same answer to every request. */
  lemma ProfileIgnoresPasswords(st1: State, st2: State, authorization: Option<string>, jwt: Jwt, now: int)
    requires PublicView(st1.users) == PublicView(st2.users)
    ensures Profile(st1, authorization, jwt, now) == Profile(st2, authorization, jwt, now)
  {
    var v1, v2 := PublicView(st1.users), PublicView(st2.users);
    assert |st1.users| == |v1| == |v2| == |st2.users|;
    forall k | 0 <= k < |st1.users|
      ensures st1.users[k].id == st2.users[k].id
      ensures st1.users[k].fullName == st2.users[k].fullName && st1.users[k].email == st2.users[k].email
    {
      assert v1[k] == v2[k];
    }
    var g := VerifyToken(authorization, jwt, now);
    if g.Next? {
      FindByIdSameIds(st1.users, st2.users, g.userId);
    }
  }

  /** A token signed at login time, sent after any space-free scheme word, opens the
      profile of the user it names while it is unexpired. */
  lemma ProfileWithIssuedToken(st: State, scheme: string, jwt: Jwt, userId: UserId, email: string,
                               issuedAt: int, now: int)
    requires Sound(jwt) && HeaderSafe(jwt)
    requires ' ' !in scheme
    requires now < issuedAt + OneHour
    ensures var token := jwt.sign(LoginClaims(userId, email, issuedAt));
            Profile(st, Some(scheme + " " + token), jwt, now) == GetUserProfile(st, userId)
  {
    var token := jwt.sign(LoginClaims(userId, email, issuedAt));
    BearerTokenExtracted(scheme, token);
    IssuedTokenLifetime(jwt, userId, email, issuedAt, now);
  }
}
