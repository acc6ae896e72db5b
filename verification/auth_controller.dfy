/** The four authentication handlers as pure transitions over the store:
    each takes the state and the request's fields (plus the values the
    handler would obtain from outside: a generated id, a generated token
    value, the clock, the password matcher and the token signer) and returns
    the HTTP response, the new state, and the mail it sends. */
module AuthController {
  import opened Lookup
  import opened Store
  import opened Http
  import opened Session

  /** A message handed to the mail sender. */
  datatype Mail = Mail(to: string, subject: string, text: string)

  datatype Transition = Transition(response: Response, state: State, outbox: seq<Mail>)

  const RegisterFieldsRequired := "Full name, email, and password are required"
  const UserExists := "User already exists"
  const Registered := "User registered successfully"
  const LoginFieldsRequired := "Email and password are required"
  const InvalidCredentials := "Invalid email or password"
  const NoSuchEmail := "User with this email does not exist"
  const ResetTokenSent := "Password reset token sent to your email"
  const ResetSubject := "Password Reset"
  const ResetMailPrefix := "Your password reset token is "
  const InvalidResetToken := "Invalid or expired password reset token"
  const UserNotFound := "User not found"
  const PasswordReset := "Password reset successfully"

  /** The user a login with this email and password is accepted as: the first
      user with exactly that email, when the password matcher accepts it. */
  predicate Accepted(users: seq<User>, email: string, password: string, matches: (string, string) -> bool) {
    var r := FindByEmail(users, email);
    r.Some? && matches(password, users[r.value].password)
  }

  /** `registerUser`: validate the three fields, reject a known email, otherwise
      append the new user. */
  function RegisterUser(st: State, fullName: Field, email: Field, password: Field, newId: UserId): (t: Transition)
    ensures t.outbox == [] && t.state.tokens == st.tokens
    ensures !(Truthy(fullName) && Truthy(email) && Truthy(password)) ==>
      t == Transition(Response(BadRequest, ErrorBody(RegisterFieldsRequired)), st, [])
    ensures Truthy(fullName) && Truthy(email) && Truthy(password) && FindByEmail(st.users, email.value).Some? ==>
      t == Transition(Response(BadRequest, ErrorBody(UserExists)), st, [])
    ensures t.response.status == Created <==>
      Truthy(fullName) && Truthy(email) && Truthy(password) && FindByEmail(st.users, email.value).None?
    ensures t.response.status == Created ==>
      && t.response.body == MessageBody(Registered)
      && |t.state.users| == |st.users| + 1
      && t.state.users[..|st.users|] == st.users
      && t.state.users[|st.users|] == User(newId, fullName.value, email.value, password.value)
    ensures t.response.status != Created ==> t.state == st
  {
    if !(Truthy(fullName) && Truthy(email) && Truthy(password)) then
      Transition(Response(BadRequest, ErrorBody(RegisterFieldsRequired)), st, [])
    else if FindByEmail(st.users, email.value).Some? then
      Transition(Response(BadRequest, ErrorBody(UserExists)), st, [])
    else
      var user := User(newId, fullName.value, email.value, password.value);
      Transition(Response(Created, MessageBody(Registered)), st.(users := st.users + [user]), [])
  }

  /** `loginUser`: validate both fields, find the user by email, check the password
      and sign a one-hour session token. */
  function LoginUser(st: State, email: Field, password: Field, matches: (string, string) -> bool,
                     jwt: Jwt, now: int): (t: Transition)
    ensures t.state == st && t.outbox == []
    ensures !(Truthy(email) && Truthy(password)) ==>
      t.response == Response(BadRequest, ErrorBody(LoginFieldsRequired))
    ensures t.response.status == Ok <==>
      Truthy(email) && Truthy(password) && Accepted(st.users, email.value, password.value, matches)
    ensures t.response.status == Ok ==>
      var u := st.users[FindByEmail(st.users, email.value).value];
      t.response.body == TokenBody(jwt.sign(LoginClaims(u.id, email.value, now)))
    ensures Truthy(email) && Truthy(password) && t.response.status != Ok ==>
      t.response == Response(Unauthorized, ErrorBody(InvalidCredentials))
  {
    if !(Truthy(email) && Truthy(password)) then
      Transition(Response(BadRequest, ErrorBody(LoginFieldsRequired)), st, [])
    else
      match FindByEmail(st.users, email.value)
      case None => Transition(Response(Unauthorized, ErrorBody(InvalidCredentials)), st, [])
      case Some(i) =>
        var user := st.users[i];
        if !matches(password.value, user.password) then
          Transition(Response(Unauthorized, ErrorBody(InvalidCredentials)), st, [])
        else
          Transition(Response(Ok, TokenBody(jwt.sign(LoginClaims(user.id, user.email, now)))), st, [])
  }

  /** `forgotPassword`: find the user by email, store a reset token with the
      generated value `uuid`, and mail the value to the user. */
  function ForgotPassword(st: State, email: string, uuid: string): (t: Transition)
    ensures FindByEmail(st.users, email).None? ==>
      t == Transition(Response(BadRequest, ErrorBody(NoSuchEmail)), st, [])
    ensures FindByEmail(st.users, email).Some? ==>
      var u := st.users[FindByEmail(st.users, email).value];
      && t.response == Response(Ok, MessageBody(ResetTokenSent))
      && t.state.users == st.users
      && t.state.tokens == st.tokens + [ResetToken(u.id, uuid)]
      && t.outbox == [Mail(email, ResetSubject, ResetMailPrefix + uuid)]
  {
    match FindByEmail(st.users, email)
    case None => Transition(Response(BadRequest, ErrorBody(NoSuchEmail)), st, [])
    case Some(i) =>
      var user := st.users[i];
      var record := ResetToken(user.id, uuid);
      Transition(Response(Ok, MessageBody(ResetTokenSent)),
                 st.(tokens := st.tokens + [record]),
                 [Mail(user.email, ResetSubject, ResetMailPrefix + record.token)])
  }

  /** `resetPassword`: find the reset-token record, find its user, set the new
      password and delete that one record. */
  function ResetPassword(st: State, token: string, newPassword: string): (t: Transition)
    ensures t.outbox == []
    ensures FindToken(st.tokens, token).None? ==>
      t == Transition(Response(BadRequest, ErrorBody(InvalidResetToken)), st, [])
    ensures FindToken(st.tokens, token).Some? &&
            FindById(st.users, st.tokens[FindToken(st.tokens, token).value].userId).None? ==>
      t == Transition(Response(BadRequest, ErrorBody(UserNotFound)), st, [])
    ensures t.response.status == Ok <==>
      FindToken(st.tokens, token).Some? &&
      FindById(st.users, st.tokens[FindToken(st.tokens, token).value].userId).Some?
    ensures t.response.status == Ok ==>
      var j := FindToken(st.tokens, token).value;
      var i := FindById(st.users, st.tokens[j].userId).value;
      && t.response.body == MessageBody(PasswordReset)
      && |t.state.users| == |st.users|
      && t.state.users[i] == st.users[i].(password := newPassword)
      && (forall k :: 0 <= k < |st.users| && k != i ==> t.state.users[k] == st.users[k])
      && t.state.tokens == RemoveAt(st.tokens, j)
  {
    match FindToken(st.tokens, token)
    case None => Transition(Response(BadRequest, ErrorBody(InvalidResetToken)), st, [])
    case Some(j) =>
      match FindById(st.users, st.tokens[j].userId)
      case None => Transition(Response(BadRequest, ErrorBody(UserNotFound)), st, [])
      case Some(i) =>
        var user := st.users[i].(password := newPassword);
        Transition(Response(Ok, MessageBody(PasswordReset)),
                   State(st.users[i := user], RemoveAt(st.tokens, j)), [])
  }

  // ---------------------------------------------------------------------------
  // Properties of the handlers
  // ---------------------------------------------------------------------------

  /** Registering an email twice: the second call is rejected, changes nothing,
      and the store holds exactly one user with that email. */
  lemma RegisterTwiceKeepsOneUser(st: State, fullName: Field, email: Field, password: Field, id1: UserId,
                                  fullName2: Field, password2: Field, id2: UserId)
    requires Truthy(fullName) && Truthy(email) && Truthy(password)
    requires FindByEmail(st.users, email.value).None?
    ensures var t1 := RegisterUser(st, fullName, email, password, id1);
            var t2 := RegisterUser(t1.state, fullName2, email, password2, id2);
            && t1.response.status == Created
            && (Truthy(fullName2) && Truthy(password2) ==>
                  t2.response == Response(BadRequest, ErrorBody(UserExists)))
            && t2.state == t1.state
            && EmailCount(t2.state.users, email.value) == 1
  {
    var t1 := RegisterUser(st, fullName, email, password, id1);
    var users := t1.state.users;
    assert users[|st.users|].email == email.value;
    EmailCountZero(st.users, email.value);
    assert users[..|users| - 1] == st.users;
  }

  /** A missing field fails login the same way whatever the store holds: the store
      is not consulted. */
  lemma LoginFieldsCheckedFirst(st1: State, st2: State, email: Field, password: Field,
                                matches: (string, string) -> bool, jwt: Jwt, now: int)
    requires !Truthy(email) || !Truthy(password)
    ensures LoginUser(st1, email, password, matches, jwt, now).response
            == LoginUser(st2, email, password, matches, jwt, now).response
            == Response(BadRequest, ErrorBody(LoginFieldsRequired))
  {
  }

  /** An unknown email and a known email with a wrong password give the same
      response, and neither changes the state. */
  lemma LoginFailuresIndistinguishable(st1: State, st2: State, email: string, password: string,
                                       matches: (string, string) -> bool, jwt: Jwt, now: int)
    requires email != "" && password != ""
    requires FindByEmail(st1.users, email).None?
    requires FindByEmail(st2.users, email).Some?
    requires !matches(password, st2.users[FindByEmail(st2.users, email).value].password)
    ensures LoginUser(st1, Some(email), Some(password), matches, jwt, now).response
            == LoginUser(st2, Some(email), Some(password), matches, jwt, now).response
    ensures LoginUser(st1, Some(email), Some(password), matches, jwt, now).state == st1
    ensures LoginUser(st2, Some(email), Some(password), matches, jwt, now).state == st2
  {
  }

  /** The token a successful login returns verifies, for the matched user's id and
      email, exactly until one hour after the login. */
  lemma LoginTokenValidForOneHour(st: State, email: string, password: string,
                                  matches: (string, string) -> bool, jwt: Jwt, now: int, later: int)
    requires Sound(jwt)
    requires LoginUser(st, Some(email), Some(password), matches, jwt, now).response.status == Ok
    ensures var u := st.users[FindByEmail(st.users, email).value];
            var token := LoginUser(st, Some(email), Some(password), matches, jwt, now).response.body.token;
            && (later < now + OneHour ==>
                  Verify(jwt, token, later).Some? && Verify(jwt, token, later).value.userId == u.id
                  && Verify(jwt, token, later).value.email == u.email)
            && (later >= now + OneHour ==> Verify(jwt, token, later).None?)
  {
  }

  /** The forgot-password response never depends on the reset-token value: the
      value reaches only the mail, addressed to the account's email. */
  lemma ForgotResponseHidesToken(st: State, email: string, uuid1: string, uuid2: string)
    ensures ForgotPassword(st, email, uuid1).response == ForgotPassword(st, email, uuid2).response
    ensures forall m :: m in ForgotPassword(st, email, uuid1).outbox ==>
              m.to == email && m.text == ResetMailPrefix + uuid1
  {
  }

  /** A successful reset, on a store whose token values are distinct, consumes the
      token: a second reset with the same value is rejected and changes nothing. */
  lemma ResetIsSingleUse(st: State, token: string, newPassword: string, otherPassword: string)
    requires TokensUnique(st.tokens)
    requires ResetPassword(st, token, newPassword).response.status == Ok
    ensures var s1 := ResetPassword(st, token, newPassword).state;
            ResetPassword(s1, token, otherPassword)
              == Transition(Response(BadRequest, ErrorBody(InvalidResetToken)), s1, [])
  {
  }

  /** Single use rests on distinct token values: nothing in the handlers stops two
      forgot-password requests from storing the same value, and then the value
      resets the password twice. */
  lemma RepeatedTokenValueRedeemsTwice()
    ensures var st := State([User(1, "Ada", "ada@example.com", "old")], []);
            var s1 := ForgotPassword(st, "ada@example.com", "t").state;
            var s2 := ForgotPassword(s1, "ada@example.com", "t").state;
            var t3 := ResetPassword(s2, "t", "new");
            var t4 := ResetPassword(t3.state, "t", "newer");
            && t3.response.status == Ok
            && t4.response.status == Ok
            && t4.state.users[0].password == "newer"
  {
  }

  /** Redeeming a token leaves every other reset token redeemable. */
  lemma ResetKeepsOtherTokens(st: State, token: string, newPassword: string, other: string)
    requires ResetPassword(st, token, newPassword).response.status == Ok
    requires other != token && FindToken(st.tokens, other).Some?
    ensures FindToken(ResetPassword(st, token, newPassword).state.tokens, other).Some?
  {
    var j := FindToken(st.tokens, token).value;
    var k := FindToken(st.tokens, other).value;
    var s1 := ResetPassword(st, token, newPassword).state;
    if k < j {
      assert s1.tokens[k] == st.tokens[k];
    } else {
      assert s1.tokens[k - 1] == st.tokens[k];
    }
  }

  /** In a valid store every reset token's user exists, so a reset never answers
      "User not found". */
  lemma ValidResetNeverOrphaned(st: State, token: string, newPassword: string)
    requires Valid(st)
    ensures ResetPassword(st, token, newPassword).response.body != ErrorBody(UserNotFound)
  {
  }

  /** The token mailed by a forgot-password request resets that user's password. */
  lemma ForgotThenReset(st: State, email: string, uuid: string, newPassword: string)
    requires IdsUnique(st.users)
    requires FindToken(st.tokens, uuid).None?
    requires FindByEmail(st.users, email).Some?
    ensures var s1 := ForgotPassword(st, email, uuid).state;
            var t2 := ResetPassword(s1, uuid, newPassword);
            var i := FindByEmail(st.users, email).value;
            && t2.response == Response(Ok, MessageBody(PasswordReset))
            && t2.state.users[i] == st.users[i].(password := newPassword)
            && t2.state.tokens == st.tokens
  {
    var i := FindByEmail(st.users, email).value;
    var s1 := ForgotPassword(st, email, uuid).state;
    var j := |st.tokens|;
    assert s1.tokens[j].token == uuid;
    assert forall k :: 0 <= k < j ==> s1.tokens[k] == st.tokens[k];
    assert FindToken(s1.tokens, uuid) == Some(j);
    assert FindById(st.users, st.users[i].id) == Some(i);
    assert RemoveAt(s1.tokens, j) == st.tokens;
  }

  // ---------------------------------------------------------------------------
  // The store invariant is preserved
  // ---------------------------------------------------------------------------

  lemma RegisterPreservesValid(st: State, fullName: Field, email: Field, password: Field, newId: UserId)
    requires Valid(st)
    requires FindById(st.users, newId).None?
    ensures Valid(RegisterUser(st, fullName, email, password, newId).state)
  {
  }

  lemma ForgotPreservesValid(st: State, email: string, uuid: string)
    requires Valid(st)
    requires FindToken(st.tokens, uuid).None?
    ensures Valid(ForgotPassword(st, email, uuid).state)
  {
  }

  /** A successful reset keeps every user's id and email in place. */
  lemma ResetKeepsKeys(st: State, token: string, newPassword: string)
    requires ResetPassword(st, token, newPassword).response.status == Ok
    ensures var users' := ResetPassword(st, token, newPassword).state.users;
            && |users'| == |st.users|
            && forall k :: 0 <= k < |st.users| ==>
                 users'[k].id == st.users[k].id && users'[k].email == st.users[k].email
  {
  }

  lemma ResetPreservesValid(st: State, token: string, newPassword: string)
    requires Valid(st)
    ensures Valid(ResetPassword(st, token, newPassword).state)
  {
    var t := ResetPassword(st, token, newPassword);
    if t.response.status == Ok {
      var j := FindToken(st.tokens, token).value;
      ResetKeepsKeys(st, token, newPassword);
      SameKeysKeepUnique(st.users, t.state.users);
      RemoveAtKeepsUnique(st.tokens, j);
      forall k | 0 <= k < |t.state.tokens|
        ensures FindById(t.state.users, t.state.tokens[k].userId).Some?
      {
        var id := t.state.tokens[k].userId;
        assert id == st.tokens[if k < j then k else k + 1].userId;
        FindByIdSameIds(st.users, t.state.users, id);
      }
    }
  }
}
