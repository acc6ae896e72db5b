/** The whole service as one state machine: a request is dispatched to its
    handler, and runs of requests are folded over the store.  The values a
    handler obtains from outside (a generated user id, a generated reset
    token value, the clock) come with each request in an `Env`; the password
    matcher and the token signer are fixed for the process in `Deps`. */
module Service {
  import opened Lookup
  import opened Store
  import opened Http
  import opened Session
  import AuthController
  import ProtectedRoute

  datatype Request =
    | Register(fullName: Field, email: Field, password: Field)
    | Login(email: Field, password: Field)
    | Forgot(address: string)
    | Reset(token: string, newPassword: string)
    | Profile(authorization: Option<string>)

  datatype Env = Env(newId: UserId, uuid: string, now: int)

  datatype Deps = Deps(matches: (string, string) -> bool, jwt: Jwt)

  function Step(st: State, req: Request, env: Env, deps: Deps): AuthController.Transition {
    match req
    case Register(fullName, email, password) => AuthController.RegisterUser(st, fullName, email, password, env.newId)
    case Login(email, password) => AuthController.LoginUser(st, email, password, deps.matches, deps.jwt, env.now)
    case Forgot(address) => AuthController.ForgotPassword(st, address, env.uuid)
    case Reset(token, newPassword) => AuthController.ResetPassword(st, token, newPassword)
    case Profile(authorization) =>
      AuthController.Transition(ProtectedRoute.Profile(st, authorization, deps.jwt, env.now), st, [])
  }

  /** The store after serving `steps` in order, starting from `st`. */
  function Run(st: State, steps: seq<(Request, Env)>, deps: Deps): State
    decreases |steps|
  {
    if |steps| == 0 then st
    else Run(Step(st, steps[0].0, steps[0].1, deps).state, steps[1..], deps)
  }

  /** The generated values are new: the user id is not taken and the reset token
      value is not stored. */
  predicate Fresh(st: State, env: Env) {
    FindById(st.users, env.newId).None? && FindToken(st.tokens, env.uuid).None?
  }

  /** Every step of the run sees fresh generated values in the state it starts from. */
  predicate FreshRun(st: State, steps: seq<(Request, Env)>, deps: Deps)
    decreases |steps|
  {
    |steps| == 0 ||
    (Fresh(st, steps[0].1) && FreshRun(Step(st, steps[0].0, steps[0].1, deps).state, steps[1..], deps))
  }

  /** One request keeps the store invariant when its generated values are fresh. */
  lemma StepPreservesValid(st: State, req: Request, env: Env, deps: Deps)
    requires Valid(st) && Fresh(st, env)
    ensures Valid(Step(st, req, env, deps).state)
  {
    match req
    case Register(fullName, email, password) =>
      AuthController.RegisterPreservesValid(st, fullName, email, password, env.newId);
    case Login(_, _) =>
    case Forgot(address) => AuthController.ForgotPreservesValid(st, address, env.uuid);
    case Reset(token, newPassword) => AuthController.ResetPreservesValid(st, token, newPassword);
    case Profile(_) =>
  }

  /** Any run with fresh generated values keeps the store invariant. */
  lemma {:induction false} RunPreservesValid(st: State, steps: seq<(Request, Env)>, deps: Deps)
    requires Valid(st) && FreshRun(st, steps, deps)
    ensures Valid(Run(st, steps, deps))
    decreases |steps|
  {
    if |steps| > 0 {
      StepPreservesValid(st, steps[0].0, steps[0].1, deps);
      RunPreservesValid(Step(st, steps[0].0, steps[0].1, deps).state, steps[1..], deps);
    }
  }

  /** Every state reached from the empty store by requests with fresh generated
      values satisfies the store invariant. */
  lemma ReachableStatesValid(steps: seq<(Request, Env)>, deps: Deps)
    requires FreshRun(Empty, steps, deps)
    ensures Valid(Run(Empty, steps, deps))
  {
    RunPreservesValid(Empty, steps, deps);
  }

  /** Every request keeps emails distinct, whatever values are generated. */
  lemma StepKeepsEmailsUnique(st: State, req: Request, env: Env, deps: Deps)
    requires EmailsUnique(st.users)
    ensures EmailsUnique(Step(st, req, env, deps).state.users)
  {
  }

  /** No sequence of requests, from a store with distinct emails, ever produces two
      users with the same email. */
  lemma {:induction false} RunKeepsEmailsUnique(st: State, steps: seq<(Request, Env)>, deps: Deps)
    requires EmailsUnique(st.users)
    ensures EmailsUnique(Run(st, steps, deps).users)
    decreases |steps|
  {
    if |steps| > 0 {
      StepKeepsEmailsUnique(st, steps[0].0, steps[0].1, deps);
      RunKeepsEmailsUnique(Step(st, steps[0].0, steps[0].1, deps).state, steps[1..], deps);
    }
  }

  /** Registering a new email and then logging in with the same password succeeds,
      with a token signed for the new user's id and email. */
  lemma RegisterThenLogin(st: State, fullName: string, email: string, password: string,
                          newId: UserId, matches: (string, string) -> bool, jwt: Jwt, now: int)
    requires fullName != "" && email != "" && password != ""
    requires FindByEmail(st.users, email).None?
    requires matches(password, password)
    ensures var s1 := AuthController.RegisterUser(st, Some(fullName), Some(email), Some(password), newId).state;
            AuthController.LoginUser(s1, Some(email), Some(password), matches, jwt, now).response
              == Response(Ok, TokenBody(jwt.sign(LoginClaims(newId, email, now))))
  {
    var s1 := AuthController.RegisterUser(st, Some(fullName), Some(email), Some(password), newId).state;
    var n := |st.users|;
    assert forall k :: 0 <= k < n ==> s1.users[k] == st.users[k];
    assert FindByEmail(s1.users, email) == Some(n);
  }

  /** Register, then log in with the same password, then fetch the profile with the
      returned token inside the hour: the profile is the registered name and email. */
  lemma RegisterLoginProfile(st: State, fullName: string, email: string, password: string,
                             scheme: string, env: Env, later: int, deps: Deps)
    requires Fresh(st, env)
    requires fullName != "" && email != "" && password != ""
    requires FindByEmail(st.users, email).None?
    requires deps.matches(password, password)
    requires Sound(deps.jwt) && HeaderSafe(deps.jwt)
    requires ' ' !in scheme
    requires env.now <= later < env.now + OneHour
    ensures var t1 := Step(st, Register(Some(fullName), Some(email), Some(password)), env, deps);
            var t2 := Step(t1.state, Login(Some(email), Some(password)), env, deps);
            var t3 := Step(t2.state, Profile(Some(scheme + " " + t2.response.body.token)), env.(now := later), deps);
            && t1.response.status == Created
            && t2.response.status == Ok
            && t3.response == Response(Ok, ProfileBody(fullName, email))
  {
    var user := User(env.newId, fullName, email, password);
    var t1 := Step(st, Register(Some(fullName), Some(email), Some(password)), env, deps);
    assert t1 == AuthController.RegisterUser(st, Some(fullName), Some(email), Some(password), env.newId);
    var s1 := t1.state;
    assert s1.users == st.users + [user];
    var t2 := Step(s1, Login(Some(email), Some(password)), env, deps);
    assert t2 == AuthController.LoginUser(s1, Some(email), Some(password), deps.matches, deps.jwt, env.now);
    RegisterThenLogin(st, fullName, email, password, env.newId, deps.matches, deps.jwt, env.now);
    var token := deps.jwt.sign(LoginClaims(env.newId, email, env.now));
    assert t2.response.body.token == token && t2.state == s1;
    var header := Some(scheme + " " + token);
    var t3 := Step(s1, Profile(header), env.(now := later), deps);
    assert t3.response == ProtectedRoute.Profile(s1, header, deps.jwt, later);
    ProtectedRoute.ProfileWithIssuedToken(s1, scheme, deps.jwt, env.newId, email, env.now, later);
    FindByIdAppend(st.users, user, env.newId);
    assert FindById(s1.users, env.newId) == Some(|st.users|);
  }
}
