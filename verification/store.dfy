/** The persistent state the authentication controller works over: the user
    collection and the password-reset-token collection.  Both are kept in
    insertion order, and a lookup that several records match returns the first
    of them in that order; the database itself promises only some match, in
    an unspecified natural order.  Under `Valid` at most one record matches
    any lookup, so the choice matters only outside the invariant.  Nothing in
    the controller makes emails, ids or
    token values unique; uniqueness is a state invariant (`Valid`) that the
    transitions preserve. */
module Store {
  import opened Lookup

  /** A user's database identifier (an opaque, generated value). */
  type UserId = nat

  /** A user record; `password` is whatever the user model stores for the
      password (its hashing happens outside this model). */
  datatype User = User(id: UserId, fullName: string, email: string, password: string)

  /** A persisted reset-token record: the token value and the owning user's id. */
  datatype ResetToken = ResetToken(userId: UserId, token: string)

  datatype State = State(users: seq<User>, tokens: seq<ResetToken>)

  const Empty: State := State([], [])

  /** `User.findOne({ email })`: the first user whose email is exactly `email`. */
  function FindByEmail(users: seq<User>, email: string): (r: Option<nat>)
    ensures r.Some? ==> r.value < |users| && users[r.value].email == email
    ensures r.Some? ==> forall k :: 0 <= k < r.value ==> users[k].email != email
    ensures r.None? <==> forall k :: 0 <= k < |users| ==> users[k].email != email
  {
    FirstIndex(users, (u: User) => u.email == email)
  }

  /** `User.findById(id)`: the first user with identifier `id`. */
  function FindById(users: seq<User>, id: UserId): (r: Option<nat>)
    ensures r.Some? ==> r.value < |users| && users[r.value].id == id
    ensures r.Some? ==> forall k :: 0 <= k < r.value ==> users[k].id != id
    ensures r.None? <==> forall k :: 0 <= k < |users| ==> users[k].id != id
  {
    FirstIndex(users, (u: User) => u.id == id)
  }

  /** `Token.findOne({ token })`: the first reset-token record with that value. */
  function FindToken(tokens: seq<ResetToken>, value: string): (r: Option<nat>)
    ensures r.Some? ==> r.value < |tokens| && tokens[r.value].token == value
    ensures r.Some? ==> forall k :: 0 <= k < r.value ==> tokens[k].token != value
    ensures r.None? <==> forall k :: 0 <= k < |tokens| ==> tokens[k].token != value
  {
    FirstIndex(tokens, (t: ResetToken) => t.token == value)
  }

  predicate EmailsUnique(users: seq<User>) {
    forall i, j :: 0 <= i < j < |users| ==> users[i].email != users[j].email
  }

  predicate IdsUnique(users: seq<User>) {
    forall i, j :: 0 <= i < j < |users| ==> users[i].id != users[j].id
  }

  predicate TokensUnique(tokens: seq<ResetToken>) {
    forall i, j :: 0 <= i < j < |tokens| ==> tokens[i].token != tokens[j].token
  }

  /** Every reset token names a user that exists. */
  predicate OwnersKnown(st: State) {
    forall k :: 0 <= k < |st.tokens| ==> FindById(st.users, st.tokens[k].userId).Some?
  }

  /** The invariant every reachable state keeps (given fresh ids and token values). */
  predicate Valid(st: State) {
    && EmailsUnique(st.users)
    && IdsUnique(st.users)
    && TokensUnique(st.tokens)
    && OwnersKnown(st)
  }

  /** Number of users whose email is exactly `email`. */
  function EmailCount(users: seq<User>, email: string): nat
    decreases |users|
  {
    if |users| == 0 then 0
    else EmailCount(users[..|users| - 1], email) + (if users[|users| - 1].email == email then 1 else 0)
  }

  /** The count is zero exactly when the lookup by email finds nothing. */
  lemma {:induction false} EmailCountZero(users: seq<User>, email: string)
    ensures EmailCount(users, email) == 0 <==> FindByEmail(users, email).None?
    decreases |users|
  {
    if |users| > 0 {
      var init := users[..|users| - 1];
      EmailCountZero(init, email);
      if FindByEmail(init, email).Some? {
        var k := FindByEmail(init, email).value;
        assert users[k] == init[k];
      } else {
        assert forall k :: 0 <= k < |init| ==> users[k] == init[k];
      }
    }
  }

  /** With unique emails at most one user carries any given email. */
  lemma {:induction false} EmailCountAtMostOne(users: seq<User>, email: string)
    requires EmailsUnique(users)
    ensures EmailCount(users, email) <= 1
    decreases |users|
  {
    if |users| > 0 {
      var init := users[..|users| - 1];
      assert EmailsUnique(init) by {
        forall i, j | 0 <= i < j < |init| ensures init[i].email != init[j].email {
          assert init[i] == users[i] && init[j] == users[j];
        }
      }
      EmailCountAtMostOne(init, email);
      if users[|users| - 1].email == email {
        EmailCountZero(init, email);
      }
    }
  }

  /** Lookups by id agree on two user sequences whose ids agree position by position. */
  lemma FindByIdSameIds(users: seq<User>, users': seq<User>, id: UserId)
    requires |users| == |users'|
    requires forall k :: 0 <= k < |users| ==> users[k].id == users'[k].id
    ensures FindById(users, id) == FindById(users', id)
  {
  }

  /** Appending a user never changes the answer of an id lookup that already succeeded,
      and otherwise finds the new user exactly when it has that id. */
  lemma FindByIdAppend(users: seq<User>, u: User, id: UserId)
    ensures FindById(users, id).Some? ==> FindById(users + [u], id) == FindById(users, id)
    ensures FindById(users, id).None? ==>
      FindById(users + [u], id) == (if u.id == id then Some(|users|) else None)
  {
    assert forall k :: 0 <= k < |users| ==> (users + [u])[k] == users[k];
    assert (users + [u])[|users|] == u;
  }

  /** Users that keep their ids and emails position by position keep them distinct. */
  lemma SameKeysKeepUnique(users: seq<User>, users': seq<User>)
    requires EmailsUnique(users) && IdsUnique(users)
    requires |users| == |users'|
    requires forall k :: 0 <= k < |users| ==> users'[k].id == users[k].id && users'[k].email == users[k].email
    ensures EmailsUnique(users') && IdsUnique(users')
  {
  }

  /** Deleting a token record keeps the remaining values distinct. */
  lemma RemoveAtKeepsUnique(tokens: seq<ResetToken>, j: nat)
    requires TokensUnique(tokens) && j < |tokens|
    ensures TokensUnique(RemoveAt(tokens, j))
  {
    var r := RemoveAt(tokens, j);
    forall a, b | 0 <= a < b < |r| ensures r[a].token != r[b].token {
      assert r[a] == tokens[if a < j then a else a + 1];
      assert r[b] == tokens[if b < j then b else b + 1];
    }
  }
}
