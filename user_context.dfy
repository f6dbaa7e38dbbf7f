/**
 * The signed-in user as the application context keeps it: a reducer over
 * three action types, started from a loading, signed-out state.
 */
module UserContext {
  import opened Wrappers

  datatype UserState = UserState(user: string, isAuthenticated: bool, loading: bool)

  /** An action: its `type`, the optional `email` of a login and the
      `payload` of SET_LOADING. */
  datatype UserAction = UserAction(kind: string, email: Option<string>, payload: bool)

  const Login: string := "LOGIN"
  const Logout: string := "LOGOUT"
  const SetLoading: string := "SET_LOADING"

  /** `initialUserState` */
  function Initial(): (s: UserState)
    ensures s.user == "" && !s.isAuthenticated && s.loading
  {
    UserState("", false, true)
  }

  /** `action.email || ""` */
  function EmailOrEmpty(email: Option<string>): string {
    if email.Some? && email.value != "" then email.value else ""
  }

  /** Signed out means anonymous: no user name without authentication. */
  predicate SignedOutIsAnonymous(s: UserState) {
    !s.isAuthenticated ==> s.user == ""
  }

  /** `userReducer` */
  function Reduce(state: UserState, action: UserAction): (r: UserState)
    // LOGIN: authenticated, done loading, the user is the email (or "" without one)
    ensures action.kind == Login ==>
      r.isAuthenticated && !r.loading &&
      (action.email.Some? ==> r.user == action.email.value) &&
      (action.email.None? ==> r.user == "")
    // LOGOUT: from any state, the same signed-out, loaded state
    ensures action.kind == Logout ==> r == UserState("", false, false)
    // SET_LOADING touches only the loading flag
    ensures action.kind == SetLoading ==>
      r.user == state.user && r.isAuthenticated == state.isAuthenticated && r.loading == action.payload
    // any other type leaves the state as it is
    ensures action.kind !in {Login, Logout, SetLoading} ==> r == state
    // no action introduces a user name without authentication
    ensures SignedOutIsAnonymous(state) ==> SignedOutIsAnonymous(r)
  {
    if action.kind == Login then
      state.(user := EmailOrEmpty(action.email), isAuthenticated := true, loading := false)
    else if action.kind == Logout then
      state.(user := "", isAuthenticated := false, loading := false)
    else if action.kind == SetLoading then
      state.(loading := action.payload)
    else
      state
  }

  /** The state after dispatching `actions` in order from `s`. */
  function ReduceAll(s: UserState, actions: seq<UserAction>): UserState
    decreases |actions|
  {
    if actions == [] then s else ReduceAll(Reduce(s, actions[0]), actions[1..])
  }

  /** Every state reachable from the initial state is anonymous when signed out. */
  lemma {:induction false} ReachableSignedOutIsAnonymous(s: UserState, actions: seq<UserAction>)
    requires SignedOutIsAnonymous(s)
    ensures SignedOutIsAnonymous(ReduceAll(s, actions))
    decreases |actions|
  {
    if actions != [] {
      ReachableSignedOutIsAnonymous(Reduce(s, actions[0]), actions[1..]);
    }
  }

  lemma FromInitialSignedOutIsAnonymous(actions: seq<UserAction>)
    ensures SignedOutIsAnonymous(ReduceAll(Initial(), actions))
  {
    ReachableSignedOutIsAnonymous(Initial(), actions);
  }

  /** Logging out twice is logging out once; a login followed by a logout
      ends where a logout alone does. */
  lemma LogoutIdempotent(s: UserState, logout: UserAction, login: UserAction)
    requires logout.kind == Logout && login.kind == Login
    ensures Reduce(Reduce(s, logout), logout) == Reduce(s, logout)
    ensures Reduce(Reduce(s, login), logout) == Reduce(s, logout)
  {
  }

  /** Dispatching in sequence composes: the actions after a prefix act on
      the state the prefix reached. */
  lemma {:induction false} ReduceAllAppend(s: UserState, a: seq<UserAction>, b: seq<UserAction>)
    ensures ReduceAll(s, a + b) == ReduceAll(ReduceAll(s, a), b)
    decreases |a|
  {
    if a == [] {
      assert a + b == b;
    } else {
      assert (a + b)[1..] == a[1..] + b;
      ReduceAllAppend(Reduce(s, a[0]), a[1..], b);
    }
  }

  /** Whatever came before, the last LOGOUT decides: the user is signed
      out and anonymous afterwards, until the next LOGIN. */
  lemma LastLogoutSignsOut(s: UserState, before: seq<UserAction>, logout: UserAction, after: seq<UserAction>)
    requires logout.kind == Logout
    requires forall i :: 0 <= i < |after| ==> after[i].kind != Login
    ensures !ReduceAll(s, before + [logout] + after).isAuthenticated
    ensures ReduceAll(s, before + [logout] + after).user == ""
  {
    ReduceAllAppend(s, before + [logout], after);
    ReduceAllAppend(s, before, [logout]);
    NoLoginKeepsSignedOut(ReduceAll(s, before + [logout]), after);
  }

  lemma {:induction false} NoLoginKeepsSignedOut(s: UserState, actions: seq<UserAction>)
    requires !s.isAuthenticated && s.user == ""
    requires forall i :: 0 <= i < |actions| ==> actions[i].kind != Login
    ensures !ReduceAll(s, actions).isAuthenticated && ReduceAll(s, actions).user == ""
    decreases |actions|
  {
    if actions != [] {
      NoLoginKeepsSignedOut(Reduce(s, actions[0]), actions[1..]);
    }
  }
}
