/** The global session store: a reducer over three fields (logged-in flag,
    current user, loading flag) and the three actions that drive it. */
module Session {
  import opened Base

  datatype User = User(username: string, zone: string)

  datatype SessionState = SessionState(isLoggedIn: bool, user: Option<User>, isLoading: bool)

  datatype SessionAction = SetUser(payload: User) | ClearUser | SetLoading(loading: bool)

  /** The store's invariant: the flag is set exactly when a user is held. */
  predicate Consistent(s: SessionState) {
    s.isLoggedIn <==> s.user.Some?
  }

  /** The state the store starts in. */
  function Initial(): (s: SessionState)
    ensures !s.isLoggedIn && s.user == None && !s.isLoading
    ensures Consistent(s)
  {
    SessionState(false, None, false)
  }

  /** One reducer step. */
  function Reduce(s: SessionState, a: SessionAction): (t: SessionState)
    ensures a.SetUser? ==> t.isLoggedIn && t.user == Some(a.payload) && t.isLoading == s.isLoading
    ensures a.ClearUser? ==> !t.isLoggedIn && t.user == None && t.isLoading == s.isLoading
    ensures a.SetLoading? ==> t.isLoading == a.loading && t.isLoggedIn == s.isLoggedIn && t.user == s.user
    ensures !a.SetLoading? ==> Consistent(t)
    ensures Consistent(s) ==> Consistent(t)
  {
    match a
    case SetUser(u) => s.(isLoggedIn := true, user := Some(u))
    case ClearUser => s.(isLoggedIn := false, user := None)
    case SetLoading(b) => s.(isLoading := b)
  }

  /** The state after dispatching `actions` in order. */
  function Run(s: SessionState, actions: seq<SessionAction>): SessionState
    decreases |actions|
  {
    if |actions| == 0 then s else Run(Reduce(s, actions[0]), actions[1..])
  }

  lemma {:induction false} RunAppend(s: SessionState, a: seq<SessionAction>, b: seq<SessionAction>)
    ensures Run(s, a + b) == Run(Run(s, a), b)
    decreases |a|
  {
    if |a| == 0 {
      assert a + b == b;
    } else {
      assert (a + b)[0] == a[0];
      assert (a + b)[1..] == a[1..] + b;
      RunAppend(Reduce(s, a[0]), a[1..], b);
    }
  }

  lemma RunSingle(s: SessionState, a: SessionAction)
    ensures Run(s, [a]) == Reduce(s, a)
  {
    assert [a][1..] == [];
  }

  /** Dispatching only ever moves between consistent states. */
  lemma {:induction false} RunPreservesConsistency(s: SessionState, actions: seq<SessionAction>)
    requires Consistent(s)
    ensures Consistent(Run(s, actions))
    decreases |actions|
  {
    if |actions| > 0 {
      RunPreservesConsistency(Reduce(s, actions[0]), actions[1..]);
    }
  }

  /** Every state reachable from the initial one keeps `isLoggedIn <==> user != null`. */
  lemma ReachableStatesConsistent(actions: seq<SessionAction>)
    ensures Consistent(Run(Initial(), actions))
  {
    RunPreservesConsistency(Initial(), actions);
  }

  /** Clearing twice is clearing once. */
  lemma ClearUserIdempotent(s: SessionState)
    ensures Reduce(Reduce(s, ClearUser), ClearUser) == Reduce(s, ClearUser)
  {
  }

  /** After the last `SetUser`/`ClearUser`, further `SetLoading` steps never
      change who is logged in. */
  lemma {:induction false} LoadingStepsKeepUser(s: SessionState, actions: seq<SessionAction>)
    requires forall k :: 0 <= k < |actions| ==> actions[k].SetLoading?
    ensures Run(s, actions).user == s.user && Run(s, actions).isLoggedIn == s.isLoggedIn
    decreases |actions|
  {
    if |actions| > 0 {
      LoadingStepsKeepUser(Reduce(s, actions[0]), actions[1..]);
    }
  }
}
