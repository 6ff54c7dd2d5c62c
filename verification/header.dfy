/** The header's session handling: the one-shot `/me` probe run from a mount
    effect, and logout. Both drive the session store only through dispatched
    actions, which the trace records. */
module Header {
  import opened Base
  import opened Session
  import opened Effects

  /** The `/me` body fields the probe reads; a missing body is `None`. */
  datatype MeData = MeData(username: Option<string>, zone: string)

  /** The store plus the header's own `hasAttemptedLogin` flag. */
  datatype HeaderState = HeaderState(session: SessionState, hasAttemptedLogin: bool)

  /** The probe response names a user (`res.data && res.data.username`). */
  predicate NamesUser(outcome: ApiOutcome<Option<MeData>>) {
    outcome.Ok? && outcome.data.Some? && Truthy(outcome.data.value.username)
  }

  /** The store action a probe outcome decides on: `setUser` for a
      response naming a user, `clearUser` for every other response or error. */
  function Decision(outcome: ApiOutcome<Option<MeData>>): (a: SessionAction)
    ensures a.SetUser? <==> NamesUser(outcome)
    ensures a.SetUser? ==> a.payload == User(outcome.data.value.username.value, outcome.data.value.zone)
  {
    if NamesUser(outcome) then SetUser(User(outcome.data.value.username.value, outcome.data.value.zone))
    else ClearUser
  }

  /** The requests, dispatches and navigation of one `checkLoginStatus`:
      `setLoading(true)`, `GET /me`, the decided action, a redirect to the
      login page on a 401 error only, and finally `setLoading(false)`. */
  function ProbeTrace(outcome: ApiOutcome<Option<MeData>>): (t: seq<Effect>)
    ensures |t| >= 4 && t[0] == Dispatch(SetLoading(true)) && t[1] == ApiGetMe
    ensures t[|t| - 1] == Dispatch(SetLoading(false))
  {
    var redirect := match outcome
      case HttpErr(status) => if status == 401 then [NavigateToLogin] else []
      case _ => [];
    [Dispatch(SetLoading(true)), ApiGetMe, Dispatch(Decision(outcome))] + redirect + [Dispatch(SetLoading(false))]
  }

  /** A probe dispatches exactly `setLoading(true)`, its decision and
      `setLoading(false)`, in that order. */
  lemma ProbeDispatches(outcome: ApiOutcome<Option<MeData>>)
    ensures Dispatched(ProbeTrace(outcome)) == [SetLoading(true), Decision(outcome), SetLoading(false)]
  {
    var t := ProbeTrace(outcome);
    var head := [Dispatch(SetLoading(true)), ApiGetMe, Dispatch(Decision(outcome))];
    var redirect := t[3..|t| - 1];
    assert t == head + redirect + [Dispatch(SetLoading(false))];
    DispatchedAppend(head + redirect, [Dispatch(SetLoading(false))]);
    DispatchedAppend(head, redirect);
    assert head == [Dispatch(SetLoading(true))] + [ApiGetMe] + [Dispatch(Decision(outcome))];
    DispatchedAppend([Dispatch(SetLoading(true))] + [ApiGetMe], [Dispatch(Decision(outcome))]);
    DispatchedAppend([Dispatch(SetLoading(true))], [ApiGetMe]);
    DispatchedSingle(Dispatch(SetLoading(true)));
    DispatchedSingle(ApiGetMe);
    DispatchedSingle(Dispatch(Decision(outcome)));
    DispatchedSingle(Dispatch(SetLoading(false)));
    if redirect != [] {
      assert redirect == [NavigateToLogin];
      DispatchedSingle(NavigateToLogin);
    }
  }

  /** The store after a probe: the decision applied, loading over. */
  lemma ProbeSession(s: SessionState, outcome: ApiOutcome<Option<MeData>>)
    ensures ApplyDispatches(s, ProbeTrace(outcome))
            == Reduce(Reduce(Reduce(s, SetLoading(true)), Decision(outcome)), SetLoading(false))
  {
    ProbeDispatches(outcome);
    var a, b, c := SetLoading(true), Decision(outcome), SetLoading(false);
    assert [a, b, c] == [a] + [b] + [c];
    RunAppend(s, [a] + [b], [c]);
    RunAppend(s, [a], [b]);
    RunSingle(s, a);
    RunSingle(Reduce(s, a), b);
    RunSingle(Reduce(Reduce(s, a), b), c);
  }

  /** `checkLoginStatus`: the probe's trace, and the store after its
      dispatches: the decision applied to the starting session, with
      loading switched off. */
  function CheckLoginStatus(s: SessionState, outcome: ApiOutcome<Option<MeData>>): (r: (SessionState, seq<Effect>))
    ensures r.1 == ProbeTrace(outcome)
    ensures r.0 == Reduce(Reduce(Reduce(s, SetLoading(true)), Decision(outcome)), SetLoading(false))
    ensures !r.0.isLoading && Consistent(r.0)
    ensures r.0.user == (if NamesUser(outcome) then Some(Decision(outcome).payload) else None)
  {
    var t := ProbeTrace(outcome);
    ProbeSession(s, outcome);
    (ApplyDispatches(s, t), t)
  }

  /** What one probe does to the store and to navigation, by outcome: a
      response naming a user logs that user in, anything else logs out, a
      401 error alone redirects, and loading always ends. */
  lemma ProbeOutcomes(s: SessionState, outcome: ApiOutcome<Option<MeData>>)
    ensures !CheckLoginStatus(s, outcome).0.isLoading
    ensures Consistent(CheckLoginStatus(s, outcome).0)
    ensures NamesUser(outcome) ==>
              (&& CheckLoginStatus(s, outcome).0.isLoggedIn
               && CheckLoginStatus(s, outcome).0.user
                  == Some(User(outcome.data.value.username.value, outcome.data.value.zone)))
    ensures !NamesUser(outcome) ==>
              (!CheckLoginStatus(s, outcome).0.isLoggedIn && CheckLoginStatus(s, outcome).0.user == None)
    ensures multiset(CheckLoginStatus(s, outcome).1)[NavigateToLogin] == (if outcome == HttpErr(401) then 1 else 0)
    ensures multiset(CheckLoginStatus(s, outcome).1)[ApiGetMe] == 1
  {
    ProbeSession(s, outcome);
    var t := ProbeTrace(outcome);
    var head := [Dispatch(SetLoading(true)), ApiGetMe, Dispatch(Decision(outcome))];
    var redirect := t[3..|t| - 1];
    assert t == head + redirect + [Dispatch(SetLoading(false))];
    assert multiset(head)[NavigateToLogin] == 0 && multiset(head)[ApiGetMe] == 1;
  }

  /** The mount effect: the probe runs only while `hasAttemptedLogin` is
      false, and the flag is set first. */
  function ProbeEffect(h: HeaderState, outcome: ApiOutcome<Option<MeData>>): (r: (HeaderState, seq<Effect>))
    ensures r.0.hasAttemptedLogin
    ensures h.hasAttemptedLogin ==> r == (h, [])
    ensures !h.hasAttemptedLogin ==> r.1 == ProbeTrace(outcome)
    ensures !h.hasAttemptedLogin ==> r.0.session == CheckLoginStatus(h.session, outcome).0
    ensures !h.hasAttemptedLogin ==>
              && !r.0.session.isLoading
              && r.0.session.user == (if NamesUser(outcome) then Some(Decision(outcome).payload) else None)
  {
    if h.hasAttemptedLogin then (h, [])
    else
      var (s', t) := CheckLoginStatus(h.session, outcome);
      (HeaderState(s', true), t)
  }

  /** The effect re-run on successive renders, the k-th run seeing outcome
      `outcomes[k]` should it send a request. */
  function RunProbeEffects(h: HeaderState, outcomes: seq<ApiOutcome<Option<MeData>>>): (HeaderState, seq<Effect>)
    decreases |outcomes|
  {
    if |outcomes| == 0 then (h, [])
    else
      var (h1, t1) := ProbeEffect(h, outcomes[0]);
      var (h2, t2) := RunProbeEffects(h1, outcomes[1..]);
      (h2, t1 + t2)
  }

  /** Once the flag is set, re-running the effect does nothing at all. */
  lemma {:induction false} AttemptedEffectsAreNoOps(h: HeaderState, outcomes: seq<ApiOutcome<Option<MeData>>>)
    requires h.hasAttemptedLogin
    ensures RunProbeEffects(h, outcomes) == (h, [])
    decreases |outcomes|
  {
    if |outcomes| > 0 {
      AttemptedEffectsAreNoOps(h, outcomes[1..]);
      var none: seq<Effect> := [];
      assert none + none == none;
    }
  }

  /** However many times the effect re-runs, `/me` is requested at most once
      per mount and the probe redirects to the login page at most once. */
  lemma ProbeRunsAtMostOnce(h: HeaderState, outcomes: seq<ApiOutcome<Option<MeData>>>)
    ensures var t := RunProbeEffects(h, outcomes).1;
      && multiset(t)[ApiGetMe] == (if h.hasAttemptedLogin || |outcomes| == 0 then 0 else 1)
      && multiset(t)[NavigateToLogin] <= 1
  {
    if |outcomes| > 0 {
      var (h1, t1) := ProbeEffect(h, outcomes[0]);
      AttemptedEffectsAreNoOps(h1, outcomes[1..]);
      assert RunProbeEffects(h, outcomes).1 == t1 + [];
      if !h.hasAttemptedLogin {
        ProbeOutcomes(h.session, outcomes[0]);
      }
    }
  }

  /** The steps of `handleLogout` after the request settles; the success
      path and the catch path are the same three steps. */
  const LogoutTrace: seq<Effect> := [ApiLogout, RemoveTokenCookie, Dispatch(ClearUser), NavigateToLogin]

  lemma LogoutDispatches()
    ensures Dispatched(LogoutTrace) == [ClearUser]
  {
    assert LogoutTrace == [ApiLogout, RemoveTokenCookie] + [Dispatch(ClearUser)] + [NavigateToLogin];
    DispatchedAppend([ApiLogout, RemoveTokenCookie] + [Dispatch(ClearUser)], [NavigateToLogin]);
    DispatchedAppend([ApiLogout, RemoveTokenCookie], [Dispatch(ClearUser)]);
    assert [ApiLogout, RemoveTokenCookie] == [ApiLogout] + [RemoveTokenCookie];
    DispatchedAppend([ApiLogout], [RemoveTokenCookie]);
    DispatchedSingle(ApiLogout);
    DispatchedSingle(RemoveTokenCookie);
    DispatchedSingle(Dispatch(ClearUser));
    DispatchedSingle(NavigateToLogin);
  }

  /** `handleLogout`: whether `POST /logout` succeeds or fails, the token
      cookie is removed, the user cleared and the login page shown. */
  function HandleLogout(s: SessionState, outcome: ApiOutcome<()>): (r: (SessionState, seq<Effect>))
    ensures r.1 == [ApiLogout, RemoveTokenCookie, Dispatch(ClearUser), NavigateToLogin]
    ensures r.0 == ApplyDispatches(s, r.1)
    ensures !r.0.isLoggedIn && r.0.user == None && r.0.isLoading == s.isLoading
  {
    LogoutDispatches();
    RunSingle(s, ClearUser);
    (ApplyDispatches(s, LogoutTrace), LogoutTrace)
  }
}
