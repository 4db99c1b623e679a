/** The application shell: how the session store follows the identity
    provider (the start-up session read, the auth-change handler with its
    profile lookup, sign-out) and which views it gates on the store. */
module App {
  import opened Types
  import opened AuthStore

  /** A provider session; only its user is read. */
  datatype Session = Session(user: User)

  /** What the profile lookup (`select is_admin ... single()`) returned:
      the row's flag, or no data (no row, several rows or an error). */
  datatype ProfileLookup = ProfileFound(isAdmin: bool) | NoProfileData

  /** `session?.user ?? null` */
  function SessionUser(session: Option<Session>): Option<User> {
    if session.Some? then Some(session.value.user) else None
  }

  /** `data?.is_admin ?? false`: only a returned row can grant admin. */
  function AdminFromLookup(lookup: ProfileLookup): (b: bool)
    ensures b <==> lookup == ProfileFound(true)
  {
    match lookup
    case ProfileFound(isAdmin) => isAdmin
    case NoProfileData => false
  }

  /** The synchronous part of the auth-change handler: the user follows the
      session; without a session the flag is cleared, with one it is left as
      it was until the profile lookup answers. */
  function OnAuthStateChange(s: AuthState, session: Option<Session>): (r: AuthState)
    ensures r.user == SessionUser(session)
    ensures session.None? ==> !r.isAdmin
    ensures session.Some? ==> r.isAdmin == s.isAdmin
  {
    var s1 := SetUser(s, SessionUser(session));
    if session.Some? then s1 else SetIsAdmin(s1, false)
  }

  /** The lookup's continuation: `setIsAdmin(data?.is_admin ?? false)`. */
  function OnProfileLookup(s: AuthState, lookup: ProfileLookup): (r: AuthState)
    ensures r.user == s.user
    ensures r.isAdmin <==> lookup == ProfileFound(true)
  {
    SetIsAdmin(s, AdminFromLookup(lookup))
  }

  /** An auth change whose lookup (issued only with a session) has answered:
      the user is the session's, and the flag is set only by a returned
      profile row saying so. */
  function AuthChangeSettled(s: AuthState, session: Option<Session>, lookup: ProfileLookup): (r: AuthState)
    ensures r.user == SessionUser(session)
    ensures r.isAdmin <==> session.Some? && lookup == ProfileFound(true)
  {
    var s1 := OnAuthStateChange(s, session);
    if session.Some? then OnProfileLookup(s1, lookup) else s1
  }

  /** The start-up read of the current session once its profile lookup has
      answered: the same steps as an auth change from the initial store,
      except that without a session the flag is not touched. In the code the
      read ends (`setLoading(false)`) before the lookup answers, so this is
      the settled store, reached from `StartupRead` by a `LookupAnswered`
      event (`StartupIsReadThenLookup`). */
  function Startup(session: Option<Session>, lookup: ProfileLookup): (r: AuthState)
    ensures r.user == SessionUser(session)
    ensures r.isAdmin ==> session.Some?
  {
    var s1 := SetUser(Initial, SessionUser(session));
    if session.Some? then SetIsAdmin(s1, AdminFromLookup(lookup)) else s1
  }

  /** When the start-up read is the first thing to reach the store, leaving
      out its `else` branch makes no difference, because the initial store is
      not admin. */
  lemma StartupAgreesWithAuthChange(session: Option<Session>, lookup: ProfileLookup)
    ensures Startup(session, lookup) == AuthChangeSettled(Initial, session, lookup)
  {
  }

  /** The start-up read's synchronous part on whatever store it meets:
      `setUser(session?.user ?? null)`, with no `else` branch for the flag. */
  function ReadSession(s: AuthState, session: Option<Session>): (r: AuthState)
    ensures r.user == SessionUser(session)
    ensures r.isAdmin == s.isAdmin
  {
    SetUser(s, SessionUser(session))
  }

  /** The store when the start-up read ends and loading stops, when the read
      is the first thing to reach the store: the session's user is set, and
      the flag is still the initial one, since the lookup the read issued has
      not answered yet. */
  function StartupRead(session: Option<Session>): (r: AuthState)
    ensures r == ReadSession(Initial, session)
    ensures r.user == SessionUser(session)
    ensures !r.isAdmin
  {
    ReadSession(Initial, session)
  }

  /** Start-up is the read followed, with a session, by its lookup's answer. */
  lemma StartupIsReadThenLookup(session: Option<Session>, lookup: ProfileLookup)
    ensures session.Some? ==> Startup(session, lookup) == Step(StartupRead(session), LookupAnswered(lookup))
    ensures session.None? ==> Startup(session, lookup) == StartupRead(session)
  {
  }

  /** The first render after loading shows no create-poll form, even to an
      admin, provided the read meets a store without the flag: the flag
      arrives only with a lookup's answer. */
  lemma FirstRenderHasNoCreatePoll(s: AuthState, session: Option<Session>)
    requires !s.isAdmin
    ensures Main(false, ReadSession(s, session)) == if session.Some? then Dashboard(false) else SignIn
  {
  }

  /** Nothing orders the start-up read before the first auth-change callback:
      when that callback and its lookup answer first, the read keeps the flag,
      and the first render after loading already shows the form. */
  lemma EarlyAuthChangeShowsFormAtFirstRender(a: User)
    ensures var s := Step(Step(Initial, AuthChange(Some(Session(a)))), LookupAnswered(ProfileFound(true)));
            Main(false, ReadSession(s, Some(Session(a)))) == Dashboard(true)
  {
  }

  /** From start-up on, when every lookup (the start-up one included) answers
      right after the step that issued it, the flag never outlives the user. */
  lemma StartupThenSettledKeepsAdminWithUser(session: Option<Session>, events: seq<Event>)
    requires session.Some? ==> |events| >= 1 && events[0].LookupAnswered? && Settled(events[1..])
    requires session.None? ==> Settled(events)
    ensures AdminImpliesUser(Replay(StartupRead(session), events))
  {
    if session.Some? {
      SettledKeepsAdminWithUser(Step(StartupRead(session), events[0]), events[1..]);
    } else {
      SettledKeepsAdminWithUser(StartupRead(session), events);
    }
  }

  /** How the provider's `signOut()` ended. A returned error object counts as
      resolved; only a thrown error is caught. */
  datatype SignOutResult = SignOutResolved | SignOutRejected

  datatype SignOutToast = SignedOut | SignOutFailed

  /** `handleSignOut`: the store is reset only after the provider call has
      completed without throwing; otherwise it is left exactly as it was. */
  function HandleSignOut(s: AuthState, result: SignOutResult): (r: (AuthState, SignOutToast))
    ensures result.SignOutResolved? ==> r.0 == Initial && r.1 == SignedOut
    ensures result.SignOutRejected? ==> r.0 == s && r.1 == SignOutFailed
  {
    match result
    case SignOutResolved => (Reset(s), SignedOut)
    case SignOutRejected => (s, SignOutFailed)
  }

  // ---------------------------------------------------------------------
  // View gating
  // ---------------------------------------------------------------------

  /** The main area: a spinner until the start-up read is done, then the
      sign-in panel without a user, else the dashboard, whose create-poll
      form is present only for admins. */
  datatype MainView = Initializing | SignIn | Dashboard(createPoll: bool)

  /** The navigation bar: the account block (email, badge, sign-out) with a
      user, and the admin badge inside it. */
  datatype NavBar = NavBar(account: bool, adminBadge: bool)

  function Main(loading: bool, s: AuthState): (v: MainView)
    ensures v.Initializing? <==> loading
    ensures v.SignIn? <==> !loading && s.user.None?
    ensures v.Dashboard? ==> (v.createPoll <==> s.isAdmin)
  {
    if loading then Initializing
    else if s.user.None? then SignIn
    else Dashboard(s.isAdmin)
  }

  /** The bar, absent while the start-up read is running (only the start-up
      spinner is rendered then). */
  function Nav(loading: bool, s: AuthState): (n: Option<NavBar>)
    ensures n.None? <==> loading
    ensures n.Some? ==> (n.value.account <==> s.user.Some?)
    ensures n.Some? ==> (n.value.adminBadge <==> s.user.Some? && s.isAdmin)
  {
    if loading then None else Some(NavBar(s.user.Some?, s.user.Some? && s.isAdmin))
  }

  /** The create-poll form is shown only to a signed-in admin, and the
      sign-in panel only when nobody is signed in. */
  lemma CreatePollOnlyForSignedInAdmins(loading: bool, s: AuthState)
    ensures Main(loading, s) == Dashboard(true) ==> s.user.Some? && s.isAdmin
    ensures Main(loading, s).SignIn? ==> s.user.None?
  {
  }

  // ---------------------------------------------------------------------
  // Histories of provider events
  // ---------------------------------------------------------------------

  /** What the provider and the backend deliver to the shell. */
  datatype Event =
    | AuthChange(session: Option<Session>)
    | LookupAnswered(lookup: ProfileLookup)
    | SignOut(result: SignOutResult)

  function Step(s: AuthState, e: Event): AuthState {
    match e
    case AuthChange(session) => OnAuthStateChange(s, session)
    case LookupAnswered(lookup) => OnProfileLookup(s, lookup)
    case SignOut(result) => HandleSignOut(s, result).0
  }

  function Replay(s: AuthState, events: seq<Event>): AuthState
    decreases |events|
  {
    if |events| == 0 then s else Replay(Step(s, events[0]), events[1..])
  }

  /** A history in which every lookup answers right after the auth change
      that issued it, before anything else happens. */
  ghost predicate Settled(events: seq<Event>)
    decreases |events|
  {
    if |events| == 0 then true
    else match events[0]
      case AuthChange(session) =>
        if session.Some? then |events| >= 2 && events[1].LookupAnswered? && Settled(events[2..])
        else Settled(events[1..])
      case LookupAnswered(_) => false
      case SignOut(_) => Settled(events[1..])
  }

  /** Whether the admin flag belongs to a signed-in user. */
  ghost predicate AdminImpliesUser(s: AuthState) {
    s.isAdmin ==> s.user.Some?
  }

  /** When lookups answer in order, the store never holds the admin flag
      without a user. */
  lemma {:induction false} SettledKeepsAdminWithUser(s: AuthState, events: seq<Event>)
    requires AdminImpliesUser(s)
    requires Settled(events)
    ensures AdminImpliesUser(Replay(s, events))
    decreases |events|
  {
    if |events| > 0 {
      var e := events[0];
      if e.AuthChange? && e.session.Some? {
        var s2 := Step(Step(s, e), events[1]);
        assert events[1..][1..] == events[2..];
        assert Replay(s, events) == Replay(s2, events[2..]);
        SettledKeepsAdminWithUser(s2, events[2..]);
      } else {
        SettledKeepsAdminWithUser(Step(s, e), events[1..]);
      }
    }
  }

  /** Lookups are not tied to the session that issued them: an admin's lookup
      that answers after sign-out leaves the flag set with nobody signed in,
      and the next user to sign in, not an admin, is shown the create-poll
      form until their own lookup answers. */
  lemma LateLookupOutlivesSignOut(admin: User, other: User)
    ensures var s1 := Step(Initial, AuthChange(Some(Session(admin))));
            var s2 := Step(s1, SignOut(SignOutResolved));
            var s3 := Step(s2, LookupAnswered(ProfileFound(true)));
            var s4 := Step(s3, AuthChange(Some(Session(other))));
            && s3 == AuthState(None, true)
            && s4 == AuthState(Some(other), true)
            && Main(false, s4) == Dashboard(true)
            && !Step(s4, LookupAnswered(ProfileFound(false))).isAdmin
  {
  }
}
