/** The process-wide session store: the signed-in user and the admin flag,
    with its three setters. */
module AuthStore {
  import opened Types

  datatype AuthState = AuthState(user: Option<User>, isAdmin: bool)

  /** The store as created: nobody signed in, not admin. */
  const Initial: AuthState := AuthState(None, false)

  /** `setUser(user)` */
  function SetUser(s: AuthState, user: Option<User>): (r: AuthState)
    ensures r.user == user
    ensures r.isAdmin == s.isAdmin
  {
    s.(user := user)
  }

  /** `setIsAdmin(isAdmin)` */
  function SetIsAdmin(s: AuthState, isAdmin: bool): (r: AuthState)
    ensures r.isAdmin == isAdmin
    ensures r.user == s.user
  {
    s.(isAdmin := isAdmin)
  }

  /** `reset()` */
  function Reset(s: AuthState): (r: AuthState)
    ensures r.user.None? && !r.isAdmin
  {
    Initial
  }

  /** A call on the store. */
  datatype Action = SetUserAction(user: Option<User>) | SetIsAdminAction(isAdmin: bool) | ResetAction

  function Apply(s: AuthState, a: Action): AuthState {
    match a
    case SetUserAction(u) => SetUser(s, u)
    case SetIsAdminAction(b) => SetIsAdmin(s, b)
    case ResetAction => Reset(s)
  }

  /** The store after the calls `actions`, in order. */
  function Run(s: AuthState, actions: seq<Action>): AuthState
    decreases |actions|
  {
    if |actions| == 0 then s else Run(Apply(s, actions[0]), actions[1..])
  }

  /** Reference reading of a history: the user is the one of the last
      `setUser` after the last `reset` (none if a `reset` is last among them),
      else the starting one. */
  ghost function LastUser(s: AuthState, actions: seq<Action>): Option<User>
    decreases |actions|
  {
    if |actions| == 0 then s.user
    else match actions[|actions| - 1]
      case SetUserAction(u) => u
      case ResetAction => None
      case SetIsAdminAction(_) => LastUser(s, actions[..|actions| - 1])
  }

  /** Likewise for the admin flag: the last `setIsAdmin` after the last
      `reset`, false after a `reset`, else the starting one. */
  ghost function LastIsAdmin(s: AuthState, actions: seq<Action>): bool
    decreases |actions|
  {
    if |actions| == 0 then s.isAdmin
    else match actions[|actions| - 1]
      case SetIsAdminAction(b) => b
      case ResetAction => false
      case SetUserAction(_) => LastIsAdmin(s, actions[..|actions| - 1])
  }

  lemma {:induction false} RunAppend(s: AuthState, actions: seq<Action>, a: Action)
    ensures Run(s, actions + [a]) == Apply(Run(s, actions), a)
    decreases |actions|
  {
    if |actions| > 0 {
      assert (actions + [a])[1..] == actions[1..] + [a];
      RunAppend(Apply(s, actions[0]), actions[1..], a);
    }
  }

  /** Each field of the store is whatever its last writer left: the two
      setters never disturb each other's field, and `reset` clears both. */
  lemma {:induction false} RunIsLastWriteWins(s: AuthState, actions: seq<Action>)
    ensures Run(s, actions).user == LastUser(s, actions)
    ensures Run(s, actions).isAdmin == LastIsAdmin(s, actions)
    decreases |actions|
  {
    if |actions| > 0 {
      var init := actions[..|actions| - 1];
      assert actions == init + [actions[|actions| - 1]];
      RunAppend(s, init, actions[|actions| - 1]);
      RunIsLastWriteWins(s, init);
    }
  }

  /** `reset` leads to the initial store from anywhere, and twice is once. */
  lemma ResetIsIdempotent(s: AuthState)
    ensures Reset(s) == Initial
    ensures Reset(Reset(s)) == Reset(s)
  {
  }

  /** Setting the user and setting the flag commute. */
  lemma SettersCommute(s: AuthState, u: Option<User>, b: bool)
    ensures SetIsAdmin(SetUser(s, u), b) == SetUser(SetIsAdmin(s, b), u)
  {
  }
}
