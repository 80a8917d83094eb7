/** The `user` slice of the Redux store: `userReducer` of
    ctr_web/src/redux/reducers/userReducer.js, a two-state login/logout machine. */
module UserReducer {
  import opened Wrappers
  import opened Auth
  import opened ActionTypes

  datatype UserState = UserState(currentUser: Option<PublicUser>, isAuthenticated: bool)

  /** No user, not authenticated. */
  const InitialState := UserState(None, false)

  /** `userReducer(state, action)`. */
  function Reduce(s: UserState, a: Action): (r: UserState)
    ensures a.UserLogin? || a.UserRegister? ==> r.isAuthenticated && r.currentUser == a.user
    ensures a.UserLogout? ==> !r.isAuthenticated && r.currentUser.None?
    ensures !a.UserLogin? && !a.UserRegister? && !a.UserLogout? ==> r == s
  {
    match a
    case UserLogin(u) => s.(currentUser := u, isAuthenticated := true)
    case UserRegister(u) => s.(currentUser := u, isAuthenticated := true)
    case UserLogout => s.(currentUser := None, isAuthenticated := false)
    case _ => s
  }

  /** The flag says whether there is a current user. */
  predicate Consistent(s: UserState) {
    s.isAuthenticated <==> s.currentUser.Some?
  }

  /** A login or register action that carries a user. */
  predicate CarriesUser(a: Action) {
    (a.UserLogin? || a.UserRegister?) ==> a.user.Some?
  }

  /** Every transition keeps the flag and the user in step, provided login and register
      actions carry a user; a null payload would leave the store authenticated as nobody. */
  lemma ReduceKeepsConsistent(s: UserState, a: Action)
    requires Consistent(s) && CarriesUser(a)
    ensures Consistent(Reduce(s, a))
    ensures !Consistent(Reduce(s, UserLogin(None)))
  {
  }

  /** The state after delivering `actions` in order. */
  function Run(s: UserState, actions: seq<Action>): UserState
    decreases |actions|
  {
    if actions == [] then s else Run(Reduce(s, actions[0]), actions[1..])
  }

  /** Delivering one more action after a sequence is one more reducer step. */
  lemma {:induction false} RunSnoc(s: UserState, actions: seq<Action>, a: Action)
    ensures Run(s, actions + [a]) == Reduce(Run(s, actions), a)
    decreases |actions|
  {
    if actions != [] {
      assert (actions + [a])[1..] == actions[1..] + [a];
      RunSnoc(Reduce(s, actions[0]), actions[1..], a);
    }
  }

  /** From the initial state, any sequence of actions whose login and register actions carry a
      user ends in a consistent state. */
  lemma {:induction false} RunKeepsConsistent(s: UserState, actions: seq<Action>)
    requires Consistent(s)
    requires forall i :: 0 <= i < |actions| ==> CarriesUser(actions[i])
    ensures Consistent(Run(s, actions))
    decreases |actions|
  {
    if actions != [] {
      ReduceKeepsConsistent(s, actions[0]);
      RunKeepsConsistent(Reduce(s, actions[0]), actions[1..]);
    }
  }

  /** The session after a sequence is decided by its last login, register or logout: after a
      logout followed only by other actions, nobody is signed in. */
  lemma {:induction false} LogoutEndsSession(s: UserState, before: seq<Action>, after: seq<Action>)
    requires forall i :: 0 <= i < |after| ==>
               !after[i].UserLogin? && !after[i].UserRegister? && !after[i].UserLogout?
    ensures Run(s, before + [UserLogout] + after) == UserState(None, false)
    decreases |after|
  {
    if after == [] {
      assert before + [UserLogout] + after == before + [UserLogout];
      RunSnoc(s, before, UserLogout);
    } else {
      var last := after[|after| - 1];
      var prefix := before + [UserLogout] + after[..|after| - 1];
      assert before + [UserLogout] + after == prefix + [last];
      RunSnoc(s, prefix, last);
      assert before + [UserLogout] + after[..|after| - 1] == prefix;
      LogoutEndsSession(s, before, after[..|after| - 1]);
    }
  }
}
