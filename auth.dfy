/** The mock sign-in state of src/context/AuthContext.tsx: the current user,
    one of two fixed users, and whether the team space is shown. */
module Auth {

  datatype Role = Developer | Maintainer

  datatype User = User(id: string, name: string, role: Role)

  /** The two mock users, Jeeva first. */
  const MockUsers: seq<User> := [User("user123", "Jeeva", Maintainer), User("user456", "Ravi", Developer)]

  /** The user `switchUser` moves to: the second mock user from the first,
      and the first from anyone else. */
  function Switched(u: User): (r: User)
    ensures r in MockUsers
    ensures r.id != u.id
  {
    if u.id == MockUsers[0].id then MockUsers[1] else MockUsers[0]
  }

  /** Switching twice from a mock user comes back to that user. */
  lemma SwitchTwice(u: User)
    requires u in MockUsers
    ensures Switched(Switched(u)) == u
  {
  }

  class AuthState {
    var currentUser: User
    var isTeamSpace: bool

    /** The current user is always one of the mock users. */
    ghost predicate Valid()
      reads this
    {
      currentUser in MockUsers
    }

    /** The provider's initial state: Jeeva, in the team space. */
    constructor()
      ensures Valid()
      ensures currentUser == User("user123", "Jeeva", Maintainer) && isTeamSpace
    {
      currentUser := MockUsers[0];
      isTeamSpace := true;
    }

    /** `toggleSpace`. */
    method ToggleSpace()
      modifies this
      ensures isTeamSpace == !old(isTeamSpace)
      ensures currentUser == old(currentUser)
    {
      isTeamSpace := !isTeamSpace;
    }

    /** `switchUser`. */
    method SwitchUser()
      requires Valid()
      modifies this
      ensures Valid()
      ensures currentUser == Switched(old(currentUser))
      ensures old(currentUser).id == "user123" ==> currentUser.id == "user456"
      ensures old(currentUser).id != "user123" ==> currentUser.id == "user123"
      ensures isTeamSpace == old(isTeamSpace)
    {
      currentUser := Switched(currentUser);
    }
  }

  /** Two toggles restore the state. */
  method ToggleSpaceTwice(auth: AuthState)
    modifies auth
    ensures auth.isTeamSpace == old(auth.isTeamSpace) && auth.currentUser == old(auth.currentUser)
  {
    auth.ToggleSpace();
    auth.ToggleSpace();
  }

  /** Two switches restore the state. */
  method SwitchUserTwice(auth: AuthState)
    requires auth.Valid()
    modifies auth
    ensures auth.Valid()
    ensures auth.currentUser == old(auth.currentUser) && auth.isTeamSpace == old(auth.isTeamSpace)
  {
    auth.SwitchUser();
    auth.SwitchUser();
    SwitchTwice(old(auth.currentUser));
  }
}
