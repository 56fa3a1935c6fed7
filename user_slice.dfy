/** The `user` slice of the Redux store (src/redux/slices/userSlice.ts): a
    four-field record with a full replace, a partial merge and a read. */
module UserSlice {
  import opened Wrappers

  datatype User = User(username: string, email: string, password: string, isAuthValid: bool)

  /** `Partial<UserState>`: a field is either given or absent. */
  datatype UserPatch = UserPatch(
    username: Option<string>,
    email: Option<string>,
    password: Option<string>,
    isAuthValid: Option<bool>)

  const NoChange := UserPatch(None, None, None, None)

  /** The patch that gives every field of `u`. */
  function FullPatch(u: User): (p: UserPatch)
    ensures p.username.Some? && p.email.Some? && p.password.Some? && p.isAuthValid.Some?
  {
    UserPatch(Some(u.username), Some(u.email), Some(u.password), Some(u.isAuthValid))
  }

  /** `Object.assign(state, patch)` on values. */
  function Assign(u: User, p: UserPatch): (r: User)
    ensures r.username == p.username.GetOr(u.username) && r.email == p.email.GetOr(u.email)
    ensures r.password == p.password.GetOr(u.password) && r.isAuthValid == p.isAuthValid.GetOr(u.isAuthValid)
  {
    User(p.username.GetOr(u.username), p.email.GetOr(u.email),
         p.password.GetOr(u.password), p.isAuthValid.GetOr(u.isAuthValid))
  }

  /** An empty patch is the identity, a patch applied twice acts once, and
      a patch naming every field replaces the record whatever it held. */
  lemma AssignLaws(u: User, p: UserPatch, v: User)
    ensures Assign(u, NoChange) == u
    ensures Assign(Assign(u, p), p) == Assign(u, p)
    ensures Assign(u, FullPatch(v)) == v
  {
  }

  /** Patches that name disjoint fields can be applied in either order. */
  lemma AssignCommutes(u: User, p: UserPatch, q: UserPatch)
    requires p.username.None? || q.username.None?
    requires p.email.None? || q.email.None?
    requires p.password.None? || q.password.None?
    requires p.isAuthValid.None? || q.isAuthValid.None?
    ensures Assign(Assign(u, p), q) == Assign(Assign(u, q), p)
  {
  }

  /** The slice's state. */
  class UserStore {
    var username: string
    var email: string
    var password: string
    var isAuthValid: bool

    function State(): User
      reads this
    {
      User(username, email, password, isAuthValid)
    }

    /** `initialState`: empty strings and not authenticated. */
    constructor()
      ensures State() == User("", "", "", false)
    {
      username := "";
      email := "";
      password := "";
      isAuthValid := false;
    }

    /** `setUser`: every field from the payload, whatever was there before. */
    method SetUser(payload: User)
      modifies this
      ensures State() == payload
    {
      username := payload.username;
      email := payload.email;
      password := payload.password;
      isAuthValid := payload.isAuthValid;
    }

    /** `updateUser`: the fields the payload names are overwritten, the
        others are kept. */
    method UpdateUser(patch: UserPatch)
      modifies this
      ensures State() == Assign(old(State()), patch)
    {
      if patch.username.Some? {
        username := patch.username.value;
      }
      if patch.email.Some? {
        email := patch.email.value;
      }
      if patch.password.Some? {
        password := patch.password.value;
      }
      if patch.isAuthValid.Some? {
        isAuthValid := patch.isAuthValid.value;
      }
    }

    /** `getUser`: the state, unchanged. */
    method GetUser() returns (u: User)
      ensures u == State()
    {
      u := User(username, email, password, isAuthValid);
    }
  }
}
