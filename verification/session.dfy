/** The session store (`AuthContext`): the module-level user list and the
    signed-in user. Every call is one atomic transition; the persisted copy
    of the session is not modelled separately from `session`. */
module Session {
  import opened Common
  import opened Records
  import opened Seqs
  import opened Text

  datatype AuthState = AuthState(users: seq<User>, session: Option<User>)

  /** The seeded users and no one signed in. */
  function Seed(): AuthState {
    AuthState([ User("1", "admin@example.com", "Admin User", RoleAccountant),
                User("2", "client@example.com", "Client User", RoleClient) ], None)
  }

  function HasEmail(email: string): User -> bool {
    (u: User) => u.email == email
  }

  /** `login`: signs in the first user with exactly this email. The password
      is accepted and never looked at. */
  function Login(st: AuthState, email: string, password: string): (r: Reply<AuthState>)
    ensures r.status.Ok? <==> exists i :: 0 <= i < |st.users| && st.users[i].email == email
    ensures r.status.Failed? ==> r.status.error == InvalidCredentials && r.state == st
    ensures r.state.users == st.users
    ensures r.status.Ok? ==>
      exists i :: 0 <= i < |st.users| && r.state.session == Some(st.users[i]) && st.users[i].email == email
                  && forall j :: 0 <= j < i ==> st.users[j].email != email
  {
    match FindFirst(st.users, HasEmail(email))
    case None => Reply(st, Failed(InvalidCredentials))
    case Some(k) => Reply(AuthState(st.users, Some(st.users[k])), Ok)
  }

  /** The outcome of a login does not depend on the password. */
  lemma LoginIgnoresPassword(st: AuthState, email: string, p1: string, p2: string)
    ensures Login(st, email, p1) == Login(st, email, p2)
  {
  }

  /** `logout`: clears the session and nothing else. */
  function Logout(st: AuthState): (r: AuthState)
    ensures r.session.None? && r.users == st.users
  {
    AuthState(st.users, None)
  }

  /** Logging out twice is logging out once. */
  lemma LogoutIdempotent(st: AuthState)
    ensures Logout(Logout(st)) == Logout(st)
  {
  }

  predicate EmailRegistered(users: seq<User>, email: string) {
    exists i :: 0 <= i < |users| && users[i].email == email
  }

  /** `signup`: rejects a registered email; otherwise appends a user with the
      next positional id and signs it in. */
  function Signup(st: AuthState, email: string, password: string, name: string, role: Role): (r: Reply<AuthState>)
    ensures r.status.Failed? <==> exists i :: 0 <= i < |st.users| && st.users[i].email == email
    ensures r.status.Failed? ==> r.status.error == DuplicateEmail && r.state == st
    ensures r.status.Ok? ==>
      var added := User(NatToString(|st.users| + 1), email, name, role);
      r.state.users == st.users + [added] && r.state.session == Some(added)
  {
    if EmailRegistered(st.users, email) then Reply(st, Failed(DuplicateEmail))
    else
      var added := User(NatToString(|st.users| + 1), email, name, role);
      Reply(AuthState(st.users + [added], Some(added)), Ok)
  }

  /** `addClient` of the session store: like `signup` with the client role,
      but the signed-in user stays as it was. */
  function AddClientUser(st: AuthState, email: string, name: string): (r: Reply<AuthState>)
    ensures r.status.Failed? <==> exists i :: 0 <= i < |st.users| && st.users[i].email == email
    ensures r.status.Failed? ==> r.status.error == DuplicateEmail && r.state == st
    ensures r.state.session == st.session
    ensures r.status.Ok? ==>
      r.state.users == st.users + [User(NatToString(|st.users| + 1), email, name, RoleClient)]
  {
    if EmailRegistered(st.users, email) then Reply(st, Failed(DuplicateEmail))
    else Reply(AuthState(st.users + [User(NatToString(|st.users| + 1), email, name, RoleClient)],
                         st.session), Ok)
  }

  /** The user list the store maintains: each id is its 1-based position in
      decimal, and no email occurs twice. */
  ghost predicate WellFormed(users: seq<User>) {
    && (forall i :: 0 <= i < |users| ==> users[i].id == NatToString(i + 1))
    && (forall i, j :: 0 <= i < j < |users| ==> users[i].email != users[j].email)
  }

  lemma SeedWellFormed()
    ensures WellFormed(Seed().users)
  {
  }

  /** Signup and the store's add-client keep the user list well formed, so
      (no user being ever removed) the positional ids never collide here. */
  lemma RegistrationPreservesWellFormed(st: AuthState, email: string, password: string, name: string, role: Role)
    requires WellFormed(st.users)
    ensures WellFormed(Signup(st, email, password, name, role).state.users)
    ensures WellFormed(AddClientUser(st, email, name).state.users)
  {
  }

  /** In a well-formed user list no two users share an id. */
  lemma WellFormedIdsDistinct(users: seq<User>, i: nat, j: nat)
    requires WellFormed(users)
    requires i < j < |users|
    ensures users[i].id != users[j].id
  {
    NatToStringInjective(i + 1, j + 1);
  }

  /** The seeded accounts: any password signs in the admin as an accountant
      and the client as a client; an unknown email is rejected. */
  lemma SeedLogins(password: string)
    ensures var r := Login(Seed(), "admin@example.com", password);
            r.status.Ok? && r.state.session.Some? && r.state.session.value.role == RoleAccountant
    ensures var r := Login(Seed(), "client@example.com", password);
            r.status.Ok? && r.state.session.Some? && r.state.session.value.role == RoleClient
    ensures Login(Seed(), "nobody@x.com", password).status == Failed(InvalidCredentials)
  {
  }
}
