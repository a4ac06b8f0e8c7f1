/** The session store of AuthContext: the authenticated flag, the current
    user, the loading flag, the two keys of durable storage (`authToken` and
    `user`) and the module-level roster of registered users. */
module Session {
  import opened Wrappers

  /** A user record. The source stores `id` as the decimal string of a
      number; the model keeps the number. `password` is present on
      registered users and absent on the mock login user. */
  datatype User = User(
    id: nat,
    name: string,
    email: string,
    phone: string,
    password: Option<string>,
    points: nat,
    profilePicture: string)

  /** The two storage keys. An absent key reads as `null`. The stored user is
      the JSON text of a record; serialising and parsing are taken to be an
      exact round trip, so the record itself is kept. */
  datatype Storage = Storage(authToken: Option<string>, user: Option<User>)

  /** The provider's state together with storage and the module-level roster. */
  datatype State = State(
    isAuthenticated: bool,
    currentUser: Option<User>,
    isLoading: bool,
    storage: Storage,
    users: seq<User>)

  /** The only failure: registering an email the roster already holds. */
  datatype AuthError = UserExists

  const MockToken: string := "mock-token"
  const LoginPoints: nat := 1250
  const LoginId: nat := 1
  const EmptyStorage: Storage := Storage(None, None)

  /** A string read from storage is truthy when present and non-empty. */
  predicate Truthy(item: Option<string>) {
    item.Some? && item.value != ""
  }

  /** Both keys are present (the rehydrate condition `token && storedUser`). */
  predicate HasSession(storage: Storage) {
    Truthy(storage.authToken) && storage.user.Some?
  }

  /** The roster as register builds it: ids 1, 2, 3, ... in order. */
  predicate SequentialIds(users: seq<User>) {
    forall i :: 0 <= i < |users| ==> users[i].id == i + 1
  }

  /** No two registered users share an email. */
  predicate DistinctEmails(users: seq<User>) {
    forall i, j :: 0 <= i < j < |users| ==> users[i].email != users[j].email
  }

  predicate RosterValid(users: seq<User>) {
    SequentialIds(users) && DistinctEmails(users)
  }

  /** The invariant of the store: the flag is set exactly when there is a
      user; an active session is mirrored in storage; once loading is over,
      a logged-out store has no complete session in storage; the roster is
      well formed. */
  predicate Valid(s: State) {
    && (s.isAuthenticated <==> s.currentUser.Some?)
    && (s.isAuthenticated ==> HasSession(s.storage) && s.storage.user == s.currentUser)
    && (!s.isLoading && !s.isAuthenticated ==> !HasSession(s.storage))
    && RosterValid(s.users)
  }

  /** The provider as mounted (its three `useState` calls), over whatever is
      in storage and in the roster at that moment. */
  function Mount(storage: Storage, users: seq<User>): (s: State)
    ensures !s.isAuthenticated && s.currentUser.None? && s.isLoading
    ensures s.storage == storage && s.users == users
    ensures RosterValid(users) ==> Valid(s)
  {
    State(false, None, true, storage, users)
  }

  /** The mount effect: restore the user when both keys are present, and
      end loading in every case. */
  function Rehydrate(s: State): (r: State)
    ensures !r.isLoading
    ensures r.storage == s.storage && r.users == s.users
    ensures HasSession(s.storage) ==> r.isAuthenticated && r.currentUser == s.storage.user
    ensures !HasSession(s.storage) ==> r.isAuthenticated == s.isAuthenticated && r.currentUser == s.currentUser
    ensures Valid(s) ==> Valid(r)
  {
    if HasSession(s.storage) then
      s.(currentUser := s.storage.user, isAuthenticated := true, isLoading := false)
    else
      s.(isLoading := false)
  }

  /** The fixed record login builds around the given email. */
  function LoginUser(email: string): User {
    User(LoginId, "John Doe", email, "08012345678", None, LoginPoints,
         "https://randomuser.me/api/portraits/men/32.jpg")
  }

  /** login: accepts any credentials, activates the mock user and writes both
      keys. The roster is not consulted or changed. */
  function Login(s: State, email: string, password: string): (r: State)
    ensures r.isAuthenticated
    ensures r.currentUser.Some? && r.currentUser.value.email == email
    ensures r.currentUser.value.points == 1250 && r.currentUser.value.id == 1
    ensures r.storage == Storage(Some(MockToken), r.currentUser)
    ensures r.users == s.users && r.isLoading == s.isLoading
    ensures Valid(s) ==> Valid(r)
  {
    var u := LoginUser(email);
    s.(currentUser := Some(u), isAuthenticated := true, storage := Storage(Some(MockToken), Some(u)))
  }

  /** `users.find((u) => u.email === email)`: the first user with the email. */
  function FindByEmail(users: seq<User>, email: string): (r: Option<User>)
    ensures r.None? <==> forall i :: 0 <= i < |users| ==> users[i].email != email
    ensures r.Some? ==> r.value in users && r.value.email == email
    ensures r.Some? ==> exists i :: 0 <= i < |users| && users[i] == r.value
                          && forall j :: 0 <= j < i ==> users[j].email != email
  {
    if |users| == 0 then None
    else if users[0].email == email then Some(users[0])
    else FindByEmail(users[1..], email)
  }

  /** The record register builds: the next id, zero points. */
  function NewUser(users: seq<User>, name: string, email: string, phone: string, password: string): User {
    User(|users| + 1, name, email, phone, Some(password),
         0, "https://randomuser.me/api/portraits/men/1.jpg")
  }

  /** register: throws when the email is taken; otherwise appends a new user
      with the next id and zero points, activates it and writes both keys. */
  function Register(s: State, name: string, email: string, phone: string, password: string): (r: Result<State, AuthError>)
    ensures r.Failure? <==> exists i :: 0 <= i < |s.users| && s.users[i].email == email
    ensures r.Success? ==>
      && |r.value.users| == |s.users| + 1
      && r.value.users[..|s.users|] == s.users
      && var u := r.value.users[|s.users|];
         && u.id == |s.users| + 1 && u.points == 0 && u.email == email
         && u.name == name && u.phone == phone && u.password == Some(password)
         && r.value.isAuthenticated && r.value.currentUser == Some(u)
         && r.value.storage == Storage(Some(MockToken), Some(u))
    ensures r.Success? ==> r.value.isLoading == s.isLoading
    ensures r.Success? && Valid(s) ==> Valid(r.value)
  {
    if FindByEmail(s.users, email).Some? then
      Failure(UserExists)
    else
      var u := NewUser(s.users, name, email, phone, password);
      Success(s.(users := s.users + [u], currentUser := Some(u), isAuthenticated := true,
                 storage := Storage(Some(MockToken), Some(u))))
  }

  /** logout, given the answer to its confirmation dialog: a confirmed logout
      clears the user, the flag and both keys; a cancelled one does nothing. */
  function Logout(s: State, confirmed: bool): (r: State)
    ensures confirmed ==> !r.isAuthenticated && r.currentUser.None? && r.storage == EmptyStorage
    ensures confirmed ==> r.users == s.users && r.isLoading == s.isLoading
    ensures !confirmed ==> r == s
    ensures Valid(s) ==> Valid(r)
  {
    if confirmed then
      s.(currentUser := None, isAuthenticated := false, storage := EmptyStorage)
    else
      s
  }

  /** The raw `setIsAuthenticated` setter the context also exports. */
  function SetIsAuthenticated(s: State, value: bool): (r: State)
    ensures r.isAuthenticated == value
    ensures r.currentUser == s.currentUser && r.storage == s.storage && r.users == s.users && r.isLoading == s.isLoading
  {
    s.(isAuthenticated := value)
  }

  /** The calls a consumer of the context can make, except the raw
      `setIsAuthenticated` setter (see SetIsAuthenticatedBreaksValid). */
  datatype Event =
    | Reload(storageKept: bool)
    | Rehydrated
    | LoggedIn(email: string, password: string)
    | Registered(name: string, email: string, phone: string, password: string)
    | LoggedOut(confirmed: bool)

  /** One event. A failed register leaves the state as it was (the caller
      receives the thrown error). A reload remounts the provider over the
      kept storage; the roster is module state and does not survive it. */
  function Apply(s: State, e: Event): (r: State)
    ensures e.Registered? && Register(s, e.name, e.email, e.phone, e.password).Failure? ==> r == s
  {
    match e
    case Reload(kept) => Mount(if kept then s.storage else EmptyStorage, [])
    case Rehydrated => Rehydrate(s)
    case LoggedIn(email, password) => Login(s, email, password)
    case Registered(name, email, phone, password) =>
      (match Register(s, name, email, phone, password)
       case Success(next) => next
       case Failure(_) => s)
    case LoggedOut(confirmed) => Logout(s, confirmed)
  }

  /** A sequence of events. */
  function Run(s: State, events: seq<Event>): State
    decreases |events|
  {
    if |events| == 0 then s else Run(Apply(s, events[0]), events[1..])
  }

  // ---------------------------------------------------------------------
  // Properties

  /** The provider's first render: logged out, no user, loading. */
  lemma InitialState(storage: Storage)
    ensures Valid(Mount(storage, []))
    ensures !Mount(storage, []).isAuthenticated && Mount(storage, []).currentUser.None?
    ensures Mount(storage, []).isLoading
  {
  }

  /** Every event keeps the invariant; the raw `setIsAuthenticated` setter
      is not an event and can break it. */
  lemma ApplyPreservesValid(s: State, e: Event)
    requires Valid(s)
    ensures Valid(Apply(s, e))
  {
    match e
    case Registered(name, email, phone, password) =>
      var r := Register(s, name, email, phone, password);
      if r.Success? { assert Valid(r.value); }
    case _ =>
  }

  /** Any sequence of events from a mounted provider (every call except the
      raw `setIsAuthenticated` setter) keeps the invariant: flag and user
      agree, storage mirrors the session, and registered emails stay pairwise
      distinct. The second ensures restates, for the reader, the roster part
      of `Valid`. */
  lemma {:induction false} RunPreservesValid(s: State, events: seq<Event>)
    requires Valid(s)
    ensures Valid(Run(s, events))
    ensures DistinctEmails(Run(s, events).users)
    decreases |events|
  {
    if |events| > 0 {
      ApplyPreservesValid(s, events[0]);
      RunPreservesValid(Apply(s, events[0]), events[1..]);
    }
  }

  /** Reloading the page after login restores the same user, whatever the
      roster then holds. */
  lemma LoginSurvivesReload(s: State, email: string, password: string, users: seq<User>)
    ensures var after := Login(s, email, password);
            var restored := Rehydrate(Mount(after.storage, users));
            restored.isAuthenticated && restored.currentUser == after.currentUser && !restored.isLoading
  {
  }

  /** Reloading the page after a successful register restores the same user. */
  lemma RegisterSurvivesReload(s: State, name: string, email: string, phone: string, password: string, users: seq<User>)
    requires Register(s, name, email, phone, password).Success?
    ensures var after := Register(s, name, email, phone, password).value;
            var restored := Rehydrate(Mount(after.storage, users));
            restored.isAuthenticated && restored.currentUser == after.currentUser && !restored.isLoading
  {
  }

  /** Reloading after a confirmed logout finds no session. */
  lemma LogoutSurvivesReload(s: State, users: seq<User>)
    ensures var restored := Rehydrate(Mount(Logout(s, true).storage, users));
            !restored.isAuthenticated && restored.currentUser.None?
  {
  }

  /** login does not enter the roster: registering the same email afterwards
      succeeds when the roster did not already hold it, and on a fresh roster
      the new account gets id 1, the same id as the login user. */
  lemma LoginDoesNotReserveEmail(s: State, email: string, password: string, name: string, phone: string, password2: string)
    requires forall i :: 0 <= i < |s.users| ==> s.users[i].email != email
    ensures Register(Login(s, email, password), name, email, phone, password2).Success?
    ensures |s.users| == 0 ==>
      Register(Login(s, email, password), name, email, phone, password2).value.currentUser.value.id
        == Login(s, email, password).currentUser.value.id
  {
  }

  /** A second register of the same email fails and leaves everything as the
      first register left it. */
  lemma RegisterTwiceFails(s: State, name: string, email: string, phone: string, password: string,
                           name2: string, phone2: string, password2: string)
    requires Register(s, name, email, phone, password).Success?
    ensures var first := Register(s, name, email, phone, password).value;
            Register(first, name2, email, phone2, password2) == Failure(UserExists)
            && Apply(first, Registered(name2, email, phone2, password2)) == first
  {
    var first := Register(s, name, email, phone, password).value;
    assert first.users[|s.users|].email == email;
  }

  /** The exported setter can break the invariant: from the valid logged-out
      state after loading, setting the flag yields a session with no user. */
  lemma SetIsAuthenticatedBreaksValid()
    ensures Valid(Rehydrate(Mount(EmptyStorage, [])))
    ensures !Valid(SetIsAuthenticated(Rehydrate(Mount(EmptyStorage, [])), true))
  {
  }
}
