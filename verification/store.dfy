/**
 The credential store of the authentication service: a users table keyed by
 username and a sessions table keyed by token, each operation a pure
 transition from one store to the next. Lookups here are exact: the store
 does no case normalisation, that is the account layer's job.
 */
module Store {
  import opened Base

  /** A session token (the text of a v4 uuid). */
  type Token = string

  /** Milliseconds since the epoch. */
  type Time = int

  /** A row of the users table. */
  datatype UserRow = UserRow(
    username: string,
    passwordHash: string,
    firstName: string,
    lastName: string,
    email: string,
    admin: bool)

  /** A row of the sessions table, without its key. */
  datatype SessionRow = SessionRow(username: string, expiration: Time)

  datatype State = State(users: map<string, UserRow>, sessions: map<Token, SessionRow>)

  /** The primary key of every user row is its own username. */
  predicate Valid(st: State)
  {
    forall name :: name in st.users ==> st.users[name].username == name
  }

  /** The account seeded into the users table on start-up and after a reset. */
  const ADMIN_NAME: string := "admin"

  function InitialAdmin(adminHash: string): (u: UserRow)
    ensures u.username == ADMIN_NAME && u.admin
  {
    UserRow(ADMIN_NAME, adminHash, "test", "test", "freshollie@gmail.com", true)
  }

  // ---------------------------------------------------------------- users

  /** `getDetails`: exact-match lookup by username. */
  function GetDetails(st: State, username: string): (r: Option<UserRow>)
    ensures r.Some? <==> username in st.users
    ensures r.Some? ==> r.value == st.users[username]
  {
    if username in st.users then Some(st.users[username]) else None
  }

  /** `saveUser`: insert unless the exact username is already taken. */
  function SaveUser(st: State, user: UserRow): (r: (State, bool))
    ensures r.1 <==> user.username !in st.users
    ensures r.1 ==> r.0 == st.(users := st.users[user.username := user])
    ensures !r.1 ==> r.0 == st
  {
    if user.username in st.users then (st, false)
    else (st.(users := st.users[user.username := user]), true)
  }

  /** `setAdmin`: update the flag of the matching row; report whether one matched. */
  function SetAdmin(st: State, username: string, admin: bool): (r: (State, bool))
    ensures r.1 <==> username in st.users
    ensures r.0.sessions == st.sessions
    ensures r.0.users.Keys == st.users.Keys
    ensures forall name :: name in st.users && name != username ==> r.0.users[name] == st.users[name]
    ensures r.1 ==> r.0.users[username] == st.users[username].(admin := admin)
  {
    if username in st.users then
      (st.(users := st.users[username := st.users[username].(admin := admin)]), true)
    else (st, false)
  }

  /** `queryUsers`: every user row whose admin flag equals `admin`. */
  function QueryUsers(st: State, admin: bool): (r: set<UserRow>)
    ensures forall u :: u in r <==> u in st.users.Values && u.admin == admin
  {
    set name | name in st.users && st.users[name].admin == admin :: st.users[name]
  }

  /** `clearUsers`: empty the users table; sessions are not touched. */
  function ClearUsers(st: State): (r: State)
    ensures r.users == map[] && r.sessions == st.sessions
  {
    st.(users := map[])
  }

  /**
   `generateInitialUsers`: insert the admin account; a primary-key clash is
   swallowed, so an existing "admin" row is left exactly as it is.
   */
  function GenerateInitialUsers(st: State, adminHash: string): (r: State)
    ensures ADMIN_NAME !in st.users ==> r.users == st.users[ADMIN_NAME := InitialAdmin(adminHash)]
    ensures ADMIN_NAME in st.users ==> r == st
    ensures r.sessions == st.sessions
  {
    SaveUser(st, InitialAdmin(adminHash)).0
  }

  // ------------------------------------------------------------- sessions

  /** `storeSession`: insert, or on a key clash update, the row for `token`. */
  function StoreSession(st: State, token: Token, username: string, expiration: Time): (r: State)
    ensures r.users == st.users
    ensures r.sessions.Keys == st.sessions.Keys + {token}
    ensures r.sessions[token] == SessionRow(username, expiration)
    ensures forall t :: t in st.sessions && t != token ==> r.sessions[t] == st.sessions[t]
  {
    st.(sessions := st.sessions[token := SessionRow(username, expiration)])
  }

  /** `getSession` of the store: the raw row, expired or not. */
  function GetSession(st: State, token: Token): (r: Option<SessionRow>)
    ensures r.Some? <==> token in st.sessions
    ensures r.Some? ==> r.value == st.sessions[token]
  {
    if token in st.sessions then Some(st.sessions[token]) else None
  }

  /** `removeSession`: delete the row for `token`; report whether one was deleted. */
  function RemoveSession(st: State, token: Token): (r: (State, bool))
    ensures r.1 <==> token in st.sessions
    ensures r.0.users == st.users
    ensures r.0.sessions.Keys == st.sessions.Keys - {token}
    ensures forall t :: t in r.0.sessions ==> r.0.sessions[t] == st.sessions[t]
  {
    (st.(sessions := st.sessions - {token}), token in st.sessions)
  }

  /** `removeSessions`: delete every row whose expiration is at or before `cutoff`. */
  function RemoveSessions(st: State, cutoff: Time): (r: State)
    ensures r.users == st.users
    ensures forall t :: t in r.sessions <==> t in st.sessions && st.sessions[t].expiration > cutoff
    ensures forall t :: t in r.sessions ==> r.sessions[t] == st.sessions[t]
  {
    st.(sessions := map t | t in st.sessions && st.sessions[t].expiration > cutoff :: st.sessions[t])
  }

  // --------------------------------------------------------------- lemmas

  /** Every store operation keeps the users table keyed by username. */
  lemma OperationsPreserveValid(st: State, user: UserRow, name: string, flag: bool,
                                token: Token, expiration: Time, adminHash: string)
    requires Valid(st)
    ensures Valid(SaveUser(st, user).0)
    ensures Valid(SetAdmin(st, name, flag).0)
    ensures Valid(ClearUsers(st))
    ensures Valid(GenerateInitialUsers(st, adminHash))
    ensures Valid(StoreSession(st, token, name, expiration))
    ensures Valid(RemoveSession(st, token).0)
    ensures Valid(RemoveSessions(st, expiration))
  {
  }

  /** A saved user is found again by its exact name, and the name cannot be saved twice. */
  lemma SaveThenGetDetails(st: State, user: UserRow, other: UserRow)
    requires user.username !in st.users
    requires other.username == user.username
    ensures GetDetails(SaveUser(st, user).0, user.username) == Some(user)
    ensures SaveUser(SaveUser(st, user).0, other) == (SaveUser(st, user).0, false)
  {
  }

  /** A promotion shows up in the admin query and a demotion takes the user out of it. */
  lemma SetAdminThenQuery(st: State, username: string, admin: bool)
    requires Valid(st)
    requires username in st.users
    ensures st.users[username].(admin := admin) in QueryUsers(SetAdmin(st, username, admin).0, admin)
    ensures forall u :: u in QueryUsers(SetAdmin(st, username, admin).0, !admin) ==> u.username != username
  {
  }

  /** The users that are and are not admins partition the users table. */
  lemma QueryUsersPartition(st: State)
    ensures QueryUsers(st, true) !! QueryUsers(st, false)
    ensures QueryUsers(st, true) + QueryUsers(st, false) == st.users.Values
  {
  }

  /** Re-seeding the admin account is idempotent. */
  lemma GenerateInitialUsersIdempotent(st: State, adminHash: string, adminHash2: string)
    ensures GenerateInitialUsers(GenerateInitialUsers(st, adminHash), adminHash2)
         == GenerateInitialUsers(st, adminHash)
  {
  }

  /** Storing the same session twice is the same as storing it once, and the row reads back. */
  lemma StoreSessionUpsert(st: State, token: Token, username: string, expiration: Time)
    ensures StoreSession(StoreSession(st, token, username, expiration), token, username, expiration)
         == StoreSession(st, token, username, expiration)
    ensures GetSession(StoreSession(st, token, username, expiration), token)
         == Some(SessionRow(username, expiration))
  {
  }

  /** After a removal the token is gone, so a second removal reports false. */
  lemma RemoveSessionTwice(st: State, token: Token)
    ensures GetSession(RemoveSession(st, token).0, token) == None
    ensures RemoveSession(RemoveSession(st, token).0, token) == (RemoveSession(st, token).0, false)
  {
    var once := RemoveSession(st, token).0;
    assert once.sessions - {token} == once.sessions;
  }

  /** Two sweeps amount to one sweep at the later cutoff. */
  lemma RemoveSessionsCompose(st: State, a: Time, b: Time)
    ensures RemoveSessions(RemoveSessions(st, a), b) == RemoveSessions(st, if a <= b then b else a)
  {
  }
}
