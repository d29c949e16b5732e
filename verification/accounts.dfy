/**
 The account layer: login with token issuance, registration, session lookup
 with sliding renewal, user lookup, logout, reset and one sweep of the expiry
 reaper. Usernames are lower-cased here before they reach the store, which
 makes accounts case-insensitive.

 Everything the layer takes from its environment is a parameter: the clock
 (`now`), the password hasher (`verify`, and the hash value handed to
 `Register`), the e-mail validator (`isEmail`) and the uuid generator (the
 sequence `candidates` of tokens it would produce, in order).
 */
module Accounts {
  import opened Base
  import Store

  type Token = Store.Token
  type Time = Store.Time

  /** How long a session lives after it is issued or renewed: two weeks, in milliseconds. */
  const TWO_WEEKS: int := 14 * 24 * 60 * 60 * 1000

  datatype RegisterDetails = RegisterDetails(
    username: string,
    password: string,
    firstName: string,
    lastName: string,
    email: string)

  /** What `getUser` returns: the user without the password hash. */
  datatype PublicUser = PublicUser(
    username: string,
    firstName: string,
    lastName: string,
    email: string,
    admin: bool)

  /** What `getSession` returns: the session joined with its user, without hash or e-mail. */
  datatype AuthSession = AuthSession(
    username: string,
    firstName: string,
    lastName: string,
    admin: bool,
    token: Token)

  // ------------------------------------------------------- token issuance

  /** Some candidate token is not in use. */
  predicate HasUnused(inUse: set<Token>, candidates: seq<Token>)
  {
    exists k :: 0 <= k < |candidates| && candidates[k] !in inUse
  }

  lemma HasUnusedTail(inUse: set<Token>, candidates: seq<Token>)
    requires HasUnused(inUse, candidates)
    requires candidates[0] in inUse
    ensures HasUnused(inUse, candidates[1..])
  {
    var k :| 0 <= k < |candidates| && candidates[k] !in inUse;
    assert candidates[1..][k - 1] == candidates[k];
  }

  /**
   The position the retry loop of `login` stops at: the first candidate that
   has no session row, every earlier candidate having one.
   */
  function FirstUnused(inUse: set<Token>, candidates: seq<Token>): (i: nat)
    requires HasUnused(inUse, candidates)
    ensures i < |candidates| && candidates[i] !in inUse
    ensures forall j :: 0 <= j < i ==> candidates[j] in inUse
    decreases |candidates|
  {
    if candidates[0] !in inUse then 0
    else
      HasUnusedTail(inUse, candidates);
      1 + FirstUnused(inUse, candidates[1..])
  }

  /** The retry loop itself: draw candidates until one has no session row. */
  method PickToken(inUse: set<Token>, candidates: seq<Token>) returns (token: Token)
    requires HasUnused(inUse, candidates)
    ensures token == candidates[FirstUnused(inUse, candidates)]
  {
    var i := 0;
    while candidates[i] in inUse
      invariant i <= FirstUnused(inUse, candidates)
      invariant forall j :: 0 <= j < i ==> candidates[j] in inUse
      decreases |candidates| - i
    {
      i := i + 1;
    }
    token := candidates[i];
  }

  // ---------------------------------------------------------------- login

  /** The lower-cased username names a user whose hash the password verifies against. */
  predicate CredentialsValid(st: Store.State, username: string, password: string,
                             verify: (string, string) -> bool)
  {
    Lower(username) in st.users && verify(password, st.users[Lower(username)].passwordHash)
  }

  /**
   `login`. The source loops until the uuid generator produces an unused
   token; the model requires that one of the supplied candidates is unused
   whenever the loop is reached.
   */
  function Login(st: Store.State, username: string, password: string, now: Time,
                 candidates: seq<Token>, verify: (string, string) -> bool): (r: (Store.State, Option<Token>))
    requires CredentialsValid(st, username, password, verify) ==> HasUnused(st.sessions.Keys, candidates)
    ensures r.1.None? <==> !CredentialsValid(st, username, password, verify)
    ensures r.1.None? ==> r.0 == st
    ensures r.1.Some? ==> r.1.value !in st.sessions
    ensures r.1.Some? ==> r.1.value == candidates[FirstUnused(st.sessions.Keys, candidates)]
    ensures r.1.Some? ==> r.0.users == st.users
    ensures r.1.Some? ==> r.0.sessions == st.sessions[r.1.value := Store.SessionRow(Lower(username), now + TWO_WEEKS)]
  {
    match Store.GetDetails(st, Lower(username))
    case None => (st, None)
    case Some(details) =>
      if verify(password, details.passwordHash) then
        var token := candidates[FirstUnused(st.sessions.Keys, candidates)];
        (Store.StoreSession(st, token, Lower(username), now + TWO_WEEKS), Some(token))
      else (st, None)
  }

  // --------------------------------------------------------- registration

  /**
   `register`. `passwordHash` is the hasher's output for `details.password`.
   The validator sees the e-mail as typed; the stored copy is lower-cased.
   */
  function Register(st: Store.State, details: RegisterDetails, passwordHash: string,
                    isEmail: string -> bool): (r: (Store.State, bool))
    ensures !isEmail(details.email) ==> r == (st, false)
    ensures isEmail(details.email) ==> (r.1 <==> Lower(details.username) !in st.users)
    ensures !r.1 ==> r.0 == st
    ensures r.1 ==> r.0.sessions == st.sessions
    ensures r.1 ==> r.0.users == st.users[Lower(details.username) :=
      Store.UserRow(Lower(details.username), passwordHash, details.firstName, details.lastName,
                    Lower(details.email), false)]
  {
    var user := Store.UserRow(Lower(details.username), passwordHash, details.firstName,
                              details.lastName, Lower(details.email), false);
    if !isEmail(details.email) then (st, false)
    else Store.SaveUser(st, user)
  }

  // ------------------------------------------------------------- sessions

  /** The life of one token at time `now`: no row, a live row, or a row past its expiration. */
  datatype TokenState = Absent | Live | Expired

  function StateOf(st: Store.State, token: Token, now: Time): TokenState
  {
    if token !in st.sessions then Absent
    else if st.sessions[token].expiration > now then Live
    else Expired
  }

  /**
   `getSession`. A row at or past its expiration is treated as absent and left
   in place. A live row is renewed to `now + TWO_WEEKS` whether or not its
   user still exists; the view is returned only when the user does.
   */
  function GetSession(st: Store.State, token: Token, now: Time): (r: (Store.State, Option<AuthSession>))
    ensures StateOf(st, token, now) != Live ==> r == (st, None)
    ensures StateOf(st, token, now) == Live ==>
      r.0 == Store.StoreSession(st, token, st.sessions[token].username, now + TWO_WEEKS)
    ensures r.1.Some? <==> StateOf(st, token, now) == Live && st.sessions[token].username in st.users
    ensures r.1.Some? ==>
      var user := st.users[st.sessions[token].username];
      && r.1.value.token == token
      && r.1.value.username == Lower(user.username)
      && r.1.value.firstName == user.firstName
      && r.1.value.lastName == user.lastName
      && r.1.value.admin == user.admin
  {
    match Store.GetSession(st, token)
    case None => (st, None)
    case Some(row) =>
      if row.expiration > now then
        var renewed := Store.StoreSession(st, token, row.username, now + TWO_WEEKS);
        match Store.GetDetails(st, row.username)
        case None => (renewed, None)
        case Some(details) =>
          (renewed, Some(AuthSession(Lower(details.username), details.firstName, details.lastName,
                                     details.admin, token)))
      else (st, None)
  }

  // ---------------------------------------------------------------- users

  /** `getUser`: look up the lower-cased name and hide the password hash. */
  function GetUser(st: Store.State, username: string): (r: Option<PublicUser>)
    ensures r.Some? <==> Lower(username) in st.users
    ensures r.Some? ==>
      var user := st.users[Lower(username)];
      r.value == PublicUser(user.username, user.firstName, user.lastName, user.email, user.admin)
  {
    match Store.GetDetails(st, Lower(username))
    case None => None
    case Some(details) =>
      Some(PublicUser(details.username, details.firstName, details.lastName, details.email, details.admin))
  }

  /** `clearUsers`: wipe the users table and seed the admin account again. */
  function ClearUsers(st: Store.State, adminHash: string): (r: Store.State)
    ensures r.users == map[Store.ADMIN_NAME := Store.InitialAdmin(adminHash)]
    ensures r.sessions == st.sessions
  {
    Store.GenerateInitialUsers(Store.ClearUsers(st), adminHash)
  }

  /** `logout`: delete the session row; true only if one was deleted. */
  function Logout(st: Store.State, token: Token): (r: (Store.State, bool))
    ensures r.1 <==> token in st.sessions
    ensures token !in r.0.sessions
    ensures r.0.users == st.users
    ensures forall t :: t != token ==> (t in r.0.sessions <==> t in st.sessions)
    ensures forall t :: t in r.0.sessions ==> r.0.sessions[t] == st.sessions[t]
  {
    Store.RemoveSession(st, token)
  }

  /** One tick of the expiry reaper: remove every session at or past `now`. */
  function Sweep(st: Store.State, now: Time): (r: Store.State)
    ensures r.users == st.users
    ensures forall t :: StateOf(r, t, now) == (if StateOf(st, t, now) == Live then Live else Absent)
    ensures forall t :: t in r.sessions ==> t in st.sessions && r.sessions[t] == st.sessions[t]
  {
    Store.RemoveSessions(st, now)
  }

  // --------------------------------------------------------------- lemmas

  /** Login does not depend on the letter case of the username. */
  lemma LoginIgnoresCase(st: Store.State, a: string, b: string, password: string, now: Time,
                         candidates: seq<Token>, verify: (string, string) -> bool)
    requires SameIgnoringCase(a, b)
    requires CredentialsValid(st, a, password, verify) ==> HasUnused(st.sessions.Keys, candidates)
    ensures CredentialsValid(st, b, password, verify) == CredentialsValid(st, a, password, verify)
    ensures Login(st, a, password, now, candidates, verify) == Login(st, b, password, now, candidates, verify)
  {
  }

  /** A second login, made after a first succeeded, gets a different token. */
  lemma SuccessiveLoginsDistinct(st: Store.State, username: string, password: string, now: Time,
                                 later: Time, c1: seq<Token>, c2: seq<Token>,
                                 verify: (string, string) -> bool)
    requires CredentialsValid(st, username, password, verify)
    requires HasUnused(st.sessions.Keys, c1)
    requires HasUnused(Login(st, username, password, now, c1, verify).0.sessions.Keys, c2)
    ensures var (st1, t1) := Login(st, username, password, now, c1, verify);
            var (_, t2) := Login(st1, username, password, later, c2, verify);
            t1.Some? && t2.Some? && t1.value != t2.value
  {
  }

  /**
   A registration followed by a login under any letter case of the same name
   with the same password succeeds, and the new account is not an admin.
   */
  lemma RegisterThenLogin(st: Store.State, details: RegisterDetails, passwordHash: string,
                          isEmail: string -> bool, verify: (string, string) -> bool,
                          name: string, now: Time, candidates: seq<Token>)
    requires isEmail(details.email)
    requires Lower(details.username) !in st.users
    requires verify(details.password, passwordHash)
    requires SameIgnoringCase(name, details.username)
    requires HasUnused(st.sessions.Keys, candidates)
    ensures Register(st, details, passwordHash, isEmail).1
    ensures CredentialsValid(Register(st, details, passwordHash, isEmail).0, name, details.password, verify)
    ensures Login(Register(st, details, passwordHash, isEmail).0, name, details.password, now,
                  candidates, verify).1.Some?
    ensures GetUser(Register(st, details, passwordHash, isEmail).0, name)
         == Some(PublicUser(Lower(details.username), details.firstName, details.lastName,
                            Lower(details.email), false))
  {
  }

  /** A name already taken, in any letter case, cannot be registered again. */
  lemma RegisterTwiceFails(st: Store.State, first: RegisterDetails, second: RegisterDetails,
                           h1: string, h2: string, isEmail: string -> bool)
    requires isEmail(first.email) && Lower(first.username) !in st.users
    requires SameIgnoringCase(first.username, second.username)
    ensures var st1 := Register(st, first, h1, isEmail).0;
            Register(st1, second, h2, isEmail) == (st1, false)
  {
  }

  /** Right after a login the token is live and resolves to the lower-cased username. */
  lemma LoginThenGetSession(st: Store.State, username: string, password: string, now: Time,
                            later: Time, candidates: seq<Token>, verify: (string, string) -> bool)
    requires Store.Valid(st)
    requires CredentialsValid(st, username, password, verify)
    requires HasUnused(st.sessions.Keys, candidates)
    requires now <= later
    ensures var (st1, t) := Login(st, username, password, now, candidates, verify);
            t.Some? &&
            (later < now + TWO_WEEKS ==>
               var view := GetSession(st1, t.value, later).1;
               view.Some? && view.value.username == Lower(username) && view.value.token == t.value) &&
            (later >= now + TWO_WEEKS ==> GetSession(st1, t.value, later) == (st1, None))
  {
  }

  /** The outcome of a series of lookups of one token at the given times. */
  function LookupSeries(st: Store.State, token: Token, times: seq<Time>): (r: (Store.State, bool))
    decreases |times|
  {
    if |times| == 0 then (st, true)
    else
      var (st1, view) := GetSession(st, token, times[0]);
      var (st2, ok) := LookupSeries(st1, token, times[1..]);
      (st2, view.Some? && ok)
  }

  /**
   Sliding expiration: as long as each lookup comes less than two weeks after
   the previous one, every lookup finds the session, however far the series
   runs past the first expiration.
   */
  lemma {:induction false} KeepAlive(st: Store.State, token: Token, times: seq<Time>)
    requires token in st.sessions
    requires st.sessions[token].username in st.users
    requires |times| > 0 ==> times[0] < st.sessions[token].expiration
    requires forall i, j :: 0 <= i && j == i + 1 && j < |times| ==> times[j] < times[i] + TWO_WEEKS
    ensures LookupSeries(st, token, times).1
    ensures token in LookupSeries(st, token, times).0.sessions
    ensures |times| > 0 ==> LookupSeries(st, token, times).0.sessions[token].expiration
                            == times[|times| - 1] + TWO_WEEKS
    decreases |times|
  {
    if |times| > 0 {
      var st1 := GetSession(st, token, times[0]).0;
      var rest := times[1..];
      assert forall i, j :: 0 <= i && j == i + 1 && j < |rest| ==> rest[j] < rest[i] + TWO_WEEKS by {
        forall i, j | 0 <= i && j == i + 1 && j < |rest|
          ensures rest[j] < rest[i] + TWO_WEEKS
        {
          assert rest[j] == times[j + 1] && rest[i] == times[i + 1];
        }
      }
      if |rest| > 0 {
        assert rest[0] == times[1];
      }
      KeepAlive(st1, token, rest);
    }
  }

  /**
   A lookup 1 ms before the first expiry renews the session, so a second lookup
   two weeks less 1 ms after it, well past the first expiry, still finds it.
   */
  lemma RenewalOutlivesFirstExpiry(st: Store.State, token: Token, now: Time)
    requires token in st.sessions
    requires st.sessions[token].expiration == now + TWO_WEEKS
    requires st.sessions[token].username in st.users
    ensures LookupSeries(st, token, [now + TWO_WEEKS - 1, now + 2 * TWO_WEEKS - 2]).1
  {
    KeepAlive(st, token, [now + TWO_WEEKS - 1, now + 2 * TWO_WEEKS - 2]);
  }

  /** After logout the token finds no session, and a second logout reports false. */
  lemma LogoutThenLookup(st: Store.State, token: Token, now: Time)
    ensures var st1 := Logout(st, token).0;
            GetSession(st1, token, now) == (st1, None) && Logout(st1, token) == (st1, false)
  {
    var st1 := Logout(st, token).0;
    assert st1.sessions - {token} == st1.sessions;
  }

  /** A live session whose user was removed by a reset is invisible, unless it is the admin's. */
  lemma DanglingSessionInvisible(st: Store.State, token: Token, adminHash: string, now: Time)
    requires token in st.sessions
    requires st.sessions[token].username != Store.ADMIN_NAME
    ensures GetSession(ClearUsers(st, adminHash), token, now).1 == None
  {
  }

  /** A sweep leaves no expired row behind, and a lookup cannot tell it happened. */
  lemma SweepIsUnobservable(st: Store.State, token: Token, now: Time)
    ensures StateOf(Sweep(st, now), token, now) != Expired
    ensures GetSession(Sweep(st, now), token, now).1 == GetSession(st, token, now).1
  {
    assert StateOf(Sweep(st, now), token, now) == (if StateOf(st, token, now) == Live then Live else Absent);
  }
}
