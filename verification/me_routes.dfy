/**
 The `me` router: sign in for a token, show the caller's own session, and
 sign out of it. The two session routes run behind the login guard.
 */
module MeRoutes {
  import opened Base
  import Store
  import Accounts
  import Session

  datatype Body = Error(error: string) | TokenBody(token: Store.Token) | Success
                | SessionBody(session: Accounts.AuthSession)

  /** Both credentials are present and non-empty, and they verify. */
  predicate SignInReachesLoop(st: Store.State, username: Option<string>, password: Option<string>,
                              verify: (string, string) -> bool)
  {
    Truthy(username) && Truthy(password)
    && Accounts.CredentialsValid(st, username.value, password.value, verify)
  }

  /**
   `PUT /`: 422 when a credential is missing, 401 when login yields no token
   (or an empty one), otherwise the token.
   */
  function PutMe(st: Store.State, username: Option<string>, password: Option<string>, now: Store.Time,
                 candidates: seq<Store.Token>, verify: (string, string) -> bool): (r: (Store.State, Response<Body>))
    requires SignInReachesLoop(st, username, password, verify) ==>
               Accounts.HasUnused(st.sessions.Keys, candidates)
    ensures !Truthy(username) || !Truthy(password) ==>
              r == (st, Send(422, Error("username and password must be provided")))
    ensures Truthy(username) && Truthy(password) ==>
              r.0 == Accounts.Login(st, username.value, password.value, now, candidates, verify).0
    ensures r.1.status == 200 <==>
              SignInReachesLoop(st, username, password, verify)
              && |Accounts.Login(st, username.value, password.value, now, candidates, verify).1.value| > 0
    ensures r.1.status == 200 ==>
              r.1 == Send(200, TokenBody(Accounts.Login(st, username.value, password.value, now,
                                                        candidates, verify).1.value))
    ensures Truthy(username) && Truthy(password) && r.1.status != 200 ==>
              r.1 == Send(401, Error("Unauthorised"))
  {
    if !Truthy(username) || !Truthy(password) then
      (st, Send(422, Error("username and password must be provided")))
    else
      var (st1, token) := Accounts.Login(st, username.value, password.value, now, candidates, verify);
      if token.None? || |token.value| == 0 then (st1, Send(401, Error("Unauthorised")))
      else (st1, Send(200, TokenBody(token.value)))
  }

  function Denied(outcome: Session.GuardOutcome): Response<Body>
    requires outcome.Deny?
  {
    Send(outcome.status, Error(outcome.error))
  }

  /** `GET /` behind the login guard: the caller's own session. */
  function GetMe(session: Option<Accounts.AuthSession>): (r: Response<Body>)
    ensures r.status == 200 <==> Session.Guard(session).Next?
    ensures r.status == 200 ==> r == Send(200, SessionBody(session.value))
    ensures r.status != 200 ==> r == Send(401, Error("Unauthorised"))
  {
    var gate := Session.Guard(session);
    if gate.Deny? then Denied(gate) else Send(200, SessionBody(session.value))
  }

  /** `DELETE /` behind the login guard: log out the session's own token. */
  function DeleteMe(st: Store.State, session: Option<Accounts.AuthSession>): (r: (Store.State, Response<Body>))
    ensures Session.Guard(session).Deny? ==> r == (st, Send(401, Error("Unauthorised")))
    ensures Session.Guard(session).Next? ==>
              r == (Accounts.Logout(st, session.value.token).0, Send(200, Success))
  {
    var gate := Session.Guard(session);
    if gate.Deny? then (st, Denied(gate))
    else (Accounts.Logout(st, session.value.token).0, Send(200, Success))
  }

  /** A whole `DELETE /me` request: the decoder, then the guarded handler. */
  function SignOutRequest(st: Store.State, header: Option<string>, now: Store.Time): (r: (Store.State, Response<Body>))
  {
    var (st1, decoded) := Session.DecodeRequest(st, header, now);
    DeleteMe(st1, decoded.session)
  }

  /**
   Signing out with a live token of an existing user removes that token's
   session row and leaves every other session as it was; without a header
   the request is refused and nothing changes.
   */
  lemma SignOutEndsSession(st: Store.State, token: Store.Token, now: Store.Time)
    requires Store.Valid(st)
    requires Accounts.StateOf(st, token, now) == Accounts.Live
    requires st.sessions[token].username in st.users && |st.sessions[token].username| > 0
    ensures var (st1, response) := SignOutRequest(st, Some(token), now);
            && response == Send(200, Success)
            && token !in st1.sessions
            && st1.users == st.users
            && (forall t :: t != token ==> (t in st1.sessions <==> t in st.sessions))
            && Accounts.GetSession(st1, token, now).1 == None
    ensures SignOutRequest(st, None, now) == (st, Send(401, Error("Unauthorised")))
  {
  }

  /**
   The token handed out by `PUT /` opens `GET /` for the next two weeks, and
   the session shown is the signed-in user's.
   */
  lemma SignInThenShowSession(st: Store.State, username: string, password: string, now: Store.Time,
                              later: Store.Time, candidates: seq<Store.Token>,
                              verify: (string, string) -> bool)
    requires Store.Valid(st)
    requires |username| > 0 && |password| > 0
    requires Accounts.CredentialsValid(st, username, password, verify)
    requires Accounts.HasUnused(st.sessions.Keys, candidates)
    requires forall k :: 0 <= k < |candidates| ==> |candidates[k]| > 0
    requires now <= later < now + Accounts.TWO_WEEKS
    ensures var (st1, signedIn) := PutMe(st, Some(username), Some(password), now, candidates, verify);
            && signedIn.status == 200
            && signedIn.body.TokenBody?
            && var shown := GetMe(Session.DecodeRequest(st1, Some(signedIn.body.token), later).1.session);
               shown.status == 200
               && shown.body.session.username == Lower(username)
               && shown.body.session.token == signedIn.body.token
  {
  }
}
