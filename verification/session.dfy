/**
 The request middleware: the decoder that turns the `x-access-token` header
 into a session, and the two guards the routers mount in front of protected
 handlers.
 */
module Session {
  import opened Base
  import Store
  import Accounts

  type AuthSession = Accounts.AuthSession

  /** How the call to `getSession` ended: it returned a value, or it threw. */
  datatype Lookup = Returned(session: Option<AuthSession>) | Threw

  /**
   What the decoder does with the request: hand it on with the session it set
   (or none), or end with its promise rejected. It has no try/catch, so a
   throwing lookup neither calls `next` nor sends a response.
   */
  datatype Decoded = Proceed(session: Option<AuthSession>) | Rejected

  /**
   `decoder`, given the header and how the lookup of that header ended
   (`lookup` is not consulted when the header is absent).
   */
  function Decoder(header: Option<string>, lookup: Lookup): (r: Decoded)
    ensures r.Rejected? <==> header.Some? && lookup.Threw?
    ensures r.Proceed? && r.session.Some? ==> header.Some? && lookup == Returned(r.session)
    ensures header.None? ==> r == Proceed(None)
    ensures header.Some? && lookup.Returned? ==> r == Proceed(lookup.session)
  {
    if header.None? then Proceed(None)
    else match lookup
      case Threw => Rejected
      case Returned(session) => Proceed(session)
  }

  /** The decoder run against the store: the lookup renews a live session. */
  function DecodeRequest(st: Store.State, header: Option<string>, now: Store.Time): (r: (Store.State, Decoded))
    ensures r.1.Proceed?
    ensures header.None? ==> r == (st, Proceed(None))
    ensures header.Some? ==> r == (Accounts.GetSession(st, header.value, now).0,
                                   Proceed(Accounts.GetSession(st, header.value, now).1))
  {
    if header.None? then (st, Decoder(header, Returned(None)))
    else
      var (st1, session) := Accounts.GetSession(st, header.value, now);
      (st1, Decoder(header, Returned(session)))
  }

  /** What a guard does: call `next`, or answer with an error status and message. */
  datatype GuardOutcome = Next | Deny(status: nat, error: string)

  /** `guard`: a session whose username is a non-empty string passes; anything else gets 401. */
  function Guard(session: Option<AuthSession>): (r: GuardOutcome)
    ensures r.Next? <==> session.Some? && |session.value.username| > 0
    ensures r.Deny? ==> r == Deny(401, "Unauthorised")
  {
    if session.Some? && |session.value.username| > 0 then Next
    else Deny(401, "Unauthorised")
  }

  /** `adminGuard`: a session with the admin flag set passes; anything else gets 403. */
  function AdminGuard(session: Option<AuthSession>): (r: GuardOutcome)
    ensures r.Next? <==> session.Some? && session.value.admin
    ensures r.Deny? ==> r == Deny(403, "Forbidden")
  {
    if session.Some? && session.value.admin then Next
    else Deny(403, "Forbidden")
  }

  /**
   Through the decoder, the admin guard admits a request exactly when its
   token is live and names a user whose row carries the admin flag.
   */
  lemma AdminGuardAfterDecoder(st: Store.State, token: Store.Token, now: Store.Time)
    ensures var session := DecodeRequest(st, Some(token), now).1.session;
            AdminGuard(session).Next? <==>
              && Accounts.StateOf(st, token, now) == Accounts.Live
              && st.sessions[token].username in st.users
              && st.users[st.sessions[token].username].admin
  {
  }

  /**
   Through the decoder, the login guard admits a request exactly when its
   token is live and names an existing user with a non-empty username.
   */
  lemma GuardAfterDecoder(st: Store.State, token: Store.Token, now: Store.Time)
    requires Store.Valid(st)
    ensures var session := DecodeRequest(st, Some(token), now).1.session;
            Guard(session).Next? <==>
              && Accounts.StateOf(st, token, now) == Accounts.Live
              && st.sessions[token].username in st.users
              && |st.sessions[token].username| > 0
  {
  }

  /** Without a token header, both guards refuse. */
  lemma NoHeaderIsRefused(st: Store.State, now: Store.Time)
    ensures var session := DecodeRequest(st, None, now).1.session;
            Guard(session) == Deny(401, "Unauthorised") && AdminGuard(session) == Deny(403, "Forbidden")
  {
  }
}
