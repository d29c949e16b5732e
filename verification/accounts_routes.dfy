/**
 The accounts router: sign-up with its required fields, and the public
 profile of a user, whose e-mail address only an admin may see.
 */
module AccountsRoutes {
  import opened Base
  import Store
  import Accounts

  /** A user as the profile route sends it; `email` is None once redacted. */
  datatype UserView = UserView(
    username: string,
    firstName: string,
    lastName: string,
    email: Option<string>,
    admin: bool)

  datatype Body = Text(text: string) | Error(error: string) | Success | Details(user: UserView)

  /** The fields of a sign-up request body. */
  datatype SignUp = SignUp(
    username: Option<string>,
    password: Option<string>,
    firstName: Option<string>,
    lastName: Option<string>,
    email: Option<string>)

  /** Every field is present and non-empty. */
  predicate Complete(body: SignUp)
  {
    && Truthy(body.username) && Truthy(body.password) && Truthy(body.firstName)
    && Truthy(body.lastName) && Truthy(body.email)
  }

  function DetailsOf(body: SignUp): Accounts.RegisterDetails
    requires Complete(body)
  {
    Accounts.RegisterDetails(body.username.value, body.password.value, body.firstName.value,
                             body.lastName.value, body.email.value)
  }

  /** `POST /`: refuse an incomplete body, otherwise register and report the outcome. */
  function CreateAccount(st: Store.State, body: SignUp, passwordHash: string,
                         isEmail: string -> bool): (r: (Store.State, Response<Body>))
    ensures !Complete(body) ==> r == (st, Send(422, Text("Invalid data")))
    ensures Complete(body) ==> r.0 == Accounts.Register(st, DetailsOf(body), passwordHash, isEmail).0
    ensures r.1 == Send(200, Success) <==>
      Complete(body) && Accounts.Register(st, DetailsOf(body), passwordHash, isEmail).1
    ensures Complete(body) && !Accounts.Register(st, DetailsOf(body), passwordHash, isEmail).1 ==>
      r.1 == Send(422, Error("Bad details"))
  {
    if !Complete(body) then (st, Send(422, Text("Invalid data")))
    else
      var (st1, success) := Accounts.Register(st, DetailsOf(body), passwordHash, isEmail);
      if !success then (st1, Send(422, Error("Bad details")))
      else (st1, Send(200, Success))
  }

  /**
   Sign-up succeeds exactly for a complete body with a valid e-mail whose
   username is free in any letter case, and the account it creates is not an
   admin.
   */
  lemma CreateAccountSucceedsExactly(st: Store.State, body: SignUp, passwordHash: string,
                                     isEmail: string -> bool)
    ensures var (st1, response) := CreateAccount(st, body, passwordHash, isEmail);
            && (response == Send(200, Success) <==>
                  Complete(body) && isEmail(body.email.value) && Lower(body.username.value) !in st.users)
            && (response == Send(200, Success) ==> !st1.users[Lower(body.username.value)].admin)
            && (response != Send(200, Success) ==> st1 == st)
  {
  }

  /** `GET /:username`: 404 for an unknown user; otherwise the profile, e-mail only for an admin. */
  function ShowAccount(st: Store.State, username: string, session: Option<Accounts.AuthSession>): (r: Response<Body>)
    ensures r.Send?
    ensures r.status == 200 <==> Lower(username) in st.users
    ensures r.status != 200 ==> r == Send(404, Error("Not found"))
    ensures r.status == 200 ==>
      var row := st.users[Lower(username)];
      && r.body.Details?
      && r.body.user.username == row.username
      && r.body.user.firstName == row.firstName
      && r.body.user.lastName == row.lastName
      && r.body.user.admin == row.admin
      && (r.body.user.email.Some? <==> session.Some? && session.value.admin)
      && (r.body.user.email.Some? ==> r.body.user.email.value == row.email)
  {
    match Accounts.GetUser(st, username)
    case None => Send(404, Error("Not found"))
    case Some(user) =>
      var email := if session.None? || !session.value.admin then None else Some(user.email);
      Send(200, Details(UserView(user.username, user.firstName, user.lastName, email, user.admin)))
  }

  /** Two viewers see the same profile apart from the e-mail field. */
  lemma RedactionTouchesOnlyEmail(st: Store.State, username: string,
                                  a: Option<Accounts.AuthSession>, b: Option<Accounts.AuthSession>)
    requires Lower(username) in st.users
    ensures ShowAccount(st, username, a).body.user.(email := None)
         == ShowAccount(st, username, b).body.user.(email := None)
  {
  }
}
