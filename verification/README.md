# Account and session core of the rump REST backend, in Dafny

This project models the authentication core of a small REST backend. That core has four parts:

- the credential store: a users table keyed by username and a sessions table keyed by token;
- the account layer built on the store: login with token issuance, registration, session lookup with sliding renewal, user lookup, logout, reset, and one sweep of the expiry reaper;
- the request middleware: the token decoder, the login guard and the admin guard;
- the access rules of the posts, accounts and `me` routers.

The model is functional. A `Store.State` is two finite maps. Each operation takes a state and returns the next state together with its result. The environment comes in as parameters:

- the clock is `now`, an integer count of milliseconds;
- the password hasher is a `verify` function plus the hash value handed to `Register`;
- the e-mail validator is an `isEmail` predicate;
- the uuid generator is the sequence `candidates` of tokens it would produce, in order;
- the posts and images services are represented by the outcome of each call (`Fetch`, `removed`, `created`).

Sessions follow a per-token life cycle (`Accounts.TokenState`):

1. absent;
2. live, while `expiration > now`;
3. expired, when the row is still present but `expiration <= now`;
4. reaped, when the sweep deletes the row.

An expired row is treated as absent by `getSession` but stays in the table until the reaper removes it.

Some route behaviour is modelled as written even though the route's tests expect otherwise:

- `decoder` has no try/catch. A throwing lookup therefore rejects the middleware without calling `next` and without a response (`Session.Decoder`, case `Threw`). The tests expect a 500.
- `GET /posts/:id` answers 404 to every request without a session, even for an approved post (`PostsRoutes.ShowPostNeedsSession`). The tests expect 200.
- `DELETE /posts/:id` sets 404 for a missing post but never sends it (`Unsent(404)`).
- `POST /posts` sends no response after a successful creation (`Unsent(200)`).
- `POST /posts` reads `req.files` before checking the title. A body that is not multipart leaves it unset, so the request throws and gets no response instead of the 422 (`PostsRoutes.CreatePost` with no uploads).
- `PUT /me` treats an empty token as a failed login, because it tests `!token`.
- `PUT /me` has no try/catch either, so a throwing `login` sends no response. The tests expect a 500. Store calls never fail in the model, so this path is not modelled.
- `GET /posts/:id` answers 500 for every error the posts service throws. The tests expect the service's own status, such as 422, to be passed through. The model follows the code: `Failed` gives 500.
- `POST /accounts` sends the plain text "Invalid data" for an incomplete body. The tests expect the JSON object `{error: 'Invalid data'}`. The model follows the code (`AccountsRoutes.CreateAccount`).
- `GET /accounts/:username` deletes the e-mail for every viewer without an admin session, anonymous ones included. The tests expect an anonymous request to see it. The model follows the code (`AccountsRoutes.ShowAccount`).
- `PUT /posts/:id/approved` and the other proxied post routes sit behind the login guard before the admin guard, so an anonymous request gets 401. The tests expect 403. The model follows the code (`PostsRoutes.Proxied`).
- The 500 answers of the accounts router carry the message "Internal error". The tests expect "Internal server error". Storage failures are not modelled, so neither message appears in the model.

`routes/v1/accounts.ts` imports `register` and `getUser` from `src/data/accounts`, which is not part of this model. Its routes are modelled on `Accounts.Register` and `Accounts.GetUser`.

## Model

| member | source | states |
|---|---|---|
| Base.Lower | src/auth/accounts.ts:56-60 | lower-casing keeps the length, turns each letter 'A'..'Z' into its lower-case counterpart and changes nothing else |
| Base.LowerIdempotent | src/auth/accounts.ts:56-60 | lower-casing an already lower-cased name changes nothing, so a stored username reads back as its own lower-cased form |
| Base.SameIgnoringCaseIsEquivalence | src/auth/accounts.ts:27-60 | "the same name ignoring case" is reflexive, symmetric and transitive |
| Base.SameIgnoringCaseExactly | src/auth/accounts.ts:27-60 | two names lower-case alike iff they have equal length and agree position by position up to the case of a letter |
| Store.GetDetails | src/auth/db/db.ts:107-121 | the lookup finds a row exactly when that exact username is a key; no case folding at this layer |
| Store.SaveUser | src/auth/db/db.ts:141-156 | true iff the username was free; then the row is inserted; otherwise the store is unchanged |
| Store.SetAdmin | src/auth/db/db.ts:158-164 | true iff a row matched; only that row's admin flag changes; keys and sessions are untouched |
| Store.QueryUsers | src/auth/db/db.ts:123-139 | returns exactly the stored users whose admin flag equals the argument |
| Store.ClearUsers | src/auth/db/db.ts:76-78 | the users table becomes empty and sessions are untouched |
| Store.GenerateInitialUsers | src/auth/db/db.ts:60-74 | inserts the admin account if "admin" is free; with "admin" taken, the clash is swallowed and the store is unchanged |
| Store.StoreSession | src/auth/db/db.ts:166-181 | upsert: the token maps to the given username and expiration; other sessions and the users are unchanged |
| Store.GetSession | src/auth/db/db.ts:183-193 | returns the raw row for the token, expired or not, or none |
| Store.RemoveSession | src/auth/db/db.ts:195-202 | true iff a row existed; afterwards the token has no row and the other rows are unchanged |
| Store.RemoveSessions | src/auth/db/db.ts:204-206 | keeps exactly the rows with expiration after the cutoff, unchanged |
| Store.OperationsPreserveValid | src/auth/db/db.ts:35-47 | every store operation keeps the users table keyed by each row's own username |
| Store.SaveThenGetDetails | src/auth/db/db.ts:107-156 | a saved user reads back by name, and a second save under the same name fails and changes nothing |
| Store.SetAdminThenQuery | src/auth/db/db.ts:123-164 | after `setAdmin(name, f)` the user is among the users with flag f and not among those with the other flag |
| Store.QueryUsersPartition | src/auth/db/db.ts:123-139 | the admin and non-admin queries are disjoint and together give all users |
| Store.GenerateInitialUsersIdempotent | src/auth/db/db.ts:60-74 | seeding the admin twice is the same as seeding once |
| Store.StoreSessionUpsert | src/auth/db/db.ts:166-193 | storing a session twice equals storing it once, and the row reads back |
| Store.RemoveSessionTwice | src/auth/db/db.ts:183-202 | after a removal the token reads as absent and a second removal returns false |
| Store.RemoveSessionsCompose | src/auth/db/db.ts:204-206 | two sweeps equal one sweep at the later cutoff |
| Accounts.FirstUnused | src/auth/accounts.ts:39-46 | the retry loop stops at a candidate with no session row, and every earlier candidate has one |
| Accounts.PickToken | src/auth/accounts.ts:39-46 | the loop over uuid candidates returns the first candidate with no session row |
| Accounts.Login | src/auth/accounts.ts:27-52 | no token iff the lower-cased user is missing or the password fails, and then the store is unchanged; otherwise a token with no prior row now maps to the lower-cased username, expiring two weeks after `now` |
| Accounts.Register | src/auth/accounts.ts:54-69 | an invalid e-mail gives false with no change; otherwise true iff the lower-cased username is free, storing lower-cased username and e-mail with admin false |
| Accounts.GetSession | src/auth/accounts.ts:71-96 | a missing or expired row gives none and no change; a live row is renewed to `now` + two weeks even if its user is gone; a view (no hash, no e-mail) is returned iff the user exists |
| Accounts.GetUser | src/auth/accounts.ts:98-112 | finds the lower-cased name; returns its fields without the password hash, or none |
| Accounts.ClearUsers | src/auth/accounts.ts:114-117 | afterwards the users table holds only the seeded admin; sessions are untouched |
| Accounts.Logout | src/auth/accounts.ts:119-121 | true iff a row was removed; afterwards the token is absent and the other sessions are unchanged |
| Accounts.Sweep | src/auth/accounts.ts:126-135 | one reaper tick reaps every expired token and keeps every live one unchanged |
| Accounts.LoginIgnoresCase | src/auth/accounts.ts:27-43 | logins under two usernames that differ only in letter case behave identically |
| Accounts.SuccessiveLoginsDistinct | src/auth/accounts.ts:36-48 | a second successful login gets a token different from the first one |
| Accounts.RegisterThenLogin | src/auth/accounts.ts:27-69 | after registration, login under any letter case of the name with the right password succeeds, and the account is not an admin |
| Accounts.RegisterTwiceFails | src/auth/accounts.ts:54-69 | a name already registered in any letter case cannot be registered again, and the store is unchanged |
| Accounts.LoginThenGetSession | src/auth/accounts.ts:27-96 | within two weeks of login the token resolves to the lower-cased username; from two weeks on it is absent |
| Accounts.KeepAlive | src/auth/accounts.ts:74-80 | lookups each less than two weeks after the previous one all succeed, however long the series runs |
| Accounts.RenewalOutlivesFirstExpiry | src/auth/accounts.ts:74-80 | a renewed session is still live after its first two-week expiry has passed |
| Accounts.LogoutThenLookup | src/auth/accounts.ts:71-121 | after logout the token finds no session and a second logout returns false |
| Accounts.DanglingSessionInvisible | src/auth/accounts.ts:71-117 | after a reset, a live session of a removed user yields no view |
| Accounts.SweepIsUnobservable | src/auth/accounts.ts:126-135 | a sweep leaves no expired row, and a lookup returns the same view before and after it |
| Session.Decoder | src/session.ts:4-15 | a session is set only when a header is present and the lookup returned one; a throwing lookup rejects without calling `next` |
| Session.DecodeRequest | src/session.ts:4-15 | against the store the decoder always proceeds; with a header its session is the account lookup's result |
| Session.Guard | src/session.ts:17-25 | `next` iff a session with a non-empty username is present; otherwise exactly a 401 "Unauthorised" |
| Session.AdminGuard | src/session.ts:27-35 | `next` iff a session with the admin flag is present; the username is not checked; otherwise exactly a 403 "Forbidden" |
| Session.AdminGuardAfterDecoder | src/session.ts:27-35 | behind the decoder, the admin guard admits iff the token is live and its user exists and is an admin |
| Session.GuardAfterDecoder | src/session.ts:17-25 | behind the decoder, the login guard admits iff the token is live and its user exists with a non-empty name |
| Session.NoHeaderIsRefused | src/session.ts:4-35 | a request without a token header is refused by both guards |
| PostsRoutes.FirstSegment | src/routes/v1/posts.ts:18-20 | the result is the slash-free prefix of the mime type that ends at the first '/' or at the end |
| PostsRoutes.AcceptsUploadExactly | src/routes/v1/posts.ts:17-21 | the upload filter accepts exactly "image" and the mime types that start with "image/" |
| PostsRoutes.Staged | src/routes/v1/posts.ts:15-22 | every accepted upload is staged as many times as it was uploaded, and no rejected one is |
| PostsRoutes.StagedCountsImages | src/routes/v1/posts.ts:15-22 | the number of staged files is the number of uploads whose mime type is "image" or starts with "image/" |
| PostsRoutes.ListPosts | src/routes/v1/posts.ts:26-38 | answers an empty list without forwarding iff `approved` is the boolean false and there is no session or a non-admin one |
| PostsRoutes.ListPostsForwardsStringFalse | src/routes/v1/posts.ts:31-36 | as written, an anonymous `?approved=false` string is forwarded to the posts service |
| PostsRoutes.ListPostsIntended | src/routes/v1/posts.ts:31-36 | the corrected rule answers locally, with the empty list, iff the boolean or the string "false" asks for unapproved posts and there is no session or a non-admin one |
| PostsRoutes.ListPostsIntendedGuardsUnapproved | src/routes/v1/posts.ts:31-36 | under the corrected rule, a request for unapproved posts is forwarded iff an admin makes it; it agrees with the code on all but the string "false" |
| PostsRoutes.ShowPost | src/routes/v1/posts.ts:40-57 | 200 with the post iff it exists, a session is present, and the post is approved or the session is admin or its author; else 404, or 500 on a service failure |
| PostsRoutes.ShowPostNeedsSession | src/routes/v1/posts.ts:47-51 | without a session even an approved post is 404 |
| PostsRoutes.ShowPostAfterDecoder | src/routes/v1/posts.ts:40-52 | behind the decoder, an existing post is shown iff the token is live and its user exists, and, if unapproved, that user is an admin or its author |
| PostsRoutes.Proxied | src/routes/v1/posts.ts:65-123 | a proxied route is reached iff a session with a non-empty username and the admin flag is present; a missing session or one without a name gives 401, a named non-admin session 403 |
| PostsRoutes.DeleteWith | src/routes/v1/posts.ts:67-89 | deletes iff the post exists and the forbid rule does not fire; a missing post leaves an unsent 404; success is sent only if deletion completed; a failed lookup or deletion gives 500 |
| PostsRoutes.DeletePost | src/routes/v1/posts.ts:77-80 | as written: deletes iff the post exists and the session is its author or not an admin; 403 iff someone else's post and the session is admin |
| PostsRoutes.DeletePostIntended | src/routes/v1/posts.ts:77-80 | corrected: deletes iff the post exists and the session is its author or an admin |
| PostsRoutes.DeleteRuleInverted | src/routes/v1/posts.ts:77-80 | on someone else's post, the code lets exactly the non-admins delete, and the corrected rule exactly the admins |
| PostsRoutes.DeleteOwnPost | src/routes/v1/posts.ts:77-84 | both rules let an author delete their own post |
| PostsRoutes.CreatePost | src/routes/v1/posts.ts:91-119 | a body that is not multipart leaves `req.files` unset, so the file loop throws and no request or response follows; otherwise a missing or empty title or content gives 422 and no creation request; otherwise the request carries title, content, the session's username and the number of staged images; a failed creation or upload gives 500, success sends nothing |
| PostsRoutes.CreatePostCountsImages | src/routes/v1/posts.ts:91-113 | a complete multipart post is sent with one image counted for every upload of an image mime type |
| AccountsRoutes.CreateAccount | src/routes/v1/accounts.ts:7-40 | an incomplete body gives 422 "Invalid data" without registering; a failed registration gives 422 "Bad details"; success iff registration succeeded |
| AccountsRoutes.CreateAccountSucceedsExactly | src/routes/v1/accounts.ts:14-33 | sign-up succeeds iff the body is complete, the e-mail is valid and the username is free in any case; the account is not an admin; a failure changes nothing |
| AccountsRoutes.ShowAccount | src/routes/v1/accounts.ts:42-57 | 404 iff the user is unknown; otherwise the stored fields, with the e-mail present iff the session is an admin |
| AccountsRoutes.RedactionTouchesOnlyEmail | src/routes/v1/accounts.ts:53-57 | any two viewers see the same profile apart from the e-mail |
| MeRoutes.PutMe | src/routes/v1/me.ts:7-30 | a missing credential gives 422 without a login; a failed login gives 401; otherwise 200 with exactly the token login issued |
| MeRoutes.GetMe | src/routes/v1/me.ts:32-34 | 200 with the caller's own session iff the guard admits it, else 401 |
| MeRoutes.DeleteMe | src/routes/v1/me.ts:36-42 | behind the guard, logs out the session's own token and answers success; a refused request changes nothing |
| MeRoutes.SignOutEndsSession | src/routes/v1/me.ts:36-42 | signing out with a live token removes exactly that session, which then cannot be looked up; without a header the answer is 401 and nothing changes |
| MeRoutes.SignInThenShowSession | src/routes/v1/me.ts:7-34 | for two weeks, the token from sign-in opens `GET /me` on the signed-in user's own lower-cased session |

## Findings

| source | as written | input that shows it | evidently intended | confidence | as-written member | corrected member |
|---|---|---|---|---|---|---|
| src/routes/v1/posts.ts:78 | `post.author !== session.username && session.admin` forbids the delete | a non-admin deletes another user's post; an admin is refused with 403 | only the author or an admin may delete (the comment on line 77, and the `!session.admin` condition `GET /posts/:id` uses on line 48) | high, not executed | PostsRoutes.DeleteRuleInverted | PostsRoutes.DeletePostIntended |
| src/routes/v1/posts.ts:31 | `query.approved === false` only matches a boolean | `GET /posts?approved=false` without a session: the query value is the string "false", so the request is forwarded | the string "false" also asks for unapproved posts (the route test sends the string and expects an empty list) | medium, not executed | PostsRoutes.ListPostsForwardsStringFalse | PostsRoutes.ListPostsIntended |

## Left out

- SQL, the knex query builder, the sqlite/Postgres connection settings, `initDb` and table creation: replaced by two finite maps. The users primary key is the invariant `Store.Valid`.
- Storage failures: store calls never fail in the model. The 500 answers that the accounts routes give when `register` or `getUser` throws are not modelled. The posts routes' 500 answers are modelled, as service-call outcomes.
- bcrypt: hashing is a value passed to `Register` and to `GenerateInitialUsers`; comparison is the `verify` parameter.
- email-validator: the `isEmail` parameter.
- uuid generation and `convertUuid`: tokens are compared as text. Two spellings that parse to the same 16 bytes are different tokens in the model.
- Accounts.Login: requires that some supplied candidate token is unused whenever the credentials are valid. The source loops until the generator yields one, and does not terminate otherwise.
- moment/Date: time is an integer in milliseconds. Two weeks is a fixed 1 209 600 000 ms; a daylight-saving shift inside the fortnight is not modelled.
- `toLowerCase`: ASCII letters only.
- The perpetual reaper loop, its 60-second timer and its swallowed errors: only one sweep (`Accounts.Sweep`) is modelled.
- The check-then-insert race in `saveUser` and the `Promise.all` interleaving in `getSession`: the model is sequential. The renewal and the user read see the same prior state.
- PostsRoutes.Staged: the contract fixes how many times each file is staged but not their order. Only the count reaches the posts service, and the image paths are handed to the images client, which is not modelled.
- Store.QueryUsers: returns a set. The row order of the database result is not modelled.
- `setAdmin`/`getAdmins` at the account layer: `accounts.ts` does not export them, so only the store operations are modelled.
- The admin flag is a boolean, as Postgres returns it. The sqlite driver returns 0/1, which the strict `session.admin === false` test in `GET /posts` would not match.
- `src/data/db/db.ts` and `src/data/accounts`: a near copy of the auth store, and a module that is not part of this model.
- The backend posts, votes and images clients; multer's disk staging; the forwarding of other post routes once both guards admit them (only the guards are modelled, as `PostsRoutes.Proxied`); `app.ts`, `server.ts` and the route index files: HTTP and file I/O.
- multer's own parsing: the uploads reach `PostsRoutes.CreatePost` as a list of parts, or as nothing when the body is not multipart, which is when multer leaves `req.files` unset.
- Request-body fields are absent or strings. Other JSON values and their truthiness are not modelled.
