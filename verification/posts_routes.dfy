/**
 The access rules of the posts router: which uploads are staged, when a
 listing is answered locally with nothing, who may see a post, who may delete
 one, and what a new post must carry. The posts, votes and images services
 the router forwards to are represented only by the outcome of each call.
 */
module PostsRoutes {
  import opened Base
  import Store
  import Accounts
  import Session

  type AuthSession = Accounts.AuthSession

  /** A post as the posts service returns it; only the fields the rules read. */
  datatype Post = Post(id: string, author: string, approved: bool)

  /** A file part of a multipart upload. */
  datatype Upload = Upload(mimetype: string, path: string)

  /** The creation request sent to the posts service. */
  datatype NewPost = NewPost(title: string, content: string, author: string, numImages: nat)

  datatype Body = Error(error: string) | PostList(posts: seq<Post>) | PostBody(post: Post) | Success

  /** How the call to the posts service for one post ended. */
  datatype Fetch = Found(post: Post) | NoPost | Failed

  // --------------------------------------------------------- upload filter

  /** `s.split('/')[0]`: the text before the first '/', or all of `s` when it has none. */
  function FirstSegment(s: string): (r: string)
    ensures r <= s
    ensures '/' !in r
    ensures |r| < |s| ==> s[|r|] == '/'
    decreases |s|
  {
    if |s| == 0 || s[0] == '/' then ""
    else [s[0]] + FirstSegment(s[1..])
  }

  /** The upload `fileFilter`: keep a file when its mime type's first segment is "image". */
  predicate AcceptsUpload(mimetype: string)
  {
    FirstSegment(mimetype) == "image"
  }

  /** The first segment is the one slash-free prefix that ends at a '/' or at the end. */
  lemma {:induction false} FirstSegmentUnique(s: string, p: string)
    requires p <= s && '/' !in p
    requires |p| == |s| || s[|p|] == '/'
    ensures FirstSegment(s) == p
    decreases |s|
  {
  }

  /** A mime type of the image family: "image" itself or "image/<subtype>". */
  predicate IsImageType(mimetype: string)
  {
    mimetype == "image" || "image/" <= mimetype
  }

  /** The filter keeps exactly the mime type "image" and the types starting "image/". */
  lemma {:induction false} AcceptsUploadExactly(mimetype: string)
    ensures AcceptsUpload(mimetype) <==> IsImageType(mimetype)
  {
    var r := FirstSegment(mimetype);
    if r == "image" && |mimetype| > 5 {
      assert mimetype[..6] == r + "/";
    }
    if IsImageType(mimetype) {
      FirstSegmentUnique(mimetype, "image");
    }
  }

  /**
   The files multer stages for the handler: every accepted file as many times
   as it was uploaded, and no rejected one.
   */
  function Staged(files: seq<Upload>): (r: seq<Upload>)
    ensures |r| <= |files|
    ensures forall f :: f in r ==> f in files && AcceptsUpload(f.mimetype)
    ensures forall f :: f in files && AcceptsUpload(f.mimetype) ==> f in r
    ensures forall f :: multiset(r)[f] == (if AcceptsUpload(f.mimetype) then multiset(files)[f] else 0)
    decreases |files|
  {
    if |files| == 0 then []
    else
      assert files == [files[0]] + files[1..];
      if AcceptsUpload(files[0].mimetype) then [files[0]] + Staged(files[1..])
      else Staged(files[1..])
  }

  /** How many of the uploads have an image mime type. */
  function CountImages(files: seq<Upload>): nat
  {
    if |files| == 0 then 0
    else (if IsImageType(files[0].mimetype) then 1 else 0) + CountImages(files[1..])
  }

  /** The number of staged files is the number of uploads with an image mime type. */
  lemma {:induction false} StagedCountsImages(files: seq<Upload>)
    ensures |Staged(files)| == CountImages(files)
    decreases |files|
  {
    if |files| > 0 {
      AcceptsUploadExactly(files[0].mimetype);
      StagedCountsImages(files[1..]);
    }
  }

  // -------------------------------------------------------------- GET /

  /** The value of `query.approved`: absent, a boolean, or a string (what a query string yields). */
  datatype QueryValue = Missing | Bool(b: bool) | Str(s: string)

  /** `GET /` either answers locally or forwards the query to the posts service. */
  datatype ListOutcome = Reply(response: Response<Body>) | Forward

  /**
   `GET /` as written: only the boolean `false` counts as asking for
   unapproved posts, and only a missing session or `admin === false` is
   refused.
   */
  function ListPosts(approved: QueryValue, session: Option<AuthSession>): (r: ListOutcome)
    ensures r.Reply? <==> approved == Bool(false) && (session.None? || !session.value.admin)
    ensures r.Reply? ==> r.response == Send(200, PostList([]))
  {
    if approved == Bool(false) && (session.None? || session.value.admin == false) then
      Reply(Send(200, PostList([])))
    else Forward
  }

  /** Asking for unapproved posts, in either of the forms a client can send. */
  predicate AsksForUnapproved(approved: QueryValue)
  {
    approved == Bool(false) || approved == Str("false")
  }

  /** `GET /` with the rule its test expects: the string "false" also asks for unapproved posts. */
  function ListPostsIntended(approved: QueryValue, session: Option<AuthSession>): (r: ListOutcome)
    ensures r.Reply? <==> AsksForUnapproved(approved) && (session.None? || !session.value.admin)
    ensures r.Reply? ==> r.response == Send(200, PostList([]))
  {
    if AsksForUnapproved(approved) && (session.None? || !session.value.admin) then
      Reply(Send(200, PostList([])))
    else Forward
  }

  /**
   Under the intended rule a request for unapproved posts reaches the posts
   service exactly when an admin makes it, and every other request is
   forwarded as before.
   */
  lemma ListPostsIntendedGuardsUnapproved(approved: QueryValue, session: Option<AuthSession>)
    ensures AsksForUnapproved(approved) ==>
              (ListPostsIntended(approved, session).Forward? <==> session.Some? && session.value.admin)
    ensures !AsksForUnapproved(approved) ==> ListPostsIntended(approved, session).Forward?
    ensures approved != Str("false") ==> ListPostsIntended(approved, session) == ListPosts(approved, session)
  {
  }

  /** As written, an anonymous `?approved=false` (a string) is forwarded to the posts service. */
  lemma ListPostsForwardsStringFalse()
    ensures ListPosts(Str("false"), None) == Forward
    ensures ListPostsIntended(Str("false"), None) == Reply(Send(200, PostList([])))
  {
  }

  // ----------------------------------------------------------- GET /:id

  /**
   `GET /:id`: a post is shown only to a session holder, and an unapproved
   one only to an admin or its author; everything else is 404, and a failed
   call to the posts service is 500.
   */
  function ShowPost(fetch: Fetch, session: Option<AuthSession>): (r: Response<Body>)
    ensures r.Send?
    ensures fetch.Failed? ==> r == Send(500, Error("Internal server error"))
    ensures r.status == 200 <==>
      && fetch.Found? && session.Some?
      && (fetch.post.approved || session.value.admin || fetch.post.author == session.value.username)
    ensures r.status == 200 ==> r.body == PostBody(fetch.post)
    ensures !fetch.Failed? && r.status != 200 ==> r == Send(404, Error("Not found"))
  {
    match fetch
    case Failed => Send(500, Error("Internal server error"))
    case NoPost => Send(404, Error("Not found"))
    case Found(post) =>
      if session.None?
         || (!post.approved && !session.value.admin && post.author != session.value.username)
      then Send(404, Error("Not found"))
      else Send(200, PostBody(post))
  }

  /** Without a session even an approved post is 404. */
  lemma ShowPostNeedsSession(post: Post)
    ensures ShowPost(Found(post), None) == Send(404, Error("Not found"))
  {
  }

  /**
   Behind the decoder, an existing post is shown to the bearer of `token`
   exactly when the token is live and its user exists, and, for a post not
   yet approved, that user is an admin or (by lower-cased name) its author.
   */
  lemma ShowPostAfterDecoder(st: Store.State, token: Store.Token, now: Store.Time, post: Post)
    requires Store.Valid(st)
    ensures var session := Session.DecodeRequest(st, Some(token), now).1.session;
            ShowPost(Found(post), session).status == 200 <==>
              && Accounts.StateOf(st, token, now) == Accounts.Live
              && st.sessions[token].username in st.users
              && (post.approved
                  || st.users[st.sessions[token].username].admin
                  || post.author == Lower(st.sessions[token].username))
  {
  }

  // -------------------------------------------------------- DELETE /:id

  /** What `DELETE /:id` did: whether it asked the services to delete, and its response. */
  datatype DeleteOutcome = DeleteOutcome(deletes: bool, response: Response<Body>)

  /**
   The handler given whether its forbid rule fires; `removed` says whether
   deleting the post and its images succeeded. A missing post sets 404 on a
   response that is never sent.
   */
  function DeleteWith(fetch: Fetch, forbidden: bool, removed: bool): (r: DeleteOutcome)
    ensures r.deletes <==> fetch.Found? && !forbidden
    ensures fetch.NoPost? ==> r.response == Unsent(404)
    ensures fetch.Found? && forbidden ==> r.response == Send(403, Error("Forbidden"))
    ensures r.response == Send(200, Success) <==> r.deletes && removed
    ensures fetch.Failed? ==> r == DeleteOutcome(false, Send(500, Error("Internal server error")))
    ensures r.deletes && !removed ==> r.response == Send(500, Error("Internal server error"))
  {
    match fetch
    case Failed => DeleteOutcome(false, Send(500, Error("Internal server error")))
    case NoPost => DeleteOutcome(false, Unsent(404))
    case Found(_) =>
      if forbidden then DeleteOutcome(false, Send(403, Error("Forbidden")))
      else if removed then DeleteOutcome(true, Send(200, Success))
      else DeleteOutcome(true, Send(500, Error("Internal server error")))
  }

  /** The forbid rule as written: someone else's post, and the session is an admin. */
  predicate ForbidsDeleteAsWritten(post: Post, session: AuthSession)
  {
    post.author != session.username && session.admin
  }

  /** The rule the handler's comment describes: someone else's post, and the session is not an admin. */
  predicate ForbidsDelete(post: Post, session: AuthSession)
  {
    post.author != session.username && !session.admin
  }

  /** `DELETE /:id` as written. */
  function DeletePost(fetch: Fetch, session: AuthSession, removed: bool): (r: DeleteOutcome)
    ensures r.deletes <==> fetch.Found? && (fetch.post.author == session.username || !session.admin)
    ensures r.response.status == 403 <==>
      fetch.Found? && fetch.post.author != session.username && session.admin
  {
    DeleteWith(fetch, fetch.Found? && ForbidsDeleteAsWritten(fetch.post, session), removed)
  }

  /** `DELETE /:id` with the forbid rule its comment describes. */
  function DeletePostIntended(fetch: Fetch, session: AuthSession, removed: bool): (r: DeleteOutcome)
    ensures r.deletes <==> fetch.Found? && (fetch.post.author == session.username || session.admin)
    ensures r.response.status == 403 <==>
      fetch.Found? && fetch.post.author != session.username && !session.admin
  {
    DeleteWith(fetch, fetch.Found? && ForbidsDelete(fetch.post, session), removed)
  }

  /**
   As written, a non-admin deletes someone else's post while an admin is
   refused; the intended rule does the opposite. Both agree on one's own posts.
   */
  lemma DeleteRuleInverted(post: Post, session: AuthSession, removed: bool)
    requires post.author != session.username
    ensures DeletePost(Found(post), session, removed).deletes == !session.admin
    ensures DeletePostIntended(Found(post), session, removed).deletes == session.admin
  {
  }

  lemma DeleteOwnPost(post: Post, session: AuthSession, removed: bool)
    requires post.author == session.username
    ensures DeletePost(Found(post), session, removed) == DeletePostIntended(Found(post), session, removed)
    ensures DeletePost(Found(post), session, removed).deletes
  {
  }

  // -------------------------------------------------------------- POST /

  /** What `POST /` did: the creation request it sent, if any, and its response. */
  datatype CreateOutcome = CreateOutcome(request: Option<NewPost>, response: Response<Body>)

  /**
   `POST /` (behind the login guard). `uploads` is what multer left in
   `req.files`: the parts of a multipart body, or none when the body is not
   multipart; iterating over a missing list throws before the title check,
   so such a request is left without a response. `created` says whether
   creating the post and uploading its images succeeded; on success the
   handler sends no response either.
   */
  function CreatePost(title: Option<string>, content: Option<string>, session: AuthSession,
                      uploads: Option<seq<Upload>>, created: bool): (r: CreateOutcome)
    ensures uploads.None? ==> r == CreateOutcome(None, Unsent(200))
    ensures r.request.None? <==> uploads.None? || !Truthy(title) || !Truthy(content)
    ensures uploads.Some? && r.request.None? ==>
              r.response == Send(422, Error("Title and content must be provided"))
    ensures r.request.Some? ==>
      && r.request.value.title == title.value
      && r.request.value.content == content.value
      && r.request.value.author == session.username
      && r.request.value.numImages == |Staged(uploads.value)|
    ensures r.request.Some? ==> (r.response.Unsent? <==> created)
    ensures r.request.Some? && !created ==> r.response == Send(500, Error("Internal server error"))
  {
    if uploads.None? then CreateOutcome(None, Unsent(200))
    else if !Truthy(title) || !Truthy(content) then
      CreateOutcome(None, Send(422, Error("Title and content must be provided")))
    else
      var request := NewPost(title.value, content.value, session.username, |Staged(uploads.value)|);
      CreateOutcome(Some(request), if created then Unsent(200) else Send(500, Error("Internal server error")))
  }

  /**
   A complete multipart post is sent to the posts service with one image counted for
   every upload whose mime type is "image" or starts with "image/".
   */
  lemma CreatePostCountsImages(title: string, content: string, session: AuthSession,
                               files: seq<Upload>, created: bool)
    requires |title| > 0 && |content| > 0
    ensures CreatePost(Some(title), Some(content), session, Some(files), created).request.Some?
    ensures CreatePost(Some(title), Some(content), session, Some(files), created).request.value.numImages
         == CountImages(files)
  {
    StagedCountsImages(files);
  }

  // ----------------------------------------------------- proxied routes

  /**
   Every other route (such as `PUT /:id/approved`) is forwarded to the posts
   service behind the login guard and then the admin guard, so a request
   without a usable session is refused by the login guard first.
   */
  function Proxied(session: Option<AuthSession>): (r: Session.GuardOutcome)
    ensures r.Next? <==> session.Some? && |session.value.username| > 0 && session.value.admin
    ensures Session.Guard(session).Deny? ==> r == Session.Deny(401, "Unauthorised")
    ensures r.Deny? && session.Some? && |session.value.username| > 0 ==> r == Session.Deny(403, "Forbidden")
  {
    var gate := Session.Guard(session);
    if gate.Deny? then gate else Session.AdminGuard(session)
  }
}
