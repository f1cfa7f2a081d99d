/** The route table: which middleware guards which route, and the admission
    decision a request meets before the route's handler runs. */
module Routes {
  import opened Common
  import opened Http
  import opened Blog
  import opened Gates

  datatype Route =
    | Landing          // GET /
    | RegisterForm     // GET /blogs/register
    | Register         // POST /blogs/register
    | Profile          // GET /users/:id
    | LoginForm        // GET /blogs/login
    | Login            // POST /blogs/login
    | Logout           // GET /blogs/logout
    | Index            // GET /blogs
    | NewPostForm      // GET /blogs/new
    | CreatePost       // POST /blogs
    | UpdateAvatar     // POST /users/:id
    | ShowPost         // GET /blogs/:id
    | EditPostForm     // GET /blogs/:id/edit
    | UpdatePost       // PUT /blogs/:id
    | DeletePost       // DELETE /blogs/:id
    | NewCommentForm   // GET /blogs/:id/comments/new
    | CreateComment    // POST /blogs/:id/comments
    | LikePost         // GET /blogs/:id/like
    | EditCommentForm  // GET /blogs/:id/comments/:comment_id/edit
    | UpdateComment    // PUT /blogs/:id/comments/:comment_id
    | DeleteComment    // DELETE /blogs/:id/comments/:comment_id

  /** The guard in front of a route's handler. `ProfileOwner` is the check a
      profile update needs and does not have in the server as written. */
  datatype Gate = Open | LoggedIn | BlogOwner | CommentOwner | ProfileOwner

  /** What the store and the path give the guards: the principal, the answers
      for the `:id` post and the `:comment_id` comment, and the `:id` user of
      a profile route. */
  datatype Request = Request(
    principal: Option<Principal>,
    post: Lookup<Post>,
    comment: Lookup<Comment>,
    profile: UserId)

  /** The routes whose handlers create, change or delete posts, comments or
      a user's avatar. */
  predicate WritesContent(route: Route) {
    route in {CreatePost, UpdateAvatar, UpdatePost, DeletePost, CreateComment,
              LikePost, UpdateComment, DeleteComment}
  }

  /** The guards as the server wires them. A profile update is guarded only
      by the login check. */
  function GateOfAsWritten(route: Route): (g: Gate)
    ensures WritesContent(route) ==> g != Open
    ensures g != ProfileOwner
    ensures route in {EditPostForm, UpdatePost, DeletePost} <==> g == BlogOwner
    ensures route in {EditCommentForm, UpdateComment, DeleteComment} <==> g == CommentOwner
    ensures route in {NewPostForm, CreatePost, UpdateAvatar, NewCommentForm, CreateComment, LikePost}
            <==> g == LoggedIn
    ensures route in {Landing, RegisterForm, Register, Profile, LoginForm, Login, Logout, Index, ShowPost}
            <==> g == Open
  {
    match route
    case NewPostForm | CreatePost | UpdateAvatar | NewCommentForm
       | CreateComment | LikePost => LoggedIn
    case EditPostForm | UpdatePost | DeletePost => BlogOwner
    case EditCommentForm | UpdateComment | DeleteComment => CommentOwner
    case _ => Open
  }

  /** The guards with a profile update restricted to the profile's owner;
      every other route keeps its guard. */
  function GateOf(route: Route): (g: Gate)
    ensures WritesContent(route) ==> g != Open
    ensures route != UpdateAvatar ==> g == GateOfAsWritten(route)
    ensures route == UpdateAvatar ==> g == ProfileOwner
  {
    if route == UpdateAvatar then ProfileOwner else GateOfAsWritten(route)
  }

  /** Lets a profile update through only for the profile's own user. */
  function CheckProfileOwnership(principal: Option<Principal>, profile: UserId): (r: Outcome)
    ensures r == Proceed <==> Owns(principal, profile)
    ensures principal.None? ==> r == RedirectLogin
  {
    if principal.None? then RedirectLogin
    else if principal.value.id == profile then Proceed
    else RedirectBlogs(Some(NoPermission))
  }

  /** Runs one guard on a request. */
  function Guard(gate: Gate, req: Request): Outcome {
    match gate
    case Open => Proceed
    case LoggedIn => IsLoggedIn(req.principal)
    case BlogOwner => CheckBlogOwnership(req.principal, req.post)
    case CommentOwner => CheckCommentOwnership(req.principal, req.comment)
    case ProfileOwner => CheckProfileOwnership(req.principal, req.profile)
  }

  /** The admission decision of the server as written. */
  function AdmitAsWritten(route: Route, req: Request): (o: Outcome)
    ensures route == UpdateAvatar ==> (o == Proceed <==> req.principal.Some?)
  {
    Guard(GateOfAsWritten(route), req)
  }

  /** The admission decision: an anonymous request reaches only the open
      routes, the login-guarded ones send it to the login page, and the
      ownership-guarded ones let through exactly the document's author. */
  function Admit(route: Route, req: Request): (o: Outcome)
    ensures req.principal.None? ==> (o == Proceed <==> GateOf(route) == Open)
    ensures req.principal.None? && GateOf(route) == LoggedIn ==> o == RedirectLogin
    ensures o == Proceed && WritesContent(route) ==> req.principal.Some?
    ensures GateOf(route) == LoggedIn ==> (o == Proceed <==> req.principal.Some?)
    ensures GateOf(route) == BlogOwner ==>
              (o == Proceed <==> req.post.Found? && Owns(req.principal, req.post.value.author.id))
    ensures GateOf(route) == CommentOwner ==>
              (o == Proceed <==> req.comment.Found? && Owns(req.principal, req.comment.value.author.id))
    ensures GateOf(route) == CommentOwner ==> o == CheckCommentOwnership(req.principal, req.comment)
    ensures route == UpdateAvatar ==> (o == Proceed <==> Owns(req.principal, req.profile))
    ensures route != UpdateAvatar ==> o == AdmitAsWritten(route, req)
  {
    Guard(GateOf(route), req)
  }

  /** The comment guard decides from the comment alone: the `:id` post in the
      path plays no part. */
  lemma CommentGuardIgnoresPost(route: Route, req: Request, other: Lookup<Post>)
    requires GateOf(route) == CommentOwner
    ensures Admit(route, req) == Admit(route, req.(post := other))
  {
  }

  /** As written, any logged-in user may replace any other user's avatar. */
  lemma AvatarUpdateByAnotherUser()
    ensures AdmitAsWritten(UpdateAvatar, Request(Some(Principal("a", "alice")), Missing, Missing, "b")) == Proceed
    ensures Admit(UpdateAvatar, Request(Some(Principal("a", "alice")), Missing, Missing, "b")) != Proceed
  {
  }
}
