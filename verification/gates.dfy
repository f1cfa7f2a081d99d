/** The three middlewares that guard the mutating routes: a login check and
    two ownership checks, one for posts and one for comments. Each decides,
    from the request's principal and the store's answer for the targeted
    document, whether the request may go on. */
module Gates {
  import opened Common
  import opened Http
  import opened Blog

  /** The one authorization rule both ownership checks apply: the request is
      authenticated and the document's recorded author is the requester. */
  predicate Owns(principal: Option<Principal>, authorId: UserId) {
    principal.Some? && principal.value.id == authorId
  }

  /** Lets authenticated requests through; sends anonymous ones to the login
      page. */
  function IsLoggedIn(principal: Option<Principal>): (r: Outcome)
    ensures r == Proceed <==> principal.Some?
    ensures r != Proceed ==> r == RedirectLogin
  {
    if principal.Some? then Proceed else RedirectLogin
  }

  /** Lets a request through only when it comes from the post's author.
      Anonymous requests go back to the referring page; a post that cannot
      be found and a post owned by someone else both go to the listing. */
  function CheckBlogOwnership(principal: Option<Principal>, post: Lookup<Post>): (r: Outcome)
    ensures r == Proceed <==> post.Found? && Owns(principal, post.value.author.id)
    ensures r.RedirectBack? <==> principal.None?
    ensures r.RedirectBlogs? <==> principal.Some? && r != Proceed
    ensures principal.None? ==> r.flash == Some(LoginRequired)
    ensures principal.Some? && !post.Found? ==> r.flash == Some(PostNotFound)
    ensures principal.Some? && post.Found? && r != Proceed ==> r.flash == Some(NoPermission)
  {
    if principal.Some? then
      match post
      case Found(p) =>
        if p.author.id == principal.value.id then Proceed
        else RedirectBlogs(Some(NoPermission))
      case _ => RedirectBlogs(Some(PostNotFound))
    else RedirectBack(Some(LoginRequired))
  }

  /** Lets a request through only when it comes from the comment's author.
      Only a comment that cannot be found leads to the listing; every other
      refusal, anonymous or not the owner, goes back without a message. */
  function CheckCommentOwnership(principal: Option<Principal>, comment: Lookup<Comment>): (r: Outcome)
    ensures r == Proceed <==> comment.Found? && Owns(principal, comment.value.author.id)
    ensures r.RedirectBlogs? <==> principal.Some? && !comment.Found?
    ensures r.RedirectBlogs? ==> r.flash == Some(CommentNotFound)
    ensures r.RedirectBack? <==> r != Proceed && !r.RedirectBlogs?
    ensures r.RedirectBack? ==> r.flash == None
  {
    if principal.Some? then
      match comment
      case Found(c) =>
        if c.author.id == principal.value.id then Proceed
        else RedirectBack(None)
      case _ => RedirectBlogs(Some(CommentNotFound))
    else RedirectBack(None)
  }
}
