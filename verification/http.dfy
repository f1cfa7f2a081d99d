/** The request-level vocabulary of the blog server: who is asking, what a
    document-store lookup answered, and how a handler or middleware ends the
    request (let it through, or redirect with an optional flash message). */
module Http {
  import opened Common

  type UserId = string
  type Username = string
  type PostId = string
  type CommentId = string

  /** The logged-in user attached to a session; `None` stands for an
      unauthenticated request. */
  datatype Principal = Principal(id: UserId, username: Username)

  /** The answer of a `findById` call: the store reported an error (for
      instance an id that is not a valid object id), found nothing, or found
      the document. */
  datatype Lookup<+T> = StoreError | Missing | Found(value: T)

  /** The flash messages a gate or handler attaches to a redirect. */
  datatype Flash =
    | LoginRequired      // "Login required"
    | PostNotFound       // "Blog post not found"
    | NoPermission       // "You don't have permission to do that"
    | CommentNotFound    // "Comment not found"
    | AlreadyLiked       // "You have already liked this post"

  /** The kind a flash message is stored under: an error, or a success
      notice. */
  datatype FlashKind = ErrorFlash | SuccessFlash

  /** Every modelled message is an error except the repeated-like notice. */
  function KindOf(f: Flash): FlashKind {
    if f == AlreadyLiked then SuccessFlash else ErrorFlash
  }

  /** How a middleware or handler ends (or passes on) a request. */
  datatype Outcome =
    | Proceed                                          // next() is called
    | RedirectLogin                                    // to /blogs/login, flashing LoginRequired
    | RedirectBack(flash: Option<Flash>)               // to "back", the referring page
    | RedirectBlogs(flash: Option<Flash>)              // to the /blogs listing
    | RedirectPost(post: PostId, flash: Option<Flash>) // to /blogs/<id>
    | Unhandled                                        // the handler throws before responding
}
