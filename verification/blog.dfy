/** The documents the blog keeps: posts (with their like bookkeeping) and
    comments. Only the fields the modelled decisions read are given
    behaviour; the rest are carried so that "nothing else changes" can be
    stated. */
module Blog {
  import opened Common
  import opened Http

  /** The author reference cached on a post: the user's id and username. */
  datatype AuthorRef = AuthorRef(id: UserId, username: Username)

  /** A blog post. `likes` counts likes and `likedby` lists the usernames
      that liked the post, in the order they liked it. */
  datatype Post = Post(
    id: PostId,
    title: string,
    image: string,
    body: string,
    likes: nat,
    likedby: seq<Username>,
    created: int,
    author: AuthorRef,
    comments: seq<CommentId>)

  /** The author reference cached on a comment, with the author's avatar. */
  datatype CommentAuthor = CommentAuthor(id: UserId, username: Username, avatar: string)

  datatype Comment = Comment(id: CommentId, text: string, author: CommentAuthor)

  /** The invariant the like bookkeeping must keep: the counter equals the
      number of likers and nobody is listed twice. */
  predicate LikesConsistent(p: Post) {
    p.likes == |p.likedby| && NoDuplicates(p.likedby)
  }

  /** The fields a post-creation request submits. The form offers title and
      body, but the request may also carry values for the like and comment
      fields; `None` stands for a field the request leaves out. */
  datatype PostForm = PostForm(
    title: string,
    body: string,
    likes: Option<nat>,
    likedby: Option<seq<Username>>,
    comments: Option<seq<CommentId>>)

  function OrElse<T>(o: Option<T>, default: T): T {
    match o
    case Some(v) => v
    case None => default
  }

  /** Post creation as written: the uploaded image's URL and the requester
      are filled in, everything else is stored as submitted, and the schema
      defaults (no likes, no likers, no comments) apply only to the fields the
      request leaves out. */
  function CreatePostAsWritten(id: PostId, form: PostForm, image: string,
                               created: int, author: AuthorRef): (p: Post)
    ensures p.id == id && p.title == form.title && p.body == form.body && p.created == created
    ensures p.image == image && p.author == author
    ensures form.likes.None? ==> p.likes == 0
    ensures form.likedby.None? ==> p.likedby == []
    ensures p.comments == (if form.comments.Some? then form.comments.value else [])
    ensures form.likes.None? && form.likedby.None? ==> LikesConsistent(p)
    ensures form.likes.Some? ==> p.likes == form.likes.value
    ensures form.likedby.Some? ==> p.likedby == form.likedby.value
  {
    Post(id, form.title, image, form.body, OrElse(form.likes, 0), OrElse(form.likedby, []),
         created, author, OrElse(form.comments, []))
  }

  /** As written, a request that submits a like count of 3 and a single liker
      creates a post whose like bookkeeping is inconsistent. */
  lemma CreatePostForgedLikes()
    ensures !LikesConsistent(CreatePostAsWritten("p", PostForm("t", "b", Some(3), Some(["x"]), None),
                                                 "img", 0, AuthorRef("a", "alice")))
    ensures LikesConsistent(NewPost("p", PostForm("t", "b", Some(3), Some(["x"]), None),
                                    "img", 0, AuthorRef("a", "alice")))
  {
  }

  /** Post creation with the like and comment fields always starting from the
      schema defaults, whatever the request submits: no likes, no likers, no
      comments. For a request that submits none of them it stores exactly
      what creation as written stores. */
  function NewPost(id: PostId, form: PostForm, image: string,
                   created: int, author: AuthorRef): (p: Post)
    ensures LikesConsistent(p)
    ensures p.likes == 0 && p.likedby == [] && p.comments == []
    ensures p.id == id && p.title == form.title && p.body == form.body
    ensures p.image == image && p.author == author && p.created == created
    ensures form.likes.None? && form.likedby.None? && form.comments.None? ==>
              p == CreatePostAsWritten(id, form, image, created, author)
  {
    Post(id, form.title, image, form.body, 0, [], created, author, [])
  }
}
