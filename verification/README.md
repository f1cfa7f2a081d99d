# Personal blog: the decision rules of the request handlers

The blog server is an Express application. Users register and log in, write posts with an uploaded image, comment on posts and like them. Nearly all of it calls a web framework, a session library, a document store and an image host. This project models the few pure rules inside that code, as immutable Dafny datatypes and functions, and proves what they promise:

- **The search escaper** (`escapeRegex`, module `RegexEscape`). It puts a backslash before every regular-expression metacharacter and every whitespace character of a search query. Every other character is copied unchanged.
- **The upload filter** (`imageFilter`, module `ImageFilter`). It accepts a file name only when the name ends in `.jpg`, `.jpeg`, `.png` or `.gif`, compared case-insensitively.
- **The like transition** (module `Likes`). It runs on the `likes` counter and the `likedby` list of a post (module `Blog`). It is modelled for one post, for the route around it, and for a whole collection of posts over any run of like requests.
- **The authorization middlewares** (`isLoggedIn`, `checkBlogOwnership`, `checkCommentOwnership`, module `Gates`). Module `Routes` holds the route table that says which middleware guards which route.

Store lookups are inputs of type `Lookup<T>`: a store error, nothing found, or the document. The session's user is an input of type `Option<Principal>`. A handler or middleware ends in an `Outcome`: either it proceeds, or it redirects to the login page, the referring page, the listing or a post, with an optional flash message.

Characters are Unicode scalar values. JavaScript strings are UTF-16 code units. The escaper gives the same result on both, because every special character lies in the Basic Multilingual Plane and surrogate halves are never special. The filter's case folding changes only ASCII letters. Under the non-Unicode `i` flag, no character outside ASCII folds onto an ASCII letter, so this folding is exact for the pattern's letters.

## Model

| member | source | states |
|---|---|---|
| `RegexEscape.Escape` | app.js:408-410 | The escaped query is as long as the query plus one character for each special character in it. It is empty only for an empty query. |
| `RegexEscape.EscapeAppend` | app.js:408-410 | The global replace works one character at a time: escaping a concatenation gives the concatenation of the escaped parts. |
| `RegexEscape.EscapeSingle` | app.js:409 | A special character (listed punctuation, backslash or `\s` whitespace) becomes a backslash followed by the character. Any other character is copied unchanged. |
| `RegexEscape.UnescapeEscape` | app.js:408-410 | Read back as a pattern, the escaped query is a fully escaped literal. Dropping each inserted backslash gives the original query back. |
| `RegexEscape.EscapeUnescape` | app.js:408-410 | Every fully escaped literal pattern is exactly the escaper's output for the text it reads back as. |
| `RegexEscape.EscapeInjective` | app.js:408-410 | Two different queries never escape to the same pattern. |
| `ImageFilter.FilterImage` | app.js:21-27 | A refused upload carries the error "Only image files are allowed!". |
| `ImageFilter.FilterImageByExtension` | app.js:21-27 | A name is accepted exactly when its extension (the text after its last dot), lower-cased, is `jpg`, `jpeg`, `png` or `gif`. Every other name is refused with the image-only error. |
| `ImageFilter.FilterImageIgnoresCase` | app.js:23 | Upper-casing or lower-casing a name never changes the verdict. |
| `Blog.CreatePostAsWritten` | app.js:175-182 | As written, creation stores the id, the submitted title and body, and the creation time. It fills in the uploaded image and the requester as author. The like count, likers and comments are taken from the request when it submits them; otherwise they get the schema defaults of 0, no likers and no comments. Only when the request submits neither count nor likers is the like bookkeeping guaranteed consistent. |
| `Blog.CreatePostForgedLikes` | app.js:182 | As written, a request submitting a like count of 3 and one liker creates a post whose counter and likers disagree. The corrected creation yields a consistent post for the same request. |
| `Blog.NewPost` | models/blog.js:8-27 | The corrected creation: whatever the request submits, a new post starts with the schema defaults of no likes, no likers and no comments, so its like bookkeeping is consistent. For a request that submits none of these fields it stores exactly what creation as written stores. |
| `Gates.IsLoggedIn` | app.js:360-366 | The request proceeds exactly when it is authenticated. Otherwise it is redirected to the login page. |
| `Gates.CheckBlogOwnership` | app.js:368-387 | The request proceeds exactly when the post was found and the requester is its author. An anonymous request goes back with "Login required". A post that is missing, or owned by someone else, sends the request to the listing with "post not found" or "no permission". |
| `Gates.CheckCommentOwnership` | app.js:389-406 | The request proceeds exactly when the comment was found and the requester is its author. Only a missing comment (for an authenticated requester) sends the request to the listing, with "comment not found". Every other refusal goes back with no message. |
| `Routes.GateOfAsWritten` | app.js:67-358 | As the server wires its routes, every route that writes posts or comments, or changes an existing user's avatar, has a guard. The post edit and delete routes are exactly the ones with the post-ownership check, and the comment edit, update and delete routes exactly the ones with the comment-ownership check. New post, post creation, avatar update, new comment, comment creation and like have only the login check. The rest, registration (which stores a new user's avatar) included, are open. None of them checks profile ownership. |
| `Routes.GateOf` | app.js:207-222 | The corrected table restricts the profile-image update to the profile's owner. Every other route keeps its guard. |
| `Routes.CheckProfileOwnership` | app.js:207-222 | A profile update proceeds exactly when the requester is the profile's user. An anonymous request goes to the login page. |
| `Routes.AdmitAsWritten` | app.js:207-213 | As written, a profile-image update is admitted for every logged-in user, whoever the profile belongs to. |
| `Routes.Admit` | app.js:170-358 | Admission under the corrected table, which differs from the code only in restricting the avatar update to the profile's owner. An anonymous request reaches only the unguarded routes; on the login-guarded routes it is sent to the login page. No write route runs without a principal. The ownership-guarded routes admit exactly the document's author. The comment guard's decision does not depend on the post in the path. |
| `Routes.CommentGuardIgnoresPost` | app.js:389-396 | Changing the post the path names never changes the comment guard's decision. |
| `Routes.AvatarUpdateByAnotherUser` | app.js:207-213 | As written, user `a` is admitted to update the avatar of user `b`. The corrected table refuses it. |
| `Likes.RegisterLike` | app.js:308-317 | For a user who has not liked the post: the counter goes up by exactly one, the username is appended at the end of the likers, and nothing else changes. For a user who has already liked it: the post is unchanged. Either way the user ends up among the likers, and counter = number of likers with no duplicates is preserved. |
| `Likes.RegisterLikeIdempotent` | app.js:309-317 | Liking a post twice has the same effect as liking it once. |
| `Likes.LikeHandlerAsWritten` | app.js:302-320 | As written, the handler throws exactly when the store finds no post. In every other case it behaves like the corrected handler. |
| `Likes.LikeHandler` | app.js:302-320 | The handler always responds. It saves a post exactly when the user had not liked it yet, and what it saves is the post with the like registered. A found post redirects back to that post; a first like carries no message; a repeat like carries the success message "already liked". A missing post goes to the listing with "post not found". A store error goes to the listing with no message, and nothing is saved. |
| `Likes.LikeRoute` | app.js:302 | An anonymous like request is sent to the login page and nothing is saved. An authenticated one runs the handler. |
| `Likes.LikeMissingPostThrows` | app.js:303-309 | As written, a like on a post id the store does not hold throws. The corrected handler redirects to the listing instead. |
| `Likes.ApplyLike` | app.js:302-320 | A like request keeps every consistent stored post consistent, whatever the other posts hold. It touches only the targeted post, and to that post it applies the like transition only when the request is authenticated. |
| `Likes.RunLikes` | app.js:302-320 | Any run of like requests keeps every consistent stored post consistent, even in a store holding inconsistent posts: the counter equals the number of likers, with no duplicates. |
| `Likes.RunLikesLikers` | app.js:309-311 | After any run of like requests, a post's likers are the ones it had plus every authenticated user who asked to like it. |
| `Likes.LikesCountDistinctLikers` | app.js:309-311 | After any run, a post that started consistent has a counter equal to the number of distinct users who have liked it. The other posts in the store may be inconsistent. |
| `Likes.FreshPostLikes` | models/blog.js:8-13 | For a post that starts with the schema defaults (0 likes, no likers), as `Blog.NewPost` creates it, the counter after any run equals the number of distinct authenticated users who asked to like it. |

## Left out

- Express wiring, views, flash texts (the message kind, error or success, is kept), `method-override`, and the registration, login, profile and listing handlers: framework plumbing with no decision of their own. Only the route table is modelled, as far as it says which guard each route has.
- Passport sessions and `User.register`: foreign library calls. The principal is an optional id and username.
- Mongoose persistence (`find`, `findById`, `save`, `populate`, `findByIdAndUpdate`): asynchronous external calls. Their answers are inputs. The like handler's `save()` is modelled as always succeeding, because its failure is never looked at.
- Concurrent like requests: the handler reads, changes and saves with no transaction. Two simultaneous likes by the same user can both pass the membership test. The model serves requests one after another.
- Cloudinary uploads and multer disk storage: network and file I/O. The stored file name also depends on the wall clock.
- The search route's matching: it depends on the JavaScript and MongoDB regular-expression engines. Only the escaper is modelled, not whether the escaped pattern matches as a substring.
- `express-sanitizer`: third-party code whose source is not part of this model.
- Post edits through `PUT /blogs/:id` pass the whole submitted form to the store. Such an edit could overwrite `likes` or `likedby` and break the like invariant, just as creation as written can. The edit handler is not modelled, so the invariant is proved over corrected creation and like requests only.
- Blog.CreatePostAsWritten: submitted like counts are modelled as natural numbers only. The store's casting of negative or non-numeric values, and a submitted `created` timestamp, are not modelled.
- A post or comment stored without `author.id`: the source's `.equals` call would throw on it. Authors are modelled as always present.
- `likes` is a JavaScript number, which stays exact only up to 2^53. It is modelled as an unbounded natural number.
- The code merges some failures: a store error and a missing document give the same redirect in both ownership checks, and a comment owned by someone else is sent back with no message. The model follows the code.

## Findings

| source | as written | input that shows it | evidently intended | confidence | as-written member | corrected member |
|---|---|---|---|---|---|---|
| app.js:303-311 | The like handler checks only `err`. When the store finds no post it reads `foundBlog.likedby` on `null` and throws, and no response is sent. | An authenticated `GET /blogs/<well-formed id of no post>/like` | Redirect to the listing with "Blog post not found", as the show route and `checkBlogOwnership` do for a missing post | not executed; high | `Likes.LikeHandlerAsWritten` (shown by `Likes.LikeMissingPostThrows`) | `Likes.LikeHandler` |
| app.js:207-213 | The profile-image update is guarded only by the login check. It then updates the user named by `:id`, so any logged-in user can replace any other user's avatar. | User `a` logged in, `POST /users/b` with an image | Only the profile's own user may update its avatar | not executed; medium (the views that expose the form are not part of this model) | `Routes.AdmitAsWritten` (shown by `Routes.AvatarUpdateByAnotherUser`) | `Routes.GateOf`, `Routes.CheckProfileOwnership` |
| app.js:175-182 | Post creation fills in only the image and the author, then stores the submitted form as it is. A request can therefore set `likes`, `likedby` and `comments`, and the schema defaults apply only to fields it leaves out. | `POST /blogs` with `blog[likes]=3&blog[likedby][]=x` | A new post starts with no likes, no likers and no comments, so that the like counter always equals the number of likers | not executed; medium (whether the body parser passes those fields through is library behaviour outside this model) | `Blog.CreatePostAsWritten` (shown by `Blog.CreatePostForgedLikes`) | `Blog.NewPost` |
