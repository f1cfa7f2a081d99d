/** Liking a post: a user who has not liked the post yet is appended to its
    likers and the counter goes up by one; a repeated like changes nothing
    and only reports that the post was already liked. There is no unlike. */
module Likes {
  import opened Common
  import opened Http
  import opened Blog

  /** The state change of one like on a found post. */
  function RegisterLike(p: Post, u: Username): (q: Post)
    ensures LikesConsistent(p) ==> LikesConsistent(q)
    ensures u in q.likedby
    ensures u in p.likedby ==> q == p
    ensures u !in p.likedby ==>
              && q.likes == p.likes + 1
              && q.likedby == p.likedby + [u]
              && q == p.(likes := q.likes, likedby := q.likedby)
  {
    if u !in p.likedby then p.(likes := p.likes + 1, likedby := p.likedby + [u])
    else p
  }

  /** Liking twice is liking once. */
  lemma RegisterLikeIdempotent(p: Post, u: Username)
    ensures RegisterLike(RegisterLike(p, u), u) == RegisterLike(p, u)
  {
  }

  /** What a like request produces: how it ends, and the post written back
      to the store, if any. */
  datatype LikeReply = LikeReply(outcome: Outcome, saved: Option<Post>)

  /** The like handler as written: a store error sends the user to the
      listing, but a lookup that finds nothing is not checked, so the
      handler reads the likers of a missing post and throws. */
  function LikeHandlerAsWritten(user: Principal, found: Lookup<Post>): (r: LikeReply)
    ensures r.outcome == Unhandled <==> found.Missing?
    ensures r.outcome == Unhandled ==> r.saved == None
    ensures !found.Missing? ==> r == LikeHandler(user, found)
  {
    match found
    case StoreError => LikeReply(RedirectBlogs(None), None)
    case Missing => LikeReply(Unhandled, None)
    case Found(p) => LikeFound(user, p)
  }

  /** The like handler on a post the store found. */
  function LikeFound(user: Principal, p: Post): LikeReply {
    if user.username !in p.likedby then
      LikeReply(RedirectPost(p.id, None), Some(RegisterLike(p, user.username)))
    else
      LikeReply(RedirectPost(p.id, Some(AlreadyLiked)), None)
  }

  /** The like handler with a missing post treated like the other post
      lookups treat it: back to the listing with "post not found". It always
      responds; it saves exactly when the user had not liked the post, and
      what it saves is the post with the like registered. */
  function LikeHandler(user: Principal, found: Lookup<Post>): (r: LikeReply)
    ensures r.outcome != Unhandled && r.outcome != Proceed
    ensures r.saved.Some? <==> found.Found? && user.username !in found.value.likedby
    ensures r.saved.Some? ==> r.saved.value == RegisterLike(found.value, user.username)
    ensures found.Found? ==> r.outcome.RedirectPost? && r.outcome.post == found.value.id
    ensures found.Found? && r.saved.None? ==> r.outcome.flash == Some(AlreadyLiked)
    ensures found.Found? && r.saved.None? ==> KindOf(r.outcome.flash.value) == SuccessFlash
    ensures r.saved.Some? ==> r.outcome.flash == None
    ensures found.Missing? ==> r.outcome == RedirectBlogs(Some(PostNotFound))
    ensures found.StoreError? ==> r == LikeReply(RedirectBlogs(None), None)
  {
    match found
    case StoreError => LikeReply(RedirectBlogs(None), None)
    case Missing => LikeReply(RedirectBlogs(Some(PostNotFound)), None)
    case Found(p) => LikeFound(user, p)
  }

  /** The like route: the login check, then the handler. An anonymous request
      goes to the login page and nothing is written. */
  function LikeRoute(principal: Option<Principal>, found: Lookup<Post>): (r: LikeReply)
    ensures principal.None? ==> r == LikeReply(RedirectLogin, None)
    ensures principal.Some? ==> r == LikeHandler(principal.value, found)
  {
    if principal.None? then LikeReply(RedirectLogin, None)
    else LikeHandler(principal.value, found)
  }

  /** As written, liking a post id the store does not hold throws. */
  lemma LikeMissingPostThrows()
    ensures LikeHandlerAsWritten(Principal("a", "alice"), Missing).outcome == Unhandled
    ensures LikeHandler(Principal("a", "alice"), Missing).outcome == RedirectBlogs(Some(PostNotFound))
  {
  }

  // ---------------------------------------------------------------------
  // Likes against the post collection

  type Store = map<PostId, Post>

  /** Every stored post sits under its own id. */
  predicate WellKeyed(s: Store) {
    forall id :: id in s ==> s[id].id == id
  }

  /** Every stored post sits under its own id and keeps its like bookkeeping
      consistent. */
  predicate StoreConsistent(s: Store) {
    WellKeyed(s) && forall id :: id in s ==> LikesConsistent(s[id])
  }

  function Find(s: Store, id: PostId): Lookup<Post> {
    if id in s then Found(s[id]) else Missing
  }

  /** A like request: who asks (if anyone), and for which post. */
  datatype LikeRequest = LikeRequest(principal: Option<Principal>, post: PostId)

  /** One like request against the collection: the post is looked up, the
      route runs, and a saved post replaces the stored one. */
  function ApplyLike(s: Store, req: LikeRequest): (s': Store)
    requires WellKeyed(s)
    ensures WellKeyed(s')
    ensures s'.Keys == s.Keys
    ensures forall id :: id in s && LikesConsistent(s[id]) ==> LikesConsistent(s'[id])
    ensures StoreConsistent(s) ==> StoreConsistent(s')
    ensures forall id :: id in s && id != req.post ==> s'[id] == s[id]
    ensures req.post in s ==>
              s'[req.post] == (if req.principal.Some?
                               then RegisterLike(s[req.post], req.principal.value.username)
                               else s[req.post])
  {
    var reply := LikeRoute(req.principal, Find(s, req.post));
    match reply.saved
    case None => s
    case Some(p) => s[p.id := p]
  }

  /** A run of like requests, served one after the other. */
  function RunLikes(s: Store, reqs: seq<LikeRequest>): (s': Store)
    requires WellKeyed(s)
    ensures WellKeyed(s')
    ensures s'.Keys == s.Keys
    ensures forall id :: id in s && LikesConsistent(s[id]) ==> LikesConsistent(s'[id])
    ensures StoreConsistent(s) ==> StoreConsistent(s')
    decreases |reqs|
  {
    if reqs == [] then s else RunLikes(ApplyLike(s, reqs[0]), reqs[1..])
  }

  /** The usernames of the authenticated requests in `reqs` that like post `id`. */
  function Likers(reqs: seq<LikeRequest>, id: PostId): set<Username> {
    set i | 0 <= i < |reqs| && reqs[i].post == id && reqs[i].principal.Some?
          :: reqs[i].principal.value.username
  }

  /** The likers of a run are those of its first request and those of the rest. */
  lemma LikersSplit(reqs: seq<LikeRequest>, id: PostId)
    requires reqs != []
    ensures Likers(reqs, id) == Likers([reqs[0]], id) + Likers(reqs[1..], id)
  {
    forall u | u in Likers(reqs, id) ensures u in Likers([reqs[0]], id) + Likers(reqs[1..], id) {
      var i :| 0 <= i < |reqs| && reqs[i].post == id && reqs[i].principal.Some?
               && reqs[i].principal.value.username == u;
      if i > 0 {
        assert reqs[1..][i - 1] == reqs[i];
      } else {
        assert [reqs[0]][0] == reqs[i];
      }
    }
    forall u | u in Likers(reqs[1..], id) ensures u in Likers(reqs, id) {
      var i :| 0 <= i < |reqs[1..]| && reqs[1..][i].post == id && reqs[1..][i].principal.Some?
               && reqs[1..][i].principal.value.username == u;
      assert reqs[i + 1] == reqs[1..][i];
    }
    forall u | u in Likers([reqs[0]], id) ensures u in Likers(reqs, id) {
      assert [reqs[0]][0] == reqs[0];
    }
  }

  /** One request adds its requester, when authenticated and aimed at `id`,
      to the likers of `id`, and nobody else. */
  lemma ApplyLikeLikers(s: Store, req: LikeRequest, id: PostId)
    requires WellKeyed(s) && id in s
    ensures Elements(ApplyLike(s, req)[id].likedby) == Elements(s[id].likedby) + Likers([req], id)
  {
    var s1 := ApplyLike(s, req);
    assert [req][0] == req;
    if req.post == id && req.principal.Some? {
      var u := req.principal.value.username;
      assert u in Likers([req], id);
      assert Likers([req], id) == {u};
      if u !in s[id].likedby {
        assert s1[id].likedby == s[id].likedby + [u];
      }
    } else {
      assert Likers([req], id) == {};
    }
  }

  /** After any run of like requests, a post's likers are the ones it had plus
      every authenticated user who asked to like it. */
  lemma {:induction false} RunLikesLikers(s: Store, reqs: seq<LikeRequest>, id: PostId)
    requires WellKeyed(s) && id in s
    ensures Elements(RunLikes(s, reqs)[id].likedby) == Elements(s[id].likedby) + Likers(reqs, id)
    decreases |reqs|
  {
    if reqs != [] {
      var s1 := ApplyLike(s, reqs[0]);
      ApplyLikeLikers(s, reqs[0], id);
      RunLikesLikers(s1, reqs[1..], id);
      LikersSplit(reqs, id);
    }
  }

  /** The like counter of a post equals the number of distinct users who have
      liked it: those it started with and every authenticated requester. */
  lemma LikesCountDistinctLikers(s: Store, reqs: seq<LikeRequest>, id: PostId)
    requires WellKeyed(s) && id in s && LikesConsistent(s[id])
    ensures RunLikes(s, reqs)[id].likes == |Elements(s[id].likedby) + Likers(reqs, id)|
  {
    RunLikesLikers(s, reqs, id);
    DistinctCardinality(RunLikes(s, reqs)[id].likedby);
  }

  /** For a post just created, the counter is the number of distinct users who
      asked to like it. */
  lemma FreshPostLikes(s: Store, reqs: seq<LikeRequest>, p: Post)
    requires WellKeyed(s) && p.id !in s && p.likedby == [] && p.likes == 0
    ensures RunLikes(s[p.id := p], reqs)[p.id].likes == |Likers(reqs, p.id)|
  {
    var s0 := s[p.id := p];
    assert WellKeyed(s0);
    LikesCountDistinctLikers(s0, reqs, p.id);
    assert Elements(s0[p.id].likedby) == {};
  }
}
