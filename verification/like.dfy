/** The like controller: one toggle per kind of target, and the listing of a
    user's liked videos. */
module Likes {
  import opened Seqs
  import opened Documents
  import opened Links

  /** Which collection a like toggle looks its target up in. */
  datatype Kind = VideoKind | CommentKind | TweetKind

  function TargetOf(kind: Kind, id: Id): Target {
    match kind
    case VideoKind => OnVideo(id)
    case CommentKind => OnComment(id)
    case TweetKind => OnTweet(id)
  }

  /** The target document exists in its collection. */
  predicate TargetExists(s: Store, kind: Kind, id: Id) {
    match kind
    case VideoKind => id in s.videos
    case CommentKind => id in s.comments
    case TweetKind => id in s.tweets
  }

  /** At most one like per (target, user): the like documents are distinct. */
  ghost predicate UniqueLikes(s: Store) {
    Distinct(s.likes)
  }

  /** `toggleVideoLike`, `toggleCommentLike` and `toggleTweetLike`: the target
      is looked up without validating its identifier first, then the like of
      the current user on it is removed (200, no payload) or created (201). */
  function ToggleLike(s: Store, user: Id, kind: Kind, targetId: IdParam): (r: Reply<Like>)
    ensures targetId.Malformed? ==> Rejected(r, s, INTERNAL_ERROR)
    ensures targetId.Valid? && !TargetExists(s, kind, targetId.id) ==> Rejected(r, s, NOT_FOUND)
    ensures targetId.Valid? && TargetExists(s, kind, targetId.id) ==>
      var like := Like(TargetOf(kind, targetId.id), user);
      && r.store == s.(likes := r.store.likes)
      && (r.status == CREATED <==> like !in s.likes)
      && (r.status == OK <==> like in s.likes)
      && (like !in s.likes ==> r.store.likes == s.likes + [like] && r.data == Some(like))
      && (like in s.likes ==> r.data.None? && multiset(r.store.likes) == multiset(s.likes) - multiset{like})
  {
    match targetId
    case Malformed => Fail(INTERNAL_ERROR, s)
    case Valid(id) =>
      if !TargetExists(s, kind, id) then Fail(NOT_FOUND, s)
      else
        var like := Like(TargetOf(kind, id), user);
        var t := Toggle(s.likes, like);
        if t.created then Reply(CREATED, Some(like), s.(likes := t.links))
        else Reply(OK, None, s.(likes := t.links))
  }

  /** Every toggle keeps at most one like per (target, user). */
  lemma ToggleLikePreservesUnique(s: Store, user: Id, kind: Kind, targetId: IdParam)
    requires UniqueLikes(s)
    ensures UniqueLikes(ToggleLike(s, user, kind, targetId).store)
  {
    if targetId.Valid? && TargetExists(s, kind, targetId.id) {
      TogglePreservesDistinct(s.likes, Like(TargetOf(kind, targetId.id), user));
    }
  }

  /** Two toggles in sequence answer 201 then 200 or 200 then 201, and give
      back the same likes (the same sequence when the first one created);
      a third toggle answers like the first. */
  lemma ToggleLikeTwice(s: Store, user: Id, kind: Kind, id: Id)
    requires UniqueLikes(s) && TargetExists(s, kind, id)
    ensures var first := ToggleLike(s, user, kind, Valid(id));
            var second := ToggleLike(first.store, user, kind, Valid(id));
            var third := ToggleLike(second.store, user, kind, Valid(id));
            && (first.status == CREATED || first.status == OK)
            && second.status == (if first.status == CREATED then OK else CREATED)
            && third.status == first.status
            && second.store == s.(likes := second.store.likes)
            && multiset(second.store.likes) == multiset(s.likes)
            && (first.status == CREATED ==> second.store == s)
  {
    var like := Like(TargetOf(kind, id), user);
    var t1 := Toggle(s.likes, like);
    var t2 := Toggle(t1.links, like);
    ToggleTwice(s.likes, like);
    ToggleThrice(s.likes, like);
    var first := ToggleLike(s, user, kind, Valid(id));
    assert first.store == s.(likes := t1.links);
    var second := ToggleLike(first.store, user, kind, Valid(id));
    assert second.store == s.(likes := t2.links);
  }

  /** The test "is a video like of `user`".
      The ensures only lets the verifier apply the returned function; it is
      not a specification. */
  function VideoLikeOf(user: Id): (p: Like -> bool)
    ensures forall l :: p(l) <==> l.likedBy == user && l.target.OnVideo?
  {
    (l: Like) => l.likedBy == user && l.target.OnVideo?
  }

  /** `getLikedVideos`: the current user's likes whose target is a video, in
      natural order, or 404 when there are none. */
  function GetLikedVideos(s: Store, user: Id): (r: Reply<seq<Like>>)
    ensures r.store == s
    ensures r.status == NOT_FOUND <==> forall l :: l in s.likes ==> !(l.likedBy == user && l.target.OnVideo?)
    ensures r.status != NOT_FOUND ==> r.status == OK && r.data.Some?
    ensures r.data.Some? ==> forall l :: l in r.data.value <==> l in s.likes && l.likedBy == user && l.target.OnVideo?
  {
    var liked := Filter(s.likes, VideoLikeOf(user));
    if |liked| == 0 then Fail(NOT_FOUND, s)
    else
      assert liked[0] in liked;
      Reply(OK, Some(liked), s)
  }

  /** A toggle by one user leaves every other user's liked-video listing as
      it was, order included. */
  lemma ToggleLikeLeavesOtherUsers(s: Store, user: Id, other: Id, kind: Kind, targetId: IdParam)
    requires other != user
    ensures var after := GetLikedVideos(ToggleLike(s, user, kind, targetId).store, other);
            var before := GetLikedVideos(s, other);
            after.status == before.status && after.data == before.data
  {
    if targetId.Valid? && TargetExists(s, kind, targetId.id) {
      var like := Like(TargetOf(kind, targetId.id), user);
      var p := VideoLikeOf(other);
      var t := Toggle(s.likes, like);
      assert ToggleLike(s, user, kind, targetId).store.likes == t.links;
      if like in s.likes {
        FilterRemoveFirst(s.likes, like, p);
      } else {
        FilterAppend(s.likes, like, p);
      }
      assert Filter(t.links, p) == Filter(s.likes, p);
    }
  }

  /** A toggle on a comment or a tweet leaves the liked-video listing of
      every user as it was. */
  lemma ToggleNonVideoLikeLeavesListing(s: Store, user: Id, anyone: Id, kind: Kind, targetId: IdParam)
    requires kind != VideoKind
    ensures var after := GetLikedVideos(ToggleLike(s, user, kind, targetId).store, anyone);
            var before := GetLikedVideos(s, anyone);
            after.status == before.status && after.data == before.data
  {
    if targetId.Valid? && TargetExists(s, kind, targetId.id) {
      var like := Like(TargetOf(kind, targetId.id), user);
      var p := VideoLikeOf(anyone);
      var t := Toggle(s.likes, like);
      assert ToggleLike(s, user, kind, targetId).store.likes == t.links;
      if like in s.likes {
        FilterRemoveFirst(s.likes, like, p);
      } else {
        FilterAppend(s.likes, like, p);
      }
      assert Filter(t.links, p) == Filter(s.likes, p);
    }
  }

  /** A user with no video likes who likes and then unlikes a video is back
      to an empty listing: 201, then 200, then 404. */
  lemma LikeUnlikeListsNothing(s: Store, user: Id, video: Id)
    requires UniqueLikes(s) && video in s.videos
    requires GetLikedVideos(s, user).status == NOT_FOUND
    ensures var first := ToggleLike(s, user, VideoKind, Valid(video));
            var second := ToggleLike(first.store, user, VideoKind, Valid(video));
            && first.status == CREATED
            && second.status == OK
            && GetLikedVideos(second.store, user).status == NOT_FOUND
  {
    ToggleLikeTwice(s, user, VideoKind, video);
  }
}
