/** The comment controller: adding a comment to a video, and the owner-gated
    update and delete. */
module Comments {
  import opened Documents

  /** `addComment`: empty content answers 400, a video identifier the
      database cannot cast 500, no such video 404; otherwise a comment on
      that video owned by the current user is stored under the identifier
      `newId` the database assigns. */
  function AddComment(s: Store, user: Id, videoId: IdParam, content: Field, newId: Id): (r: Reply<Comment>)
    requires newId !in s.comments
    ensures !Present(content) ==> Rejected(r, s, BAD_REQUEST)
    ensures Present(content) && videoId.Malformed? ==> Rejected(r, s, INTERNAL_ERROR)
    ensures Present(content) && videoId.Valid? && videoId.id !in s.videos ==> Rejected(r, s, NOT_FOUND)
    ensures Present(content) && videoId.Valid? && videoId.id in s.videos ==>
      && r.status == CREATED
      && r.store == s.(comments := r.store.comments)
      && newId in r.store.comments
      && |r.store.comments| == |s.comments| + 1
      && r.store.comments[newId] == Comment(content.value, videoId.id, user)
      && r.data == Some(r.store.comments[newId])
      && OnlyAt(s.comments, r.store.comments, newId)
  {
    if !Present(content) then Fail(BAD_REQUEST, s)
    else match videoId
      case Malformed => Fail(INTERNAL_ERROR, s)
      case Valid(video) =>
        if video !in s.videos then Fail(NOT_FOUND, s)
        else
          var comment := Comment(content.value, video, user);
          Reply(CREATED, Some(comment), s.(comments := s.comments[newId := comment]))
  }

  /** `updateComment`: in this order, empty content (400), an identifier the
      database cannot cast (500), no such comment (404), not the owner (403).
      A successful update replaces the content only. */
  function UpdateComment(s: Store, user: Id, commentId: IdParam, content: Field): (r: Reply<Comment>)
    ensures !Present(content) ==> Rejected(r, s, BAD_REQUEST)
    ensures Present(content) && commentId.Malformed? ==> Rejected(r, s, INTERNAL_ERROR)
    ensures Present(content) && commentId.Valid? && commentId.id !in s.comments ==> Rejected(r, s, NOT_FOUND)
    ensures Present(content) && commentId.Valid? && commentId.id in s.comments
              && s.comments[commentId.id].owner != user ==>
      Rejected(r, s, FORBIDDEN)
    ensures Present(content) && commentId.Valid? && commentId.id in s.comments
              && s.comments[commentId.id].owner == user ==>
      var id := commentId.id;
      && r.status == OK
      && r.store == s.(comments := r.store.comments)
      && id in r.store.comments
      && r.store.comments[id].content == content.value
      && r.store.comments[id].video == s.comments[id].video
      && r.store.comments[id].owner == s.comments[id].owner
      && r.data == Some(r.store.comments[id])
      && OnlyAt(s.comments, r.store.comments, id)
  {
    if !Present(content) then Fail(BAD_REQUEST, s)
    else match commentId
      case Malformed => Fail(INTERNAL_ERROR, s)
      case Valid(id) =>
        if id !in s.comments then Fail(NOT_FOUND, s)
        else if s.comments[id].owner != user then Fail(FORBIDDEN, s)
        else
          var comment := s.comments[id].(content := content.value);
          Reply(OK, Some(comment), s.(comments := s.comments[id := comment]))
  }

  /** `deleteComment`: 500 for an identifier the database cannot cast, 404
      for no such comment, 403 for a non-owner; the owner removes exactly
      that comment (200, no payload). */
  function DeleteComment(s: Store, user: Id, commentId: IdParam): (r: Reply<Comment>)
    ensures commentId.Malformed? ==> Rejected(r, s, INTERNAL_ERROR)
    ensures commentId.Valid? && commentId.id !in s.comments ==> Rejected(r, s, NOT_FOUND)
    ensures commentId.Valid? && commentId.id in s.comments && s.comments[commentId.id].owner != user ==>
      Rejected(r, s, FORBIDDEN)
    ensures commentId.Valid? && commentId.id in s.comments && s.comments[commentId.id].owner == user ==>
      && r.status == OK
      && r.data.None?
      && r.store == s.(comments := r.store.comments)
      && commentId.id !in r.store.comments
      && OnlyAt(s.comments, r.store.comments, commentId.id)
  {
    match commentId
    case Malformed => Fail(INTERNAL_ERROR, s)
    case Valid(id) =>
      if id !in s.comments then Fail(NOT_FOUND, s)
      else if s.comments[id].owner != user then Fail(FORBIDDEN, s)
      else Reply(OK, None, s.(comments := s.comments - {id}))
  }

  /** Adding a comment under an unused identifier and deleting it again, as
      its author, gives back the original store. */
  lemma AddThenDeleteComment(s: Store, user: Id, video: Id, content: Field, newId: Id)
    requires Present(content) && video in s.videos && newId !in s.comments
    ensures var added := AddComment(s, user, Valid(video), content, newId);
            var deleted := DeleteComment(added.store, user, Valid(newId));
            added.status == CREATED && deleted.status == OK && deleted.store == s
  {
    var added := AddComment(s, user, Valid(video), content, newId);
    assert added.store.comments - {newId} == s.comments;
  }

  /** Two updates by the owner leave the content of the second; the first
      is simply overwritten. */
  lemma UpdateCommentOverwrites(s: Store, user: Id, id: Id, first: Field, second: Field)
    requires Present(first) && Present(second)
    requires id in s.comments && s.comments[id].owner == user
    ensures var once := UpdateComment(s, user, Valid(id), first);
            UpdateComment(once.store, user, Valid(id), second) == UpdateComment(s, user, Valid(id), second)
  {
    var once := UpdateComment(s, user, Valid(id), first);
    assert once.store.comments[id := once.store.comments[id].(content := second.value)]
        == s.comments[id := s.comments[id].(content := second.value)];
  }
}
