/** The tweet controller: create, list the current user's tweets, and the
    owner-gated update and delete. */
module Tweets {
  import opened Documents

  /** `createTweet`: empty content answers 400; otherwise a tweet owned by the
      current user is stored under the identifier `newId` the database assigns. */
  function CreateTweet(s: Store, user: Id, content: Field, newId: Id): (r: Reply<Tweet>)
    requires newId !in s.tweets
    ensures !Present(content) ==> Rejected(r, s, BAD_REQUEST)
    ensures Present(content) ==>
      && r.status == CREATED
      && r.store == s.(tweets := r.store.tweets)
      && newId in r.store.tweets
      && |r.store.tweets| == |s.tweets| + 1
      && r.store.tweets[newId].owner == user
      && r.store.tweets[newId].content == content.value
      && r.data == Some(r.store.tweets[newId])
      && OnlyAt(s.tweets, r.store.tweets, newId)
  {
    if !Present(content) then Fail(BAD_REQUEST, s)
    else
      var tweet := Tweet(content.value, user);
      Reply(CREATED, Some(tweet), s.(tweets := s.tweets[newId := tweet]))
  }

  /** `getUserTweets`: 404 when the current user's document is gone or when
      the user has no tweets; otherwise exactly the user's tweets. */
  function GetUserTweets(s: Store, user: Id): (r: Reply<map<Id, Tweet>>)
    ensures r.store == s
    ensures r.status == NOT_FOUND <==>
      user !in s.users || forall id :: id in s.tweets ==> s.tweets[id].owner != user
    ensures r.status == OK || r.status == NOT_FOUND
    ensures r.data.Some? <==> r.status == OK
    ensures r.data.Some? ==>
      forall id :: id in r.data.value <==> id in s.tweets && s.tweets[id].owner == user
    ensures r.data.Some? ==>
      forall id :: id in r.data.value ==> r.data.value[id] == s.tweets[id]
  {
    if user !in s.users then Fail(NOT_FOUND, s)
    else
      var mine := map id | id in s.tweets && s.tweets[id].owner == user :: s.tweets[id];
      if mine == map[] then
        assert forall id :: id in s.tweets ==> s.tweets[id].owner != user by {
          forall id | id in s.tweets ensures s.tweets[id].owner != user {
            assert s.tweets[id].owner == user ==> id in mine;
          }
        }
        Fail(NOT_FOUND, s)
      else
        Reply(OK, Some(mine), s)
  }

  /** `updateTweet`: the checks run in a fixed order: empty content (400,
      even for a tweet that does not exist), an identifier the database cannot
      cast (500), no such tweet (404), not the owner (403). A successful
      update replaces that tweet's content and nothing else. */
  function UpdateTweet(s: Store, user: Id, tweetId: IdParam, content: Field): (r: Reply<Tweet>)
    ensures !Present(content) ==> Rejected(r, s, BAD_REQUEST)
    ensures Present(content) && tweetId.Malformed? ==> Rejected(r, s, INTERNAL_ERROR)
    ensures Present(content) && tweetId.Valid? && tweetId.id !in s.tweets ==> Rejected(r, s, NOT_FOUND)
    ensures Present(content) && tweetId.Valid? && tweetId.id in s.tweets && s.tweets[tweetId.id].owner != user ==>
      Rejected(r, s, FORBIDDEN)
    ensures Present(content) && tweetId.Valid? && tweetId.id in s.tweets && s.tweets[tweetId.id].owner == user ==>
      var id := tweetId.id;
      && r.status == OK
      && r.store == s.(tweets := r.store.tweets)
      && id in r.store.tweets
      && r.store.tweets[id].content == content.value
      && r.store.tweets[id].owner == s.tweets[id].owner
      && r.data == Some(r.store.tweets[id])
      && OnlyAt(s.tweets, r.store.tweets, id)
  {
    if !Present(content) then Fail(BAD_REQUEST, s)
    else match tweetId
      case Malformed => Fail(INTERNAL_ERROR, s)
      case Valid(id) =>
        if id !in s.tweets then Fail(NOT_FOUND, s)
        else if s.tweets[id].owner != user then Fail(FORBIDDEN, s)
        else
          var tweet := s.tweets[id].(content := content.value);
          Reply(OK, Some(tweet), s.(tweets := s.tweets[id := tweet]))
  }

  /** `deleteTweet`: 500 for an identifier the database cannot cast, 404 for
      no such tweet, 403 for a non-owner; the owner removes exactly that
      tweet (200, no payload). */
  function DeleteTweet(s: Store, user: Id, tweetId: IdParam): (r: Reply<Tweet>)
    ensures tweetId.Malformed? ==> Rejected(r, s, INTERNAL_ERROR)
    ensures tweetId.Valid? && tweetId.id !in s.tweets ==> Rejected(r, s, NOT_FOUND)
    ensures tweetId.Valid? && tweetId.id in s.tweets && s.tweets[tweetId.id].owner != user ==>
      Rejected(r, s, FORBIDDEN)
    ensures tweetId.Valid? && tweetId.id in s.tweets && s.tweets[tweetId.id].owner == user ==>
      && r.status == OK
      && r.data.None?
      && r.store == s.(tweets := r.store.tweets)
      && tweetId.id !in r.store.tweets
      && OnlyAt(s.tweets, r.store.tweets, tweetId.id)
  {
    match tweetId
    case Malformed => Fail(INTERNAL_ERROR, s)
    case Valid(id) =>
      if id !in s.tweets then Fail(NOT_FOUND, s)
      else if s.tweets[id].owner != user then Fail(FORBIDDEN, s)
      else Reply(OK, None, s.(tweets := s.tweets - {id}))
  }

  /** No tweet handler changes the owner of a tweet that already exists. */
  lemma TweetOwnersAreFixed(s: Store, user: Id, tweetId: IdParam, content: Field, newId: Id)
    requires newId !in s.tweets
    ensures var after := CreateTweet(s, user, content, newId).store;
            forall id :: id in s.tweets ==> id in after.tweets && after.tweets[id].owner == s.tweets[id].owner
    ensures var after := UpdateTweet(s, user, tweetId, content).store;
            forall id :: id in s.tweets ==> id in after.tweets && after.tweets[id].owner == s.tweets[id].owner
    ensures var after := DeleteTweet(s, user, tweetId).store;
            forall id :: id in s.tweets && id in after.tweets ==> after.tweets[id].owner == s.tweets[id].owner
  {
  }

  /** Creating a tweet under an unused identifier and deleting it again gives
      back the original store. */
  lemma CreateThenDeleteTweet(s: Store, user: Id, content: Field, newId: Id)
    requires Present(content) && newId !in s.tweets
    ensures var created := CreateTweet(s, user, content, newId);
            var deleted := DeleteTweet(created.store, user, Valid(newId));
            deleted.status == OK && deleted.store == s
  {
    var created := CreateTweet(s, user, content, newId);
    assert created.store.tweets - {newId} == s.tweets;
  }

  /** Another user's edit of a tweet is refused with 403 whatever content it
      carries, provided it carries some; the owner's identical request then
      succeeds, the owner's delete after it succeeds, and an owner with no
      other tweet is then told there are none (404). */
  lemma OwnerAndStrangerScenario(s: Store, owner: Id, stranger: Id, id: Id, content: Field)
    requires owner != stranger && owner in s.users && Present(content)
    requires id in s.tweets && s.tweets[id].owner == owner
    requires forall other :: other in s.tweets && other != id ==> s.tweets[other].owner != owner
    ensures var refused := UpdateTweet(s, stranger, Valid(id), content);
            var updated := UpdateTweet(refused.store, owner, Valid(id), content);
            var deleted := DeleteTweet(updated.store, owner, Valid(id));
            && refused.status == FORBIDDEN && refused.store == s
            && updated.status == OK && updated.store.tweets[id].content == content.value
            && deleted.status == OK
            && GetUserTweets(deleted.store, owner).status == NOT_FOUND
  {
  }
}
