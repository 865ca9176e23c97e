/** The subscription controller: toggling the current user's subscription to
    a channel, and the two listings by channel and by subscriber. */
module Subscriptions {
  import opened Seqs
  import opened Documents
  import opened Links

  /** At most one subscription per (subscriber, channel) pair. */
  ghost predicate UniqueSubscriptions(s: Store) {
    Distinct(s.subscriptions)
  }

  /** `toggleSubscription`: 400 for a malformed channel identifier, 404 when
      no user has it, otherwise the current user's subscription to it is
      removed (200, no payload) or created (201). */
  function ToggleSubscription(s: Store, user: Id, channelId: IdParam): (r: Reply<Subscription>)
    ensures channelId.Malformed? ==> Rejected(r, s, BAD_REQUEST)
    ensures channelId.Valid? && channelId.id !in s.users ==> Rejected(r, s, NOT_FOUND)
    ensures channelId.Valid? && channelId.id in s.users ==>
      var sub := Subscription(user, channelId.id);
      && r.store == s.(subscriptions := r.store.subscriptions)
      && (r.status == CREATED <==> sub !in s.subscriptions)
      && (r.status == OK <==> sub in s.subscriptions)
      && (sub !in s.subscriptions ==> r.store.subscriptions == s.subscriptions + [sub] && r.data == Some(sub))
      && (sub in s.subscriptions ==>
            r.data.None? && multiset(r.store.subscriptions) == multiset(s.subscriptions) - multiset{sub})
  {
    match channelId
    case Malformed => Fail(BAD_REQUEST, s)
    case Valid(channel) =>
      if channel !in s.users then Fail(NOT_FOUND, s)
      else
        var sub := Subscription(user, channel);
        var t := Toggle(s.subscriptions, sub);
        if t.created then Reply(CREATED, Some(sub), s.(subscriptions := t.links))
        else Reply(OK, None, s.(subscriptions := t.links))
  }

  /** Every toggle keeps at most one subscription per pair. */
  lemma ToggleSubscriptionPreservesUnique(s: Store, user: Id, channelId: IdParam)
    requires UniqueSubscriptions(s)
    ensures UniqueSubscriptions(ToggleSubscription(s, user, channelId).store)
  {
    if channelId.Valid? && channelId.id in s.users {
      TogglePreservesDistinct(s.subscriptions, Subscription(user, channelId.id));
    }
  }

  /** Two toggles in sequence answer 201 then 200 or 200 then 201 and give
      back the same subscriptions (the same sequence when the first one
      subscribed); a third toggle answers like the first. */
  lemma ToggleSubscriptionTwice(s: Store, user: Id, channel: Id)
    requires UniqueSubscriptions(s) && channel in s.users
    ensures var first := ToggleSubscription(s, user, Valid(channel));
            var second := ToggleSubscription(first.store, user, Valid(channel));
            var third := ToggleSubscription(second.store, user, Valid(channel));
            && (first.status == CREATED || first.status == OK)
            && second.status == (if first.status == CREATED then OK else CREATED)
            && third.status == first.status
            && second.store == s.(subscriptions := second.store.subscriptions)
            && multiset(second.store.subscriptions) == multiset(s.subscriptions)
            && (first.status == CREATED ==> second.store == s)
  {
    var sub := Subscription(user, channel);
    var t1 := Toggle(s.subscriptions, sub);
    var t2 := Toggle(t1.links, sub);
    ToggleTwice(s.subscriptions, sub);
    ToggleThrice(s.subscriptions, sub);
    var first := ToggleSubscription(s, user, Valid(channel));
    assert first.store == s.(subscriptions := t1.links);
    var second := ToggleSubscription(first.store, user, Valid(channel));
    assert second.store == s.(subscriptions := t2.links);
  }

  /** The test "is a subscription to `channel`".
      The ensures only lets the verifier apply the returned function; it is
      not a specification. */
  function ToChannel(channel: Id): (p: Subscription -> bool)
    ensures forall sub :: p(sub) <==> sub.channel == channel
  {
    (sub: Subscription) => sub.channel == channel
  }

  /** The test "is a subscription held by `subscriber`".
      The ensures only lets the verifier apply the returned function; it is
      not a specification. */
  function FromSubscriber(subscriber: Id): (p: Subscription -> bool)
    ensures forall sub :: p(sub) <==> sub.subscriber == subscriber
  {
    (sub: Subscription) => sub.subscriber == subscriber
  }

  /** `getUserChannelSubscribers`: 400 for a malformed channel identifier,
      404 when no user has it or when nobody subscribes to it, otherwise the
      subscriptions to that channel. */
  function GetUserChannelSubscribers(s: Store, channelId: IdParam): (r: Reply<seq<Subscription>>)
    ensures r.store == s
    ensures channelId.Malformed? ==> r.status == BAD_REQUEST && r.data.None?
    ensures channelId.Valid? ==>
      (r.status == NOT_FOUND <==>
         channelId.id !in s.users || forall sub :: sub in s.subscriptions ==> sub.channel != channelId.id)
    ensures channelId.Valid? ==> r.status == OK || r.status == NOT_FOUND
    ensures r.data.Some? <==> r.status == OK
    ensures r.data.Some? ==>
      channelId.Valid? && channelId.id in s.users &&
      forall sub :: sub in r.data.value <==> sub in s.subscriptions && sub.channel == channelId.id
  {
    match channelId
    case Malformed => Fail(BAD_REQUEST, s)
    case Valid(channel) =>
      if channel !in s.users then Fail(NOT_FOUND, s)
      else
        var subs := Filter(s.subscriptions, ToChannel(channel));
        if |subs| == 0 then Fail(NOT_FOUND, s)
        else
          assert subs[0] in subs;
          Reply(OK, Some(subs), s)
  }

  /** `getSubscribedChannels`: a malformed subscriber identifier answers
      404, not 400; so do an unknown subscriber and one with no
      subscriptions; otherwise the subscriptions that subscriber holds. */
  function GetSubscribedChannels(s: Store, subscriberId: IdParam): (r: Reply<seq<Subscription>>)
    ensures r.store == s
    ensures subscriberId.Malformed? ==> r.status == NOT_FOUND && r.data.None?
    ensures subscriberId.Valid? ==>
      (r.status == NOT_FOUND <==>
         subscriberId.id !in s.users || forall sub :: sub in s.subscriptions ==> sub.subscriber != subscriberId.id)
    ensures r.status == OK || r.status == NOT_FOUND
    ensures r.data.Some? <==> r.status == OK
    ensures r.data.Some? ==>
      subscriberId.Valid? && subscriberId.id in s.users &&
      forall sub :: sub in r.data.value <==> sub in s.subscriptions && sub.subscriber == subscriberId.id
  {
    match subscriberId
    case Malformed => Fail(NOT_FOUND, s)
    case Valid(subscriber) =>
      if subscriber !in s.users then Fail(NOT_FOUND, s)
      else
        var subs := Filter(s.subscriptions, FromSubscriber(subscriber));
        if |subs| == 0 then Fail(NOT_FOUND, s)
        else
          assert subs[0] in subs;
          Reply(OK, Some(subs), s)
  }

  /** After a toggle that answers 201 the channel's subscriber listing holds
      the new subscription; after one that answers 200 it no longer does. */
  lemma ToggleShowsInSubscriberListing(s: Store, user: Id, channel: Id)
    requires UniqueSubscriptions(s) && channel in s.users
    ensures var t := ToggleSubscription(s, user, Valid(channel));
            var listing := GetUserChannelSubscribers(t.store, Valid(channel));
            && (t.status == CREATED ==> listing.status == OK && Subscription(user, channel) in listing.data.value)
            && (t.status == OK ==> listing.data.None? || Subscription(user, channel) !in listing.data.value)
  {
    var sub := Subscription(user, channel);
    var t := ToggleSubscription(s, user, Valid(channel));
    if t.status == OK {
      DistinctMultiset(s.subscriptions);
      assert multiset(t.store.subscriptions)[sub] == 0;
    } else {
      assert sub in t.store.subscriptions;
    }
  }

  /** The subscriber's side of the same toggle: after a 201 the user's
      subscribed-channels listing holds the new subscription; after a 200 it
      no longer does. */
  lemma ToggleShowsInSubscribedListing(s: Store, user: Id, channel: Id)
    requires UniqueSubscriptions(s) && channel in s.users && user in s.users
    ensures var t := ToggleSubscription(s, user, Valid(channel));
            var listing := GetSubscribedChannels(t.store, Valid(user));
            && (t.status == CREATED ==> listing.status == OK && Subscription(user, channel) in listing.data.value)
            && (t.status == OK ==> listing.data.None? || Subscription(user, channel) !in listing.data.value)
  {
    var sub := Subscription(user, channel);
    var t := ToggleSubscription(s, user, Valid(channel));
    if t.status == OK {
      DistinctMultiset(s.subscriptions);
      assert multiset(t.store.subscriptions)[sub] == 0;
    } else {
      assert sub in t.store.subscriptions;
    }
  }
}
