/** The dashboard controller: a channel's statistics and the list of its
    videos. */
module Dashboard {
  import opened Seqs
  import opened Documents
  import opened Videos

  /** What `getChannelStats` reports. */
  datatype Stats = Stats(totalVideos: nat, viewCount: nat, totalLikes: nat)

  /** The statistics of the videos in `videos` owned by `channel`: how many
      there are, and the sums of their views and of their like counts. */
  function StatsOf(videos: map<Id, Video>, channel: Id): (r: Stats)
    ensures r.totalVideos == |set id: Id | id in videos && videos[id].owner == channel|
    ensures r.totalVideos == 0 ==> r.viewCount == 0 && r.totalLikes == 0
  {
    var owned := ChannelVideos(videos, channel);
    OwnedCount(videos, channel);
    Stats(|owned|, SumOf(owned, ViewsIn(videos)), SumOf(owned, LikesIn(videos)))
  }

  /** `getChannelStats`. The channel is looked up without validating its
      identifier, so a malformed one answers 500; a channel that is not a
      user answers 400, not 404. Otherwise: the number of videos the channel
      owns, the sum of their views, and the sum of the sizes of their
      `likes` arrays (0 for a video without one). A channel with no videos
      has all three at 0. */
  function GetChannelStats(s: Store, channelId: IdParam): (r: Reply<Stats>)
    ensures r.store == s
    ensures channelId.Malformed? ==> r.status == INTERNAL_ERROR && r.data.None?
    ensures channelId.Valid? && channelId.id !in s.users ==> r.status == BAD_REQUEST && r.data.None?
    ensures channelId.Valid? && channelId.id in s.users ==>
      var owned := ChannelVideos(s.videos, channelId.id);
      && r.status == OK
      && r.data == Some(Stats(|owned|, SumOf(owned, ViewsIn(s.videos)), SumOf(owned, LikesIn(s.videos))))
    ensures r.data.Some? && r.data.value.totalVideos == 0 ==>
      r.data.value.viewCount == 0 && r.data.value.totalLikes == 0
  {
    match channelId
    case Malformed => Fail(INTERNAL_ERROR, s)
    case Valid(channel) =>
      if channel !in s.users then Fail(BAD_REQUEST, s)
      else
        Reply(OK, Some(StatsOf(s.videos, channel)), s)
  }

  /** `getChannelVideos`: 400 for a malformed identifier, 404 for a channel
      that is not a user; otherwise every video the channel owns, in natural
      order, and an empty list (still 200) when it owns none. */
  function GetChannelVideos(s: Store, channelId: IdParam): (r: Reply<seq<Id>>)
    ensures r.store == s
    ensures channelId.Malformed? ==> r.status == BAD_REQUEST && r.data.None?
    ensures channelId.Valid? && channelId.id !in s.users ==> r.status == NOT_FOUND && r.data.None?
    ensures channelId.Valid? && channelId.id in s.users ==>
      && r.status == OK
      && r.data.Some?
      && Distinct(r.data.value)
      && forall id :: id in r.data.value <==> id in s.videos && s.videos[id].owner == channelId.id
  {
    match channelId
    case Malformed => Fail(BAD_REQUEST, s)
    case Valid(channel) =>
      if channel !in s.users then Fail(NOT_FOUND, s)
      else Reply(OK, Some(ChannelVideos(s.videos, channel)), s)
  }

  /** `totalVideos` is the number of videos the channel owns, and the video
      list has exactly that many entries. */
  lemma StatsCountOwnedVideos(s: Store, channel: Id)
    requires channel in s.users
    ensures GetChannelStats(s, Valid(channel)).data.value.totalVideos
         == |set id: Id | id in s.videos && s.videos[id].owner == channel|
    ensures |GetChannelVideos(s, Valid(channel)).data.value| == GetChannelStats(s, Valid(channel)).data.value.totalVideos
  {
    OwnedCount(s.videos, channel);
    assert GetChannelStats(s, Valid(channel)).data.value == StatsOf(s.videos, channel);
    assert GetChannelVideos(s, Valid(channel)).data.value == ChannelVideos(s.videos, channel);
  }

  lemma OwnedCount(videos: map<Id, Video>, channel: Id)
    ensures |ChannelVideos(videos, channel)| == |set id: Id | id in videos && videos[id].owner == channel|
  {
    DistinctSize(ChannelVideos(videos, channel), set id: Id | id in videos && videos[id].owner == channel);
  }

  /** The channel's video list is its owner-filtered video listing. */
  lemma ChannelVideosAreOwnerListing(videos: map<Id, Video>, channel: Id, textMatch: (string, string) -> bool)
    ensures ChannelVideos(videos, channel) == Matching(videos, None, Some(channel), textMatch)
  {
    FilterCongruent(Scan(videos), OwnedBy(videos, channel), Matcher(videos, None, Some(channel), textMatch));
  }

  /** Removing one video from the collection removes it, and nothing else,
      from every channel's list. */
  lemma ChannelVideosAfterRemove(videos: map<Id, Video>, channel: Id, k: Id)
    ensures ChannelVideos(videos - {k}, channel) == Without(ChannelVideos(videos, channel), k)
  {
    var rest := videos - {k};
    var scan := Scan(videos);
    var owned := OwnedBy(videos, channel);
    var other := Other<nat>(k);
    ScanAfterRemove(videos, k);
    FilterCongruent<nat>(Filter<nat>(scan, other), OwnedBy(rest, channel), owned);
    assert ChannelVideos(rest, channel) == Filter<nat>(Filter<nat>(scan, other), owned);
    FilterCommute<nat>(scan, other, owned);
    assert ChannelVideos(videos, channel) == Filter<nat>(scan, owned);
    assert Without(Filter<nat>(scan, owned), k) == Filter<nat>(Filter<nat>(scan, owned), other);
  }

  lemma ScanAfterRemove(videos: map<Id, Video>, k: Id)
    ensures Scan(videos - {k}) == Filter<nat>(Scan(videos), Other<nat>(k))
  {
    var rest := videos - {k};
    assert rest.Keys == videos.Keys - {k};
    AscendingRemove(videos.Keys, k);
    assert Scan(rest) == Ascending(rest.Keys);
    assert Scan(videos) == Ascending(videos.Keys);
  }

  /** Views and likes summed over videos that are in both collections and
      agree there on views and likes. */
  lemma SumsAgree(videos: map<Id, Video>, other: map<Id, Video>, xs: seq<Id>)
    requires forall i :: 0 <= i < |xs| ==> xs[i] in videos && xs[i] in other
    requires forall i :: 0 <= i < |xs| ==>
      other[xs[i]].views == videos[xs[i]].views && other[xs[i]].likes == videos[xs[i]].likes
    ensures SumOf(xs, ViewsIn(other)) == SumOf(xs, ViewsIn(videos))
    ensures SumOf(xs, LikesIn(other)) == SumOf(xs, LikesIn(videos))
  {
    forall i | 0 <= i < |xs| ensures ViewsIn(other)(xs[i]) == ViewsIn(videos)(xs[i]) {
      assert other[xs[i]].views == videos[xs[i]].views;
    }
    SumCongruent<nat>(xs, ViewsIn(other), ViewsIn(videos));
    forall i | 0 <= i < |xs| ensures LikesIn(other)(xs[i]) == LikesIn(videos)(xs[i]) {
      assert other[xs[i]].likes == videos[xs[i]].likes;
    }
    SumCongruent<nat>(xs, LikesIn(other), LikesIn(videos));
  }

  /** After removing a video, a channel's statistics are those of its old
      list without that video, measured in the old collection. */
  lemma StatsOfRemoved(videos: map<Id, Video>, channel: Id, video: Id)
    ensures var kept := Without<nat>(ChannelVideos(videos, channel), video);
            StatsOf(videos - {video}, channel) == Stats(|kept|, SumOf(kept, ViewsIn(videos)), SumOf(kept, LikesIn(videos)))
  {
    var rest := videos - {video};
    var kept := Without<nat>(ChannelVideos(videos, channel), video);
    ChannelVideosAfterRemove(videos, channel, video);
    assert ChannelVideos(rest, channel) == kept;
    forall i | 0 <= i < |kept|
      ensures kept[i] in videos && kept[i] in rest
      ensures rest[kept[i]].views == videos[kept[i]].views && rest[kept[i]].likes == videos[kept[i]].likes
    {
      assert kept[i] in kept;
    }
    SumsAgree(videos, rest, kept);
  }

  /** Deleting one of the channel's videos lowers `totalVideos` by one,
      `viewCount` by its views and `totalLikes` by its likes; deleting any
      other video leaves the channel's statistics as they were. */
  lemma StatsOfAfterRemove(videos: map<Id, Video>, channel: Id, video: Id)
    requires video in videos
    ensures var before := StatsOf(videos, channel);
            var after := StatsOf(videos - {video}, channel);
            && (videos[video].owner == channel ==>
                  && after.totalVideos + 1 == before.totalVideos
                  && after.viewCount + videos[video].views == before.viewCount
                  && after.totalLikes + LikesIn(videos)(video) == before.totalLikes)
            && (videos[video].owner != channel ==> after == before)
  {
    if videos[video].owner == channel {
      StatsAfterRemovingOwn(videos, channel, video);
    } else {
      StatsAfterRemovingOther(videos, channel, video);
    }
  }

  /** The owner case of `StatsOfAfterRemove`. */
  lemma StatsAfterRemovingOwn(videos: map<Id, Video>, channel: Id, video: Id)
    requires video in videos && videos[video].owner == channel
    ensures var before := StatsOf(videos, channel);
            var after := StatsOf(videos - {video}, channel);
            && after.totalVideos + 1 == before.totalVideos
            && after.viewCount + videos[video].views == before.viewCount
            && after.totalLikes + LikesIn(videos)(video) == before.totalLikes
  {
    var owned := ChannelVideos(videos, channel);
    var kept := Without<nat>(owned, video);
    var rest := videos - {video};
    assert StatsOf(videos, channel) == Stats(|owned|, SumOf(owned, ViewsIn(videos)), SumOf(owned, LikesIn(videos)));
    assert StatsOf(rest, channel) == Stats(|kept|, SumOf(kept, ViewsIn(videos)), SumOf(kept, LikesIn(videos))) by {
      StatsOfRemoved(videos, channel, video);
    }
    RemovedOwnVideo(videos, channel, video);
  }

  /** The other-owner case of `StatsOfAfterRemove`. */
  lemma StatsAfterRemovingOther(videos: map<Id, Video>, channel: Id, video: Id)
    requires video in videos && videos[video].owner != channel
    ensures StatsOf(videos - {video}, channel) == StatsOf(videos, channel)
  {
    var owned := ChannelVideos(videos, channel);
    StatsOfRemoved(videos, channel, video);
    assert StatsOf(videos, channel) == Stats(|owned|, SumOf(owned, ViewsIn(videos)), SumOf(owned, LikesIn(videos)));
    assert video !in owned;
    assert Without<nat>(owned, video) == owned;
  }

  lemma RemovedOwnVideo(videos: map<Id, Video>, channel: Id, video: Id)
    requires video in videos && videos[video].owner == channel
    ensures var owned := ChannelVideos(videos, channel);
            var kept := Without<nat>(owned, video);
            && |kept| + 1 == |owned|
            && SumOf(kept, ViewsIn(videos)) + videos[video].views == SumOf(owned, ViewsIn(videos))
            && SumOf(kept, LikesIn(videos)) + LikesIn(videos)(video) == SumOf(owned, LikesIn(videos))
  {
    var owned := ChannelVideos(videos, channel);
    WithoutOnce<nat>(owned, video);
    SumWithout<nat>(owned, video, ViewsIn(videos));
    SumWithout<nat>(owned, video, LikesIn(videos));
  }

  /** The same, for `deleteVideo` followed by `getChannelStats`. */
  lemma StatsAfterDelete(s: Store, channel: Id, video: Id)
    requires channel in s.users && video in s.videos
    ensures var before := GetChannelStats(s, Valid(channel)).data.value;
            var after := GetChannelStats(DeleteVideo(s, Valid(video)).store, Valid(channel)).data.value;
            var v := s.videos[video];
            && (v.owner == channel ==>
                  && after.totalVideos + 1 == before.totalVideos
                  && after.viewCount + v.views == before.viewCount
                  && after.totalLikes + LikesIn(s.videos)(video) == before.totalLikes)
            && (v.owner != channel ==> after == before)
  {
    var deleted := DeleteVideo(s, Valid(video)).store;
    assert deleted == s.(videos := s.videos - {video});
    StatsOfAfterRemove(s.videos, channel, video);
  }

  /** Replacing a video by one with the same owner leaves every channel's
      list as it was. */
  lemma ChannelVideosAfterReplace(videos: map<Id, Video>, channel: Id, video: Id, v: Video)
    requires video in videos && v.owner == videos[video].owner
    ensures ChannelVideos(videos[video := v], channel) == ChannelVideos(videos, channel)
  {
    var changed := videos[video := v];
    ScanAfterReplace(videos, video, v);
    var scan := Scan(videos);
    forall i | 0 <= i < |scan|
      ensures OwnedBy(changed, channel)(scan[i]) == OwnedBy(videos, channel)(scan[i])
    {
    }
    FilterCongruent<nat>(scan, OwnedBy(changed, channel), OwnedBy(videos, channel));
  }

  lemma ScanAfterReplace(videos: map<Id, Video>, k: Id, v: Video)
    requires k in videos
    ensures Scan(videos[k := v]) == Scan(videos)
  {
    assert videos[k := v].Keys == videos.Keys;
  }

  /** A change to one video that keeps its owner, views and likes leaves
      every channel's statistics as they were. */
  lemma StatsOfAfterReplace(videos: map<Id, Video>, channel: Id, video: Id, v: Video)
    requires video in videos
    requires v.owner == videos[video].owner && v.views == videos[video].views && v.likes == videos[video].likes
    ensures StatsOf(videos[video := v], channel) == StatsOf(videos, channel)
  {
    var changed := videos[video := v];
    ChannelVideosAfterReplace(videos, channel, video, v);
    var owned := ChannelVideos(videos, channel);
    forall i | 0 <= i < |owned|
      ensures owned[i] in videos && owned[i] in changed
      ensures changed[owned[i]].views == videos[owned[i]].views && changed[owned[i]].likes == videos[owned[i]].likes
    {
    }
    SumsAgree(videos, changed, owned);
  }

  /** The same, for a store whose video collection changes that way. */
  lemma StatsIgnoreOtherFields(s: Store, channel: Id, video: Id, v: Video)
    requires channel in s.users && video in s.videos
    requires v.owner == s.videos[video].owner && v.views == s.videos[video].views && v.likes == s.videos[video].likes
    ensures GetChannelStats(s.(videos := s.videos[video := v]), Valid(channel)).data
         == GetChannelStats(s, Valid(channel)).data
  {
    StatsOfAfterReplace(s.videos, channel, video, v);
  }

  /** Toggling a video's publish flag and updating its title, description
      or thumbnail leave every channel's statistics as they were. */
  lemma StatsIgnorePublishAndUpdate(s: Store, channel: Id, videoId: IdParam,
                                    title: Field, description: Field, thumbnail: Field)
    requires channel in s.users
    ensures GetChannelStats(TogglePublishStatus(s, videoId).store, Valid(channel)).data
         == GetChannelStats(s, Valid(channel)).data
    ensures GetChannelStats(UpdateVideo(s, videoId, title, description, thumbnail).store, Valid(channel)).data
         == GetChannelStats(s, Valid(channel)).data
  {
    if videoId.Valid? && videoId.id in s.videos {
      var id := videoId.id;
      var toggled := TogglePublishStatus(s, videoId).store;
      assert toggled == s.(videos := s.videos[id := toggled.videos[id]]);
      StatsIgnoreOtherFields(s, channel, id, toggled.videos[id]);
      var updated := UpdateVideo(s, videoId, title, description, thumbnail).store;
      assert updated == s.(videos := s.videos[id := updated.videos[id]]);
      StatsIgnoreOtherFields(s, channel, id, updated.videos[id]);
    }
  }
}
