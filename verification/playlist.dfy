/** The playlist controller: create, the two summary listings, adding and
    removing videos (an ordered list without duplicates), and the owner-gated
    delete and update. */
module Playlists {
  import opened Seqs
  import opened Documents

  /** What the listings report of a playlist: its name and description, the
      number of its videos and the sum of their views. */
  datatype Summary = Summary(name: string, description: string, totalVideos: nat, totalViews: nat)

  /** No playlist holds a video twice. */
  ghost predicate NoDuplicateVideos(s: Store) {
    forall id :: id in s.playlists ==> Distinct(s.playlists[id].videos)
  }

  /** The test "is listed in `ids`", the `$in` of the playlist join.
      The ensures only lets the verifier apply the returned function; it is
      not a specification. */
  function Among(ids: seq<Id>): (p: Id -> bool)
    ensures forall id :: p(id) <==> id in ids
  {
    id => id in ids
  }

  /** The join of a playlist's video array against the video collection:
      the existing videos whose identifier the array holds, in scan order,
      each once however often the array repeats it. */
  function Joined(videos: map<Id, Video>, ids: seq<Id>): (r: seq<Id>)
    ensures Increasing(r) && Distinct(r)
    ensures forall id :: id in r <==> id in videos && id in ids
  {
    FilterIncreasing(Scan(videos), Among(ids));
    FilterDistinct(Scan(videos), Among(ids));
    Filter(Scan(videos), Among(ids))
  }

  /** The `$lookup`, `$addFields` and `$project` stages for one playlist:
      its name and description, the number of distinct existing videos it
      refers to, and the sum of their views. */
  function Summarize(videos: map<Id, Video>, p: Playlist): (r: Summary)
    ensures r.name == p.name && r.description == p.description
    ensures r.totalVideos == |set id: Id | id in p.videos && id in videos|
    ensures r.totalVideos == 0 ==> r.totalViews == 0
  {
    var joined := Joined(videos, p.videos);
    JoinedCount(videos, p.videos);
    Summary(p.name, p.description, |joined|, SumOf(joined, ViewsIn(videos)))
  }

  /** `totalVideos` counts the distinct existing videos the playlist refers
      to; with no duplicates and no dangling references that is the length
      of its list; and no videos means no views. */
  lemma SummaryCountsVideos(videos: map<Id, Video>, p: Playlist)
    ensures Summarize(videos, p).totalVideos == |set id: Id | id in p.videos && id in videos|
    ensures Distinct(p.videos) && (forall id :: id in p.videos ==> id in videos) ==>
              Summarize(videos, p).totalVideos == |p.videos|
    ensures Summarize(videos, p).totalVideos == 0 ==> Summarize(videos, p).totalViews == 0
  {
    JoinedCount(videos, p.videos);
    if Distinct(p.videos) && (forall id :: id in p.videos ==> id in videos) {
      DistinctCount(videos, p.videos);
    }
  }

  lemma JoinedCount(videos: map<Id, Video>, ids: seq<Id>)
    ensures |Joined(videos, ids)| == |set id: Id | id in ids && id in videos|
  {
    DistinctSize(Joined(videos, ids), set id: Id | id in ids && id in videos);
  }

  lemma DistinctCount(videos: map<Id, Video>, ids: seq<Id>)
    requires Distinct(ids) && forall id :: id in ids ==> id in videos
    ensures |set id: Id | id in ids && id in videos| == |ids|
  {
    DistinctSize(ids, set id: Id | id in ids && id in videos);
  }

  /** `createPlaylist`: a missing name or description answers 400; otherwise
      an empty playlist owned by the current user is stored under the
      identifier `newId` the database assigns. */
  function CreatePlaylist(s: Store, user: Id, name: Field, description: Field, newId: Id): (r: Reply<Playlist>)
    requires newId !in s.playlists
    ensures !Present(name) || !Present(description) ==> Rejected(r, s, BAD_REQUEST)
    ensures Present(name) && Present(description) ==>
      && r.status == CREATED
      && r.store == s.(playlists := r.store.playlists)
      && newId in r.store.playlists
      && |r.store.playlists| == |s.playlists| + 1
      && r.store.playlists[newId] == Playlist(name.value, description.value, user, [])
      && r.data == Some(r.store.playlists[newId])
      && OnlyAt(s.playlists, r.store.playlists, newId)
  {
    if !Present(name) || !Present(description) then Fail(BAD_REQUEST, s)
    else
      var p := Playlist(name.value, description.value, user, []);
      Reply(CREATED, Some(p), s.(playlists := s.playlists[newId := p]))
  }

  /** `getUserPlaylists`: 400 for a malformed user identifier; otherwise the
      summary of every playlist that user owns, or 404 when there is none.
      Whether the user exists is not checked. */
  function GetUserPlaylists(s: Store, userId: IdParam): (r: Reply<map<Id, Summary>>)
    ensures r.store == s
    ensures userId.Malformed? ==> r.status == BAD_REQUEST && r.data.None?
    ensures userId.Valid? ==>
      (r.status == NOT_FOUND <==> forall id :: id in s.playlists ==> s.playlists[id].owner != userId.id)
    ensures userId.Valid? ==> r.status == OK || r.status == NOT_FOUND
    ensures r.data.Some? <==> r.status == OK
    ensures r.data.Some? ==>
      userId.Valid? &&
      forall id :: id in r.data.value <==> id in s.playlists && s.playlists[id].owner == userId.id
    ensures r.data.Some? ==>
      forall id :: id in r.data.value ==> r.data.value[id] == Summarize(s.videos, s.playlists[id])
  {
    match userId
    case Malformed => Fail(BAD_REQUEST, s)
    case Valid(user) =>
      var owned := map id | id in s.playlists && s.playlists[id].owner == user :: Summarize(s.videos, s.playlists[id]);
      if owned == map[] then
        assert forall id :: id in s.playlists ==> s.playlists[id].owner != user by {
          forall id | id in s.playlists ensures s.playlists[id].owner != user {
            assert s.playlists[id].owner == user ==> id in owned;
          }
        }
        Fail(NOT_FOUND, s)
      else
        Reply(OK, Some(owned), s)
  }

  /** `getPlaylistById`: 400 for a malformed identifier, 404 for no such
      playlist, otherwise its summary. */
  function GetPlaylistById(s: Store, playlistId: IdParam): (r: Reply<Summary>)
    ensures r.store == s
    ensures playlistId.Malformed? ==> r.status == BAD_REQUEST && r.data.None?
    ensures playlistId.Valid? && playlistId.id !in s.playlists ==> r.status == NOT_FOUND && r.data.None?
    ensures playlistId.Valid? && playlistId.id in s.playlists ==>
      var p := s.playlists[playlistId.id];
      && r.status == OK
      && r.data.Some?
      && r.data.value.name == p.name
      && r.data.value.description == p.description
      && r.data.value.totalVideos == |Joined(s.videos, p.videos)|
      && r.data.value.totalViews == SumOf(Joined(s.videos, p.videos), ViewsIn(s.videos))
  {
    match playlistId
    case Malformed => Fail(BAD_REQUEST, s)
    case Valid(id) =>
      if id !in s.playlists then Fail(NOT_FOUND, s)
      else Reply(OK, Some(Summarize(s.videos, s.playlists[id])), s)
  }

  /** `addVideoToPlaylist`: 400 when either identifier is malformed, 404 for
      no such playlist, 400 when the video is already in it; otherwise the
      video goes to the end of the list. The video's existence and the
      playlist's owner are not checked. */
  function AddVideoToPlaylist(s: Store, playlistId: IdParam, videoId: IdParam): (r: Reply<Playlist>)
    ensures playlistId.Malformed? || videoId.Malformed? ==> Rejected(r, s, BAD_REQUEST)
    ensures playlistId.Valid? && videoId.Valid? && playlistId.id !in s.playlists ==> Rejected(r, s, NOT_FOUND)
    ensures playlistId.Valid? && videoId.Valid? && playlistId.id in s.playlists
              && videoId.id in s.playlists[playlistId.id].videos ==>
      Rejected(r, s, BAD_REQUEST)
    ensures playlistId.Valid? && videoId.Valid? && playlistId.id in s.playlists
              && videoId.id !in s.playlists[playlistId.id].videos ==>
      var id := playlistId.id;
      var before := s.playlists[id];
      && r.status == OK
      && r.store == s.(playlists := r.store.playlists)
      && id in r.store.playlists
      && r.store.playlists[id].videos == before.videos + [videoId.id]
      && |r.store.playlists[id].videos| == |before.videos| + 1
      && r.store.playlists[id].(videos := before.videos) == before
      && r.data == Some(r.store.playlists[id])
      && OnlyAt(s.playlists, r.store.playlists, id)
  {
    if playlistId.Malformed? || videoId.Malformed? then Fail(BAD_REQUEST, s)
    else
      var id := playlistId.id;
      if id !in s.playlists then Fail(NOT_FOUND, s)
      else if videoId.id in s.playlists[id].videos then Fail(BAD_REQUEST, s)
      else
        var p := s.playlists[id].(videos := s.playlists[id].videos + [videoId.id]);
        Reply(OK, Some(p), s.(playlists := s.playlists[id := p]))
  }

  /** `removeVideoFromPlaylist`: 400 when either identifier is malformed, 404
      for no such playlist, 400 when the video is not in it; otherwise the
      video no longer occurs in the list and every other entry stays. */
  function RemoveVideoFromPlaylist(s: Store, playlistId: IdParam, videoId: IdParam): (r: Reply<Playlist>)
    ensures playlistId.Malformed? || videoId.Malformed? ==> Rejected(r, s, BAD_REQUEST)
    ensures playlistId.Valid? && videoId.Valid? && playlistId.id !in s.playlists ==> Rejected(r, s, NOT_FOUND)
    ensures playlistId.Valid? && videoId.Valid? && playlistId.id in s.playlists
              && videoId.id !in s.playlists[playlistId.id].videos ==>
      Rejected(r, s, BAD_REQUEST)
    ensures playlistId.Valid? && videoId.Valid? && playlistId.id in s.playlists
              && videoId.id in s.playlists[playlistId.id].videos ==>
      var id := playlistId.id;
      var before := s.playlists[id];
      && r.status == OK
      && r.store == s.(playlists := r.store.playlists)
      && id in r.store.playlists
      && videoId.id !in r.store.playlists[id].videos
      && (forall v :: v != videoId.id ==> (v in r.store.playlists[id].videos <==> v in before.videos))
      && (forall v :: v != videoId.id ==> multiset(r.store.playlists[id].videos)[v] == multiset(before.videos)[v])
      && r.store.playlists[id].videos == Without(before.videos, videoId.id)
      && r.store.playlists[id].(videos := before.videos) == before
      && r.data == Some(r.store.playlists[id])
      && OnlyAt(s.playlists, r.store.playlists, id)
  {
    if playlistId.Malformed? || videoId.Malformed? then Fail(BAD_REQUEST, s)
    else
      var id := playlistId.id;
      if id !in s.playlists then Fail(NOT_FOUND, s)
      else if videoId.id !in s.playlists[id].videos then Fail(BAD_REQUEST, s)
      else
        var p := s.playlists[id].(videos := Without(s.playlists[id].videos, videoId.id));
        Reply(OK, Some(p), s.(playlists := s.playlists[id := p]))
  }

  /** `deletePlaylist`: 400 for a malformed identifier, 404 for no such
      playlist, 403 for a non-owner; the owner removes only that playlist
      and gets it back as the payload. */
  function DeletePlaylist(s: Store, user: Id, playlistId: IdParam): (r: Reply<Playlist>)
    ensures playlistId.Malformed? ==> Rejected(r, s, BAD_REQUEST)
    ensures playlistId.Valid? && playlistId.id !in s.playlists ==> Rejected(r, s, NOT_FOUND)
    ensures playlistId.Valid? && playlistId.id in s.playlists && s.playlists[playlistId.id].owner != user ==>
      Rejected(r, s, FORBIDDEN)
    ensures playlistId.Valid? && playlistId.id in s.playlists && s.playlists[playlistId.id].owner == user ==>
      && r.status == OK
      && r.data == Some(s.playlists[playlistId.id])
      && r.store == s.(playlists := r.store.playlists)
      && playlistId.id !in r.store.playlists
      && OnlyAt(s.playlists, r.store.playlists, playlistId.id)
  {
    match playlistId
    case Malformed => Fail(BAD_REQUEST, s)
    case Valid(id) =>
      if id !in s.playlists then Fail(NOT_FOUND, s)
      else if s.playlists[id].owner != user then Fail(FORBIDDEN, s)
      else Reply(OK, Some(s.playlists[id]), s.(playlists := s.playlists - {id}))
  }

  /** `updatePlaylist`: 400 for a malformed identifier, 404 for no such
      playlist, 403 for a non-owner; the owner's name and description
      replace the stored ones only where they are sent and not empty. */
  function UpdatePlaylist(s: Store, user: Id, playlistId: IdParam, name: Field, description: Field): (r: Reply<Playlist>)
    ensures playlistId.Malformed? ==> Rejected(r, s, BAD_REQUEST)
    ensures playlistId.Valid? && playlistId.id !in s.playlists ==> Rejected(r, s, NOT_FOUND)
    ensures playlistId.Valid? && playlistId.id in s.playlists && s.playlists[playlistId.id].owner != user ==>
      Rejected(r, s, FORBIDDEN)
    ensures playlistId.Valid? && playlistId.id in s.playlists && s.playlists[playlistId.id].owner == user ==>
      var id := playlistId.id;
      var before := s.playlists[id];
      && r.status == OK
      && r.store == s.(playlists := r.store.playlists)
      && id in r.store.playlists
      && r.store.playlists[id].name == (if Present(name) then name.value else before.name)
      && r.store.playlists[id].description == (if Present(description) then description.value else before.description)
      && r.store.playlists[id].owner == before.owner
      && r.store.playlists[id].videos == before.videos
      && r.data == Some(r.store.playlists[id])
      && OnlyAt(s.playlists, r.store.playlists, id)
  {
    match playlistId
    case Malformed => Fail(BAD_REQUEST, s)
    case Valid(id) =>
      if id !in s.playlists then Fail(NOT_FOUND, s)
      else if s.playlists[id].owner != user then Fail(FORBIDDEN, s)
      else
        var before := s.playlists[id];
        var p := before.(name := if Present(name) then name.value else before.name,
                         description := if Present(description) then description.value else before.description);
        Reply(OK, Some(p), s.(playlists := s.playlists[id := p]))
  }

  lemma {:induction false} AppendDistinct(xs: seq<Id>, v: Id)
    requires Distinct(xs) && v !in xs
    ensures Distinct(xs + [v])
  {
    var ys := xs + [v];
    forall i, j | 0 <= i < j < |ys| ensures ys[i] != ys[j] {
      if j < |xs| {
        assert ys[i] == xs[i] && ys[j] == xs[j];
      } else {
        assert ys[i] == xs[i];
      }
    }
  }

  /** Every playlist handler keeps "no playlist holds a video twice". */
  lemma PlaylistHandlersKeepNoDuplicates(s: Store, user: Id, playlistId: IdParam, videoId: IdParam,
                                         name: Field, description: Field, newId: Id)
    requires NoDuplicateVideos(s) && newId !in s.playlists
    ensures NoDuplicateVideos(CreatePlaylist(s, user, name, description, newId).store)
    ensures NoDuplicateVideos(AddVideoToPlaylist(s, playlistId, videoId).store)
    ensures NoDuplicateVideos(RemoveVideoFromPlaylist(s, playlistId, videoId).store)
    ensures NoDuplicateVideos(DeletePlaylist(s, user, playlistId).store)
    ensures NoDuplicateVideos(UpdatePlaylist(s, user, playlistId, name, description).store)
  {
    CreateKeepsNoDuplicates(s, user, name, description, newId);
    AddKeepsNoDuplicates(s, playlistId, videoId);
    RemoveKeepsNoDuplicates(s, playlistId, videoId);
    DeleteKeepsNoDuplicates(s, user, playlistId);
    UpdateKeepsNoDuplicates(s, user, playlistId, name, description);
  }

  lemma CreateKeepsNoDuplicates(s: Store, user: Id, name: Field, description: Field, newId: Id)
    requires NoDuplicateVideos(s) && newId !in s.playlists
    ensures NoDuplicateVideos(CreatePlaylist(s, user, name, description, newId).store)
  {
  }

  lemma DeleteKeepsNoDuplicates(s: Store, user: Id, playlistId: IdParam)
    requires NoDuplicateVideos(s)
    ensures NoDuplicateVideos(DeletePlaylist(s, user, playlistId).store)
  {
  }

  lemma UpdateKeepsNoDuplicates(s: Store, user: Id, playlistId: IdParam, name: Field, description: Field)
    requires NoDuplicateVideos(s)
    ensures NoDuplicateVideos(UpdatePlaylist(s, user, playlistId, name, description).store)
  {
  }

  lemma AddKeepsNoDuplicates(s: Store, playlistId: IdParam, videoId: IdParam)
    requires NoDuplicateVideos(s)
    ensures NoDuplicateVideos(AddVideoToPlaylist(s, playlistId, videoId).store)
  {
    if playlistId.Valid? && videoId.Valid? && playlistId.id in s.playlists
       && videoId.id !in s.playlists[playlistId.id].videos {
      AppendDistinct(s.playlists[playlistId.id].videos, videoId.id);
    }
  }

  lemma RemoveKeepsNoDuplicates(s: Store, playlistId: IdParam, videoId: IdParam)
    requires NoDuplicateVideos(s)
    ensures NoDuplicateVideos(RemoveVideoFromPlaylist(s, playlistId, videoId).store)
  {
    if playlistId.Valid? && videoId.Valid? && playlistId.id in s.playlists {
      FilterDistinct(s.playlists[playlistId.id].videos, Other(videoId.id));
    }
  }

  /** Adding a video that is not in a playlist and removing it again gives
      back the original store. */
  lemma AddThenRemoveVideo(s: Store, playlist: Id, video: Id)
    requires playlist in s.playlists && video !in s.playlists[playlist].videos
    ensures var added := AddVideoToPlaylist(s, Valid(playlist), Valid(video));
            var removed := RemoveVideoFromPlaylist(added.store, Valid(playlist), Valid(video));
            added.status == OK && removed.status == OK && removed.store == s
  {
    var xs := s.playlists[playlist].videos;
    FilterAppend(xs, video, Other(video));
    FilterAll(xs, Other(video));
    assert Without(xs + [video], video) == xs;
    var added := AddVideoToPlaylist(s, Valid(playlist), Valid(video));
    assert added.store.playlists[playlist := s.playlists[playlist]] == s.playlists;
  }

  /** Joining with one more identifier, of an existing video, adds exactly
      that video to the join. */
  lemma {:induction false} JoinedAppend(videos: map<Id, Video>, xs: seq<Id>, v: Id)
    requires v !in xs && v in videos
    ensures v in Joined(videos, xs + [v])
    ensures Without(Joined(videos, xs + [v]), v) == Joined(videos, xs)
  {
    var scan := Scan(videos);
    var before := Filter(scan, Among(xs));
    var rest := Filter(scan, Other(v));
    FilterCommute(scan, Among(xs + [v]), Other(v));
    FilterCongruent(rest, Among(xs + [v]), Among(xs));
    FilterCommute(scan, Among(xs), Other(v));
    FilterAll(before, Other(v));
  }

  /** Adding an existing video that the playlist lacks raises the playlist's
      `totalVideos` by one and its `totalViews` by that video's views. */
  lemma AddVideoGrowsSummary(s: Store, playlist: Id, video: Id)
    requires playlist in s.playlists && video !in s.playlists[playlist].videos && video in s.videos
    ensures var before := GetPlaylistById(s, Valid(playlist)).data.value;
            var added := AddVideoToPlaylist(s, Valid(playlist), Valid(video));
            var after := GetPlaylistById(added.store, Valid(playlist)).data.value;
            && after.totalVideos == before.totalVideos + 1
            && after.totalViews == before.totalViews + s.videos[video].views
  {
    var xs := s.playlists[playlist].videos;
    var grown := Joined(s.videos, xs + [video]);
    JoinedAppend(s.videos, xs, video);
    WithoutOnce(grown, video);
    SumWithout(grown, video, ViewsIn(s.videos));
    var added := AddVideoToPlaylist(s, Valid(playlist), Valid(video));
    assert added.store.videos == s.videos;
    assert added.store.playlists[playlist].videos == xs + [video];
  }
}
