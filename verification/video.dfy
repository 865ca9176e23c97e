/** The video controller: the paginated, filtered listing; publishing with
    two uploads; and lookup, update, delete and the publish toggle by
    identifier. */
module Videos {
  import opened Seqs
  import opened Documents

  /** A page number or page size as the listing uses it: at least 1. */
  type Positive = n: int | n >= 1 witness 1

  const DEFAULT_PAGE: Positive := 1
  const DEFAULT_LIMIT: Positive := 10

  function Min(a: int, b: int): int {
    if a <= b then a else b
  }

  /** `Math.ceil(n / d)`: the least number of pages of size `d` that hold
      `n` items. */
  function CeilDiv(n: nat, d: Positive): (q: nat)
    ensures q * d >= n
    ensures q == 0 || (q - 1) * d < n
  {
    var q := (n + d - 1) / d;
    var rem := (n + d - 1) % d;
    assert n + d - 1 == q * d + rem;
    assert (q - 1) * d == q * d - d;
    q
  }

  /** `.skip((page - 1) * limit).limit(limit)` on the matching documents:
      consecutive items starting at the skip, at most `limit` of them, and
      fewer only when the matches run out. */
  function PageOf(xs: seq<Id>, page: Positive, limit: Positive): (r: seq<Id>)
    ensures |r| <= limit
    ensures forall i :: 0 <= i < |r| ==> (page - 1) * limit + i < |xs| && r[i] == xs[(page - 1) * limit + i]
    ensures |r| == limit || (page - 1) * limit + |r| >= |xs|
  {
    var skip := (page - 1) * limit;
    if skip >= |xs| then [] else xs[skip..Min(skip + limit, |xs|)]
  }

  /** The `data` of a listing reply. */
  datatype VideoPage = VideoPage(videos: seq<Id>, currentPage: Positive, totalVideos: nat, totalPages: nat)

  /** The listing filter: a text query, when sent, must match the title or
      the description; an owner, when sent, must be the video's owner. The
      case-insensitive regular expression test is the parameter `textMatch`.
      The ensures only lets the verifier apply the returned function; it is
      not a specification. `Matching`
      states what the listing holds. */
  function Matcher(videos: map<Id, Video>, query: Field, owner: Option<Id>,
                   textMatch: (string, string) -> bool): (p: Id -> bool)
    ensures forall id :: p(id) <==>
      && id in videos
      && (Present(query) ==> textMatch(query.value, videos[id].title) || textMatch(query.value, videos[id].description))
      && (owner.Some? ==> videos[id].owner == owner.value)
  {
    id =>
      && id in videos
      && (Present(query) ==> textMatch(query.value, videos[id].title) || textMatch(query.value, videos[id].description))
      && (owner.Some? ==> videos[id].owner == owner.value)
  }

  /** `Video.find(filter)`: the matching videos in natural order, each once. */
  function Matching(videos: map<Id, Video>, query: Field, owner: Option<Id>,
                    textMatch: (string, string) -> bool): (r: seq<Id>)
    ensures Increasing(r) && Distinct(r)
    ensures forall id :: id in r <==>
      && id in videos
      && (Present(query) ==> textMatch(query.value, videos[id].title) || textMatch(query.value, videos[id].description))
      && (owner.Some? ==> videos[id].owner == owner.value)
    ensures forall id :: id in r <==> Matcher(videos, query, owner, textMatch)(id)
  {
    FilterIncreasing(Scan(videos), Matcher(videos, query, owner, textMatch));
    FilterDistinct(Scan(videos), Matcher(videos, query, owner, textMatch));
    Filter(Scan(videos), Matcher(videos, query, owner, textMatch))
  }

  /** With no text query and no owner the listing is the whole collection
      in natural order. */
  lemma MatchingUnfiltered(videos: map<Id, Video>, textMatch: (string, string) -> bool)
    ensures Matching(videos, None, None, textMatch) == Scan(videos)
  {
    FilterAll(Scan(videos), Matcher(videos, None, None, textMatch));
  }

  /** `getAllVideos`. `userId` is `None` when the query parameter is absent
      or empty, since `if(userId)` then sets no owner filter; a non-empty
      value is `Some` of its reading as an identifier. An owner identifier
      the database cannot cast answers 500. Otherwise the reply holds the requested page of the matches
      (page 1 and size 10 when not sent), the page number, the number of
      all matches and the number of pages they fill. `sortBy` and
      `sortType` are read and ignored, so they are not parameters. */
  function GetAllVideos(s: Store, page: Option<Positive>, limit: Option<Positive>, query: Field,
                        userId: Option<IdParam>, textMatch: (string, string) -> bool): (r: Reply<VideoPage>)
    ensures r.store == s
    ensures userId == Some(Malformed) ==> r.status == INTERNAL_ERROR && r.data.None?
    ensures userId != Some(Malformed) ==>
      var owner := if userId.Some? then Some(userId.value.id) else None;
      var p := if page.Some? then page.value else DEFAULT_PAGE;
      var l := if limit.Some? then limit.value else DEFAULT_LIMIT;
      var all := Matching(s.videos, query, owner, textMatch);
      && r.status == OK
      && r.data.Some?
      && r.data.value.currentPage == p
      && r.data.value.totalVideos == |all|
      && r.data.value.totalPages == CeilDiv(|all|, l)
      && r.data.value.videos == PageOf(all, p, l)
      && |r.data.value.videos| <= l
      && (forall id :: id in r.data.value.videos ==> Matcher(s.videos, query, owner, textMatch)(id))
  {
    if userId == Some(Malformed) then Fail(INTERNAL_ERROR, s)
    else
      var owner := if userId.Some? then Some(userId.value.id) else None;
      var p := if page.Some? then page.value else DEFAULT_PAGE;
      var l := if limit.Some? then limit.value else DEFAULT_LIMIT;
      var all := Matching(s.videos, query, owner, textMatch);
      Reply(OK, Some(VideoPage(PageOf(all, p, l), p, |all|, CeilDiv(|all|, l))), s)
  }

  /** `totalVideos` is the number of videos matching the filter. */
  lemma TotalCountsMatches(videos: map<Id, Video>, query: Field, owner: Option<Id>,
                           textMatch: (string, string) -> bool)
    ensures |Matching(videos, query, owner, textMatch)|
         == |set id: Id | id in videos && Matcher(videos, query, owner, textMatch)(id)|
  {
    var all := Matching(videos, query, owner, textMatch);
    MatchedAreListed(videos, query, owner, textMatch);
    DistinctCard(all);
  }

  lemma MatchedAreListed(videos: map<Id, Video>, query: Field, owner: Option<Id>,
                         textMatch: (string, string) -> bool)
    ensures (set id: Id | id in videos && Matcher(videos, query, owner, textMatch)(id))
         == (set id: Id | id in Matching(videos, query, owner, textMatch))
  {
  }

  lemma MulMonotone(a: int, b: int, d: Positive)
    requires a <= b
    ensures a * d <= b * d
  {
    assert b * d - a * d == (b - a) * d;
  }

  /** A page has something on it exactly when its number is at most
      `totalPages`. */
  lemma PageNonEmptyIff(xs: seq<Id>, page: Positive, limit: Positive)
    ensures PageOf(xs, page, limit) != [] <==> page <= CeilDiv(|xs|, limit)
  {
    var q := CeilDiv(|xs|, limit);
    var skip := (page - 1) * limit;
    if page <= q {
      MulMonotone(page - 1, q - 1, limit);
      assert skip < |xs|;
      assert xs[skip] == PageOf(xs, page, limit)[0];
    } else {
      MulMonotone(q, page - 1, limit);
      assert skip >= |xs|;
    }
  }

  /** Item `i` of the matches is item `i % limit` of page `i / limit + 1`,
      and that page is one of the `totalPages`. */
  lemma ItemOnItsPage(xs: seq<Id>, limit: Positive, i: nat)
    requires i < |xs|
    ensures var page := i / limit + 1;
            && page <= CeilDiv(|xs|, limit)
            && i % limit < |PageOf(xs, page, limit)|
            && PageOf(xs, page, limit)[i % limit] == xs[i]
  {
    var page := i / limit + 1;
    var skip := (page - 1) * limit;
    assert i == (i / limit) * limit + i % limit;
    assert skip == (i / limit) * limit;
    var r := PageOf(xs, page, limit);
    assert skip <= i < |xs|;
    assert r == xs[skip..Min(skip + limit, |xs|)];
    PageNonEmptyIff(xs, page, limit);
  }

  /** Pages 1 to `k` laid end to end. */
  function FirstPages(xs: seq<Id>, limit: Positive, k: nat): seq<Id> {
    if k == 0 then [] else FirstPages(xs, limit, k - 1) + PageOf(xs, k, limit)
  }

  /** The first `k` pages are the first `k * limit` matches. */
  lemma {:induction false} FirstPagesArePrefix(xs: seq<Id>, limit: Positive, k: nat)
    ensures FirstPages(xs, limit, k) == xs[..Min(k * limit, |xs|)]
  {
    if k > 0 {
      FirstPagesArePrefix(xs, limit, k - 1);
      PageIsSlice(xs, limit, k);
      var lo := Min((k - 1) * limit, |xs|);
      var hi := Min(k * limit, |xs|);
      assert FirstPages(xs, limit, k) == FirstPages(xs, limit, k - 1) + PageOf(xs, k, limit);
      SliceJoin(xs, lo, hi);
    }
  }

  lemma SliceJoin(xs: seq<Id>, lo: nat, hi: nat)
    requires lo <= hi <= |xs|
    ensures xs[..lo] + xs[lo..hi] == xs[..hi]
  {
  }

  /** Page `k` is the slice of the matches between the ends of pages
      `k - 1` and `k`, both cut off at the last match. */
  lemma PageIsSlice(xs: seq<Id>, limit: Positive, k: Positive)
    ensures (k - 1) * limit <= k * limit
    ensures PageOf(xs, k, limit) == xs[Min((k - 1) * limit, |xs|)..Min(k * limit, |xs|)]
  {
    var skip := (k - 1) * limit;
    MulMonotone(0, k - 1, limit);
    assert k * limit == skip + limit by {
      assert k * limit - (k - 1) * limit == (k - (k - 1)) * limit;
    }
  }

  /** The `totalPages` pages hold every match exactly once, in order, and
      every later page is empty. */
  lemma PagesPartitionMatches(xs: seq<Id>, limit: Positive, page: Positive)
    ensures FirstPages(xs, limit, CeilDiv(|xs|, limit)) == xs
    ensures page > CeilDiv(|xs|, limit) ==> PageOf(xs, page, limit) == []
  {
    var q := CeilDiv(|xs|, limit);
    FirstPagesArePrefix(xs, limit, q);
    assert xs[..|xs|] == xs;
    PageNonEmptyIff(xs, page, limit);
  }

  /** With 25 matches and pages of 10, page 2 holds 10 videos, there are 3
      pages, page 3 holds the last 5 and page 4 is empty. */
  lemma TwentyFiveMatchesInPagesOfTen(s: Store, query: Field, textMatch: (string, string) -> bool)
    requires |Matching(s.videos, query, None, textMatch)| == 25
    ensures var second := GetAllVideos(s, Some(2), Some(10), query, None, textMatch).data.value;
            var third := GetAllVideos(s, Some(3), Some(10), query, None, textMatch).data.value;
            var fourth := GetAllVideos(s, Some(4), Some(10), query, None, textMatch).data.value;
            && |second.videos| == 10
            && second.totalVideos == 25
            && second.totalPages == 3
            && |third.videos| == 5
            && fourth.videos == []
  {
    PagesOfTwentyFive(Matching(s.videos, query, None, textMatch));
  }

  lemma PagesOfTwentyFive(xs: seq<Id>)
    requires |xs| == 25
    ensures CeilDiv(25, 10) == 3
    ensures |PageOf(xs, 2, 10)| == 10 && |PageOf(xs, 3, 10)| == 5 && PageOf(xs, 4, 10) == []
  {
    assert CeilDiv(25, 10) == 3;
    assert PageOf(xs, 2, 10) == xs[10..20];
    assert PageOf(xs, 3, 10) == xs[20..25];
  }

  /** The uploaded files of a publish request, as lists of local paths. */
  datatype Files = Files(videoFile: Option<seq<string>>, thumbNail: Option<seq<string>>)

  /** A file field that holds at least one file. */
  predicate HasFile(f: Option<seq<string>>) {
    f.Some? && |f.value| > 0
  }

  /** `publishAVideo`, with `upload` standing for the asset store (a URL, or
      nothing when the upload fails). Missing title, description or files,
      then a missing video file, then a missing thumbnail answer 400; a
      failed video upload, then a failed thumbnail upload answer 500;
      otherwise a video with both URLs, owned by the current user, unviewed
      and published, is stored under `newId`. A missing or zero duration is
      stored as 0. */
  function PublishAVideo(s: Store, user: Id, title: Field, description: Field, files: Option<Files>,
                         duration: Option<int>, upload: string -> Option<string>, newId: Id): (r: Reply<Video>)
    requires newId !in s.videos
    ensures !Present(title) || !Present(description) || files.None? ==> Rejected(r, s, BAD_REQUEST)
    ensures Present(title) && Present(description) && files.Some? ==>
      var f := files.value;
      && (!HasFile(f.videoFile) ==> Rejected(r, s, BAD_REQUEST))
      && (HasFile(f.videoFile) && !HasFile(f.thumbNail) ==> Rejected(r, s, BAD_REQUEST))
      && (HasFile(f.videoFile) && HasFile(f.thumbNail) && upload(f.videoFile.value[0]).None? ==>
            Rejected(r, s, INTERNAL_ERROR))
      && (HasFile(f.videoFile) && HasFile(f.thumbNail) && upload(f.videoFile.value[0]).Some?
            && upload(f.thumbNail.value[0]).None? ==>
            Rejected(r, s, INTERNAL_ERROR))
    ensures r.status == CREATED <==>
      && Present(title) && Present(description) && files.Some?
      && HasFile(files.value.videoFile) && HasFile(files.value.thumbNail)
      && upload(files.value.videoFile.value[0]).Some? && upload(files.value.thumbNail.value[0]).Some?
    ensures r.status == CREATED ==>
      && r.store == s.(videos := r.store.videos)
      && newId in r.store.videos
      && |r.store.videos| == |s.videos| + 1
      && OnlyAt(s.videos, r.store.videos, newId)
      && var v := r.store.videos[newId];
      && r.data == Some(v)
      && v.videoFile == upload(files.value.videoFile.value[0]).value
      && v.thumbnail == upload(files.value.thumbNail.value[0]).value
      && v.title == title.value && v.description == description.value
      && v.duration == (if duration.Some? then duration.value else 0)
      && v.views == 0 && v.isPublished && v.owner == user && v.likes.None?
  {
    if !Present(title) || !Present(description) || files.None? then Fail(BAD_REQUEST, s)
    else if !HasFile(files.value.videoFile) then Fail(BAD_REQUEST, s)
    else if !HasFile(files.value.thumbNail) then Fail(BAD_REQUEST, s)
    else
      var videoUrl := upload(files.value.videoFile.value[0]);
      if videoUrl.None? then Fail(INTERNAL_ERROR, s)
      else
        var thumbnailUrl := upload(files.value.thumbNail.value[0]);
        if thumbnailUrl.None? then Fail(INTERNAL_ERROR, s)
        else
          var v := Video(videoUrl.value, thumbnailUrl.value, title.value, description.value,
                         if duration.Some? then duration.value else 0, 0, true, user, None);
          Reply(CREATED, Some(v), s.(videos := s.videos[newId := v]))
  }

  /** `getVideoById`: 400 for a malformed identifier, 404 for no such video,
      otherwise the video. */
  function GetVideoById(s: Store, videoId: IdParam): (r: Reply<Video>)
    ensures r.store == s
    ensures videoId.Malformed? ==> r.status == BAD_REQUEST && r.data.None?
    ensures videoId.Valid? && videoId.id !in s.videos ==> r.status == NOT_FOUND && r.data.None?
    ensures videoId.Valid? && videoId.id in s.videos ==> r.status == OK && r.data == Some(s.videos[videoId.id])
  {
    match videoId
    case Malformed => Fail(BAD_REQUEST, s)
    case Valid(id) =>
      if id !in s.videos then Fail(NOT_FOUND, s)
      else Reply(OK, Some(s.videos[id]), s)
  }

  /** `updateVideo`: 400 for a malformed identifier, 404 for no such video;
      otherwise the title, description and thumbnail that are sent and not
      empty replace the stored ones and nothing else changes. Any signed-in
      user may update any video: there is no owner check. */
  function UpdateVideo(s: Store, videoId: IdParam, title: Field, description: Field, thumbnail: Field): (r: Reply<Video>)
    ensures videoId.Malformed? ==> Rejected(r, s, BAD_REQUEST)
    ensures videoId.Valid? && videoId.id !in s.videos ==> Rejected(r, s, NOT_FOUND)
    ensures videoId.Valid? && videoId.id in s.videos ==>
      var id := videoId.id;
      var before := s.videos[id];
      && r.status == OK
      && r.store == s.(videos := r.store.videos)
      && id in r.store.videos
      && OnlyAt(s.videos, r.store.videos, id)
      && r.data == Some(r.store.videos[id])
      && r.store.videos[id].title == (if Present(title) then title.value else before.title)
      && r.store.videos[id].description == (if Present(description) then description.value else before.description)
      && r.store.videos[id].thumbnail == (if Present(thumbnail) then thumbnail.value else before.thumbnail)
      && r.store.videos[id].(title := before.title, description := before.description,
                             thumbnail := before.thumbnail) == before
  {
    match videoId
    case Malformed => Fail(BAD_REQUEST, s)
    case Valid(id) =>
      if id !in s.videos then Fail(NOT_FOUND, s)
      else
        var before := s.videos[id];
        var v := before.(title := if Present(title) then title.value else before.title,
                         description := if Present(description) then description.value else before.description,
                         thumbnail := if Present(thumbnail) then thumbnail.value else before.thumbnail);
        Reply(OK, Some(v), s.(videos := s.videos[id := v]))
  }

  /** `deleteVideo`: 400 for a malformed identifier, 404 for no such video;
      otherwise that video document alone is removed. Likes, comments and
      playlist entries that refer to it stay. There is no owner check. */
  function DeleteVideo(s: Store, videoId: IdParam): (r: Reply<Video>)
    ensures videoId.Malformed? ==> Rejected(r, s, BAD_REQUEST)
    ensures videoId.Valid? && videoId.id !in s.videos ==> Rejected(r, s, NOT_FOUND)
    ensures videoId.Valid? && videoId.id in s.videos ==>
      && r.status == OK
      && r.data.None?
      && r.store == s.(videos := r.store.videos)
      && videoId.id !in r.store.videos
      && OnlyAt(s.videos, r.store.videos, videoId.id)
  {
    match videoId
    case Malformed => Fail(BAD_REQUEST, s)
    case Valid(id) =>
      if id !in s.videos then Fail(NOT_FOUND, s)
      else Reply(OK, None, s.(videos := s.videos - {id}))
  }

  /** `togglePublishStatus`: 400 for a malformed identifier, 404 for no such
      video; otherwise the video's publish flag is negated and nothing else
      changes. There is no owner check. */
  function TogglePublishStatus(s: Store, videoId: IdParam): (r: Reply<Video>)
    ensures videoId.Malformed? ==> Rejected(r, s, BAD_REQUEST)
    ensures videoId.Valid? && videoId.id !in s.videos ==> Rejected(r, s, NOT_FOUND)
    ensures videoId.Valid? && videoId.id in s.videos ==>
      var id := videoId.id;
      && r.status == OK
      && r.store == s.(videos := r.store.videos)
      && id in r.store.videos
      && OnlyAt(s.videos, r.store.videos, id)
      && r.store.videos[id].isPublished == !s.videos[id].isPublished
      && r.store.videos[id].(isPublished := s.videos[id].isPublished) == s.videos[id]
      && r.data == Some(r.store.videos[id])
  {
    match videoId
    case Malformed => Fail(BAD_REQUEST, s)
    case Valid(id) =>
      if id !in s.videos then Fail(NOT_FOUND, s)
      else
        var v := s.videos[id].(isPublished := !s.videos[id].isPublished);
        Reply(OK, Some(v), s.(videos := s.videos[id := v]))
  }

  /** Toggling the publish flag twice gives back the original store. */
  lemma TogglePublishTwice(s: Store, videoId: IdParam)
    ensures TogglePublishStatus(TogglePublishStatus(s, videoId).store, videoId).store == s
  {
    if videoId.Valid? && videoId.id in s.videos {
      var once := TogglePublishStatus(s, videoId);
      assert once.store.videos[videoId.id := s.videos[videoId.id]] == s.videos;
    }
  }

  /** Sending the same update twice has the effect of sending it once. */
  lemma UpdateVideoIdempotent(s: Store, videoId: IdParam, title: Field, description: Field, thumbnail: Field)
    ensures var once := UpdateVideo(s, videoId, title, description, thumbnail);
            UpdateVideo(once.store, videoId, title, description, thumbnail) == once
  {
    if videoId.Valid? && videoId.id in s.videos {
      var once := UpdateVideo(s, videoId, title, description, thumbnail);
      var id := videoId.id;
      assert once.store.videos[id := once.store.videos[id]] == once.store.videos;
    }
  }

  /** A successful publish can be read back by identifier, and deleting
      it again, when its identifier was unused, gives back the original
      store. */
  lemma PublishThenReadAndDelete(s: Store, user: Id, title: Field, description: Field, files: Option<Files>,
                                 duration: Option<int>, upload: string -> Option<string>, newId: Id)
    requires newId !in s.videos
    requires PublishAVideo(s, user, title, description, files, duration, upload, newId).status == CREATED
    ensures var published := PublishAVideo(s, user, title, description, files, duration, upload, newId);
            && GetVideoById(published.store, Valid(newId)).data == published.data
            && DeleteVideo(published.store, Valid(newId)).store == s
  {
    var published := PublishAVideo(s, user, title, description, files, duration, upload, newId);
    assert published.store.videos - {newId} == s.videos;
  }

  /** A freshly published video is on the first page of its owner's
      listing when the page is large enough to hold every video. */
  lemma PublishShowsInOwnerListing(s: Store, user: Id, title: Field, description: Field, files: Option<Files>,
                                   duration: Option<int>, upload: string -> Option<string>, newId: Id,
                                   textMatch: (string, string) -> bool)
    requires newId !in s.videos
    requires PublishAVideo(s, user, title, description, files, duration, upload, newId).status == CREATED
    ensures var st := PublishAVideo(s, user, title, description, files, duration, upload, newId).store;
            newId in GetAllVideos(st, None, Some(1 + |s.videos|), None, Some(Valid(user)), textMatch).data.value.videos
  {
    var r := PublishAVideo(s, user, title, description, files, duration, upload, newId);
    PublishInserts(s, user, title, description, files, duration, upload, newId);
    var v := r.store.videos[newId];
    var limit: Positive := 1 + |s.videos|;
    ListedAfterInsert(s.videos, newId, v, textMatch);
    var listed := GetAllVideos(r.store, None, Some(limit), None, Some(Valid(user)), textMatch);
    assert listed.data.value.videos == PageOf(Matching(r.store.videos, None, Some(user), textMatch), 1, limit);
  }

  /** A successful publish inserts one video, owned by the publisher. */
  lemma PublishInserts(s: Store, user: Id, title: Field, description: Field, files: Option<Files>,
                       duration: Option<int>, upload: string -> Option<string>, newId: Id)
    requires newId !in s.videos
    requires PublishAVideo(s, user, title, description, files, duration, upload, newId).status == CREATED
    ensures var r := PublishAVideo(s, user, title, description, files, duration, upload, newId);
            && newId in r.store.videos && r.store.videos[newId].owner == user
            && r.store.videos == s.videos[newId := r.store.videos[newId]]
  {
  }

  /** A video added under an unused identifier is on the first page of its
      owner's listing when the page can hold the whole collection. */
  lemma ListedAfterInsert(videos: map<Id, Video>, k: Id, v: Video, textMatch: (string, string) -> bool)
    requires k !in videos
    ensures k in PageOf(Matching(videos[k := v], None, Some(v.owner), textMatch), 1, 1 + |videos|)
  {
    var grown := videos[k := v];
    InsertGrowsKeys(videos, k, v);
    assert Matcher(grown, None, Some(v.owner), textMatch)(k);
    OnFirstLargePage(grown, None, Some(v.owner), textMatch, k, 1 + |videos|);
  }

  lemma InsertGrowsKeys(videos: map<Id, Video>, k: Id, v: Video)
    requires k !in videos
    ensures |videos[k := v].Keys| == |videos| + 1
  {
    assert videos[k := v].Keys == videos.Keys + {k};
  }

  /** A page as large as the whole collection holds every match. */
  lemma OnFirstLargePage(videos: map<Id, Video>, query: Field, owner: Option<Id>,
                         textMatch: (string, string) -> bool, id: Id, limit: Positive)
    requires Matcher(videos, query, owner, textMatch)(id)
    requires |videos.Keys| <= limit
    ensures id in PageOf(Matching(videos, query, owner, textMatch), 1, limit)
  {
    var all := Matching(videos, query, owner, textMatch);
    TotalCountsMatches(videos, query, owner, textMatch);
    var matched := set id: Id | id in videos && Matcher(videos, query, owner, textMatch)(id);
    SubsetCard(matched, videos.Keys);
    InFirstPage(all, id, limit);
  }

  lemma InFirstPage(xs: seq<Id>, x: Id, limit: Positive)
    requires x in xs && |xs| <= limit
    ensures x in PageOf(xs, 1, limit)
  {
    assert PageOf(xs, 1, limit) == xs[0..|xs|] == xs;
  }

  lemma SubsetCard(a: set<Id>, b: set<Id>)
    requires a <= b
    ensures |a| <= |b|
  {
    assert b == a + (b - a);
  }
}
