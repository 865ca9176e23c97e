/** The document store of the video-sharing backend as one immutable value,
    and the shapes every controller shares: identifiers, path parameters,
    request-body fields, status codes and the reply a handler produces. */
module Documents {
  import opened Seqs

  /** A document identifier (a database ObjectId). */
  type Id = nat

  /** An identifier path or query parameter as it arrives: something that is
      not a well-formed ObjectId, or a well-formed one. `isValidObjectId`
      holds exactly of `Valid`. */
  datatype IdParam = Malformed | Valid(id: Id)

  datatype Option<T> = None | Some(value: T)

  /** A text field of a request body: absent, or the string sent. */
  type Field = Option<string>

  /** JavaScript truthiness of a text field: sent and not empty. */
  predicate Present(f: Field) {
    f.Some? && f.value != ""
  }

  /** The HTTP status a handler answers with. */
  type Status = int

  const OK: Status := 200
  const CREATED: Status := 201
  const BAD_REQUEST: Status := 400
  const FORBIDDEN: Status := 403
  const NOT_FOUND: Status := 404
  /** The answer to an error that carries no status of its own: a failed
      upload, or the database refusing to cast a malformed identifier that a
      handler looked up without validating it first. */
  const INTERNAL_ERROR: Status := 500

  datatype Video = Video(
    videoFile: string,
    thumbnail: string,
    title: string,
    description: string,
    duration: int,
    views: nat,
    isPublished: bool,
    owner: Id,
    /** The per-video `likes` array the channel statistics read; absent on
        documents that never had one. */
    likes: Option<seq<Id>>)

  datatype Comment = Comment(content: string, video: Id, owner: Id)

  datatype Tweet = Tweet(content: string, owner: Id)

  datatype Playlist = Playlist(name: string, description: string, owner: Id, videos: seq<Id>)

  /** A like document refers to exactly one of a video, a comment or a tweet. */
  datatype Target = OnVideo(video: Id) | OnComment(comment: Id) | OnTweet(tweet: Id)

  datatype Like = Like(target: Target, likedBy: Id)

  datatype Subscription = Subscription(subscriber: Id, channel: Id)

  /** The whole database. Collections addressed by identifier are maps; the
      like and subscription collections are never addressed by identifier and
      are kept in their natural (insertion) order. */
  datatype Store = Store(
    users: set<Id>,
    videos: map<Id, Video>,
    comments: map<Id, Comment>,
    tweets: map<Id, Tweet>,
    playlists: map<Id, Playlist>,
    likes: seq<Like>,
    subscriptions: seq<Subscription>)

  /** What a handler produces: the status code, the payload of a success
      (absent on errors and on deletions that answer `null`), and the store
      after the request. */
  datatype Reply<T> = Reply(status: Status, data: Option<T>, store: Store)

  function Fail<T>(status: Status, s: Store): Reply<T> {
    Reply(status, None, s)
  }

  /** The request failed with `status` and left the store as it was. */
  ghost predicate Rejected<T>(r: Reply<T>, s: Store, status: Status) {
    r.status == status && r.data.None? && r.store == s
  }

  /** `m'` agrees with `m` everywhere except possibly at `k`. */
  ghost predicate OnlyAt<V>(m: map<Id, V>, m': map<Id, V>, k: Id) {
    forall id :: id != k ==> (id in m' <==> id in m) && (id in m ==> m'[id] == m[id])
  }

  /** The identifiers of a collection in the order the database scans it. */
  function Scan<V>(m: map<Id, V>): (r: seq<Id>)
    ensures Increasing(r) && Distinct(r)
    ensures forall id :: id in r <==> id in m
  {
    var r := Ascending(m.Keys);
    IncreasingDistinct(r);
    r
  }

  /** The test "is a video of `channel`" over a video collection.
      The ensures only lets the verifier apply the returned function; it is
      not a specification. */
  function OwnedBy(videos: map<Id, Video>, channel: Id): (p: Id -> bool)
    ensures forall id :: p(id) <==> id in videos && videos[id].owner == channel
  {
    id => id in videos && videos[id].owner == channel
  }

  /** The `views` of a video, 0 for an identifier with no video.
      The ensures only lets the verifier apply the returned function; it is
      not a specification. */
  function ViewsIn(videos: map<Id, Video>): (f: Id -> nat)
    ensures forall id :: id in videos ==> f(id) == videos[id].views
  {
    id => if id in videos then videos[id].views else 0
  }

  /** The size of a video's `likes` array, an absent array counting as empty. */
  function LikesIn(videos: map<Id, Video>): Id -> nat
  {
    id => if id in videos && videos[id].likes.Some? then |videos[id].likes.value| else 0
  }

  /** The videos a channel owns, in scan order: `Video.find({owner})`. */
  function ChannelVideos(videos: map<Id, Video>, channel: Id): (r: seq<Id>)
    ensures Distinct(r)
    ensures forall id :: id in r <==> id in videos && videos[id].owner == channel
  {
    FilterDistinct(Scan(videos), OwnedBy(videos, channel));
    Filter(Scan(videos), OwnedBy(videos, channel))
  }
}
