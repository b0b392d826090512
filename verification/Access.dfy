/** The access tables, the joins the queries are written with, and the rule for what a child may view. */
module Access {
  import opened Prelude

  type ChildId = int

  /** A row of `allowlisted_videos`, `blocked_videos` or `hidden_videos`. */
  datatype ChildVideo = ChildVideo(id: int, child: ChildId, video: VideoId)

  /** A row of `allowlisted_channels`. */
  datatype ChildChannel = ChildChannel(id: int, child: ChildId, channel: ChannelId)

  /** A row of `videos`, with the date the view `video_published_at` resolves for it. */
  datatype VideoRow = VideoRow(video: VideoId, title: string, channel: Option<ChannelId>, published: Option<int>)

  datatype ChannelRow = ChannelRow(channel: ChannelId, title: Option<string>)

  /** A row of `channel_videos`. */
  datatype ArchiveRow = ArchiveRow(
    channel: ChannelId, video: VideoId, publishedAt: Option<int>, lastSeenAt: int, deleted: bool)

  /** A row of `video_likes`. */
  datatype Like = Like(id: int, child: ChildId, video: VideoId, deleted: bool, likedAt: int)

  datatype Tables = Tables(
    videos: seq<VideoRow>,
    channels: seq<ChannelRow>,
    archive: seq<ArchiveRow>,
    likes: seq<Like>,
    allowedVideos: seq<ChildVideo>,
    allowedChannels: seq<ChildChannel>,
    blocked: seq<ChildVideo>,
    hidden: seq<ChildVideo>)

  // ---------------------------------------------------------------------
  // Joins
  // ---------------------------------------------------------------------

  /** The rows of `table` that join with `l`. */
  function Matches<L, R>(l: L, table: seq<R>, on: (L, R) -> bool): seq<R> {
    if table == [] then []
    else if on(l, table[0]) then [table[0]] + Matches(l, table[1..], on)
    else Matches(l, table[1..], on)
  }

  function PutEach<L, R>(l: L, found: seq<R>, put: (L, Option<R>) -> L): seq<L> {
    if found == [] then [] else [put(l, Some(found[0]))] + PutEach(l, found[1..], put)
  }

  /** JOIN: one row for every match. */
  function InnerJoin<L, R>(rows: seq<L>, table: seq<R>, on: (L, R) -> bool, put: (L, Option<R>) -> L): seq<L> {
    if rows == [] then []
    else PutEach(rows[0], Matches(rows[0], table, on), put) + InnerJoin(rows[1..], table, on, put)
  }

  /** LEFT JOIN: one row for every match, or one without a match. */
  function LeftJoin<L, R>(rows: seq<L>, table: seq<R>, on: (L, R) -> bool, put: (L, Option<R>) -> L): seq<L> {
    if rows == [] then []
    else
      var found := Matches(rows[0], table, on);
      (if found == [] then [put(rows[0], None)] else PutEach(rows[0], found, put))
      + LeftJoin(rows[1..], table, on, put)
  }

  /** The match of a row that has at most one. */
  function Found<L, R>(l: L, table: seq<R>, on: (L, R) -> bool): Option<R> {
    var found := Matches(l, table, on);
    if found == [] then None else Some(found[0])
  }

  ghost predicate Unique<R, K(!new)>(table: seq<R>, key: R -> K) {
    forall i, j | 0 <= i < j < |table| :: key(table[i]) != key(table[j])
  }

  lemma {:induction false} MatchesAre<L, R>(l: L, table: seq<R>, on: (L, R) -> bool, r: R)
    ensures r in Matches(l, table, on) <==> r in table && on(l, r)
    decreases |table|
  {
    if table != [] {
      MatchesAre(l, table[1..], on, r);
      assert r in table <==> r == table[0] || r in table[1..];
    }
  }

  /** Every row of `table` that joins with `l` has the key `k`. */
  ghost predicate Pins<L, R, K(!new)>(l: L, table: seq<R>, on: (L, R) -> bool, key: R -> K, k: K) {
    forall i | 0 <= i < |table| && on(l, table[i]) :: key(table[i]) == k
  }

  /** A join on a unique key does not fan out. */
  lemma {:induction false} AtMostOne<L, R, K(!new)>(l: L, table: seq<R>, on: (L, R) -> bool, key: R -> K, k: K)
    requires Unique(table, key) && Pins(l, table, on, key, k)
    ensures |Matches(l, table, on)| <= 1
    decreases |table|
  {
    if table != [] {
      var rest := table[1..];
      assert Pins(l, rest, on, key, k) && Unique(rest, key);
      AtMostOne(l, rest, on, key, k);
      if on(l, table[0]) && Matches(l, rest, on) != [] {
        var r := Matches(l, rest, on)[0];
        MatchesAre(l, rest, on, r);
        assert false;
      }
    }
  }

  /** Without fan-out a LEFT JOIN keeps the rows and adds what was found. */
  lemma {:induction false} LeftJoinKeepsRows<L, R>(
      rows: seq<L>, table: seq<R>, on: (L, R) -> bool, put: (L, Option<R>) -> L)
    requires forall i | 0 <= i < |rows| :: |Matches(rows[i], table, on)| <= 1
    ensures |LeftJoin(rows, table, on, put)| == |rows|
    ensures forall i | 0 <= i < |rows| :: LeftJoin(rows, table, on, put)[i] == put(rows[i], Found(rows[i], table, on))
    decreases |rows|
  {
    if rows != [] {
      LeftJoinKeepsRows(rows[1..], table, on, put);
      var found := Matches(rows[0], table, on);
      assert found != [] ==> found[1..] == [] && PutEach(rows[0], found, put) == [put(rows[0], Some(found[0]))];
      var first := put(rows[0], Found(rows[0], table, on));
      assert LeftJoin(rows, table, on, put) == [first] + LeftJoin(rows[1..], table, on, put);
    }
  }

  /** Where every row has its one match, a JOIN does the same. */
  lemma {:induction false} InnerJoinKeepsRows<L, R>(
      rows: seq<L>, table: seq<R>, on: (L, R) -> bool, put: (L, Option<R>) -> L)
    requires forall i | 0 <= i < |rows| :: |Matches(rows[i], table, on)| == 1
    ensures |InnerJoin(rows, table, on, put)| == |rows|
    ensures forall i | 0 <= i < |rows| :: InnerJoin(rows, table, on, put)[i] == put(rows[i], Found(rows[i], table, on))
    decreases |rows|
  {
    if rows != [] {
      InnerJoinKeepsRows(rows[1..], table, on, put);
      var found := Matches(rows[0], table, on);
      assert found[1..] == [] && PutEach(rows[0], found, put) == [put(rows[0], Some(found[0]))];
      var first := put(rows[0], Found(rows[0], table, on));
      assert InnerJoin(rows, table, on, put) == [first] + InnerJoin(rows[1..], table, on, put);
    }
  }

  lemma {:induction false} PutEachHas<L, R>(l: L, found: seq<R>, put: (L, Option<R>) -> L, x: L)
    ensures x in PutEach(l, found, put) <==> exists r :: r in found && x == put(l, Some(r))
    decreases |found|
  {
    if found != [] {
      PutEachHas(l, found[1..], put, x);
      assert forall r :: r in found <==> r == found[0] || r in found[1..];
    }
  }

  /** `x` comes from `l` and one of its matches. */
  ghost predicate IsPair<L, R>(l: L, table: seq<R>, on: (L, R) -> bool, put: (L, Option<R>) -> L, x: L) {
    exists r :: r in table && on(l, r) && x == put(l, Some(r))
  }

  lemma PairsAre<L, R>(l: L, table: seq<R>, on: (L, R) -> bool, put: (L, Option<R>) -> L, x: L)
    ensures x in PutEach(l, Matches(l, table, on), put) <==> IsPair(l, table, on, put, x)
  {
    var found := Matches(l, table, on);
    PutEachHas(l, found, put, x);
    forall r ensures r in found <==> r in table && on(l, r) {
      MatchesAre(l, table, on, r);
    }
  }

  /** What a JOIN holds. */
  lemma {:induction false} InnerJoinHas<L, R>(
      rows: seq<L>, table: seq<R>, on: (L, R) -> bool, put: (L, Option<R>) -> L, x: L)
    ensures x in InnerJoin(rows, table, on, put) <==> exists l :: l in rows && IsPair(l, table, on, put, x)
    decreases |rows|
  {
    if rows != [] {
      InnerJoinHas(rows[1..], table, on, put, x);
      PairsAre(rows[0], table, on, put, x);
      assert forall l :: l in rows <==> l == rows[0] || l in rows[1..];
    }
  }

  // ---------------------------------------------------------------------
  // What the schema promises
  // ---------------------------------------------------------------------

  function VideoKey(r: VideoRow): VideoId { r.video }
  function ChannelKey(r: ChannelRow): ChannelId { r.channel }
  function ArchiveKey(r: ArchiveRow): (ChannelId, VideoId) { (r.channel, r.video) }
  function LikeKey(r: Like): (ChildId, VideoId) { (r.child, r.video) }
  function ChildVideoKey(r: ChildVideo): (ChildId, VideoId) { (r.child, r.video) }
  function ChildChannelKey(r: ChildChannel): (ChildId, ChannelId) { (r.child, r.channel) }

  ghost predicate HasVideo(db: Tables, video: VideoId) {
    exists v :: v in db.videos && v.video == video
  }

  /** The keys and foreign keys of the schema. */
  ghost predicate Valid(db: Tables) {
    && Unique(db.videos, VideoKey)
    && Unique(db.channels, ChannelKey)
    && Unique(db.archive, ArchiveKey)
    && Unique(db.likes, LikeKey)
    && Unique(db.allowedVideos, ChildVideoKey)
    && Unique(db.allowedChannels, ChildChannelKey)
    && Unique(db.blocked, ChildVideoKey)
    && Unique(db.hidden, ChildVideoKey)
    && (forall l | l in db.likes :: HasVideo(db, l.video))
    && (forall r | r in db.archive :: HasVideo(db, r.video))
  }

  // ---------------------------------------------------------------------
  // The rule
  // ---------------------------------------------------------------------

  predicate IsForVideo(p: (ChildId, VideoId), r: ChildVideo) {
    r.child == p.0 && r.video == p.1
  }

  predicate IsForChannel(p: (ChildId, ChannelId), r: ChildChannel) {
    r.child == p.0 && r.channel == p.1
  }

  /** SELECT COUNT(*) ... WHERE child_account_id = ? AND video_id = ? */
  function CountVideo(table: seq<ChildVideo>, child: ChildId, video: VideoId): nat {
    |Matches((child, video), table, IsForVideo)|
  }

  function CountChannel(table: seq<ChildChannel>, child: ChildId, channel: ChannelId): nat {
    |Matches((child, channel), table, IsForChannel)|
  }

  /** `can_child_view`. */
  predicate CanChildView(db: Tables, child: ChildId, video: VideoId, channel: Option<ChannelId>) {
    if CountVideo(db.blocked, child, video) > 0 then false
    else if CountVideo(db.hidden, child, video) > 0 then false
    else if CountVideo(db.allowedVideos, child, video) > 0 then true
    else if channel.Some? && CountChannel(db.allowedChannels, child, channel.value) > 0 then true
    else false
  }

  ghost predicate ListsVideo(table: seq<ChildVideo>, child: ChildId, video: VideoId) {
    exists r :: r in table && r.child == child && r.video == video
  }

  ghost predicate ListsChannel(table: seq<ChildChannel>, child: ChildId, channel: ChannelId) {
    exists r :: r in table && r.child == child && r.channel == channel
  }

  lemma CountVideoDecides(table: seq<ChildVideo>, child: ChildId, video: VideoId)
    ensures CountVideo(table, child, video) > 0 <==> ListsVideo(table, child, video)
  {
    var p := (child, video);
    if CountVideo(table, child, video) > 0 {
      MatchesAre(p, table, IsForVideo, Matches(p, table, IsForVideo)[0]);
    }
    if ListsVideo(table, child, video) {
      var r :| r in table && IsForVideo(p, r);
      MatchesAre(p, table, IsForVideo, r);
    }
  }

  lemma CountChannelDecides(table: seq<ChildChannel>, child: ChildId, channel: ChannelId)
    ensures CountChannel(table, child, channel) > 0 <==> ListsChannel(table, child, channel)
  {
    var p := (child, channel);
    if CountChannel(table, child, channel) > 0 {
      MatchesAre(p, table, IsForChannel, Matches(p, table, IsForChannel)[0]);
    }
    if ListsChannel(table, child, channel) {
      var r :| r in table && IsForChannel(p, r);
      MatchesAre(p, table, IsForChannel, r);
    }
  }

  /** A child may view what is on one of its allowlists and neither blocked nor hidden. */
  lemma RuleIs(db: Tables, child: ChildId, video: VideoId, channel: Option<ChannelId>)
    ensures CanChildView(db, child, video, channel)
       <==> (&& (|| ListsVideo(db.allowedVideos, child, video)
                 || (channel.Some? && ListsChannel(db.allowedChannels, child, channel.value)))
             && !ListsVideo(db.blocked, child, video)
             && !ListsVideo(db.hidden, child, video))
  {
    CountVideoDecides(db.blocked, child, video);
    CountVideoDecides(db.hidden, child, video);
    CountVideoDecides(db.allowedVideos, child, video);
    if channel.Some? {
      CountChannelDecides(db.allowedChannels, child, channel.value);
    }
  }
}
