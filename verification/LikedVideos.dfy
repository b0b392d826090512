/** The query behind a child's list of liked videos. */
module LikedVideos {
  import opened Prelude
  import opened Access

  /** A row of the query as its joins build it up. */
  datatype Joined = Joined(
    like: Like,
    video: Option<VideoRow>,
    channel: Option<ChannelRow>,
    published: Option<VideoRow>,
    allowedVideo: Option<ChildVideo>,
    allowedChannel: Option<ChildChannel>,
    blocked: Option<ChildVideo>,
    hidden: Option<ChildVideo>)
  {
    /** The CASE expression of the query. */
    predicate Visible() {
      (allowedVideo.Some? || allowedChannel.Some?) && blocked.None? && hidden.None?
    }
  }

  predicate OnVideo(l: Joined, r: VideoRow) { r.video == l.like.video }

  predicate OnChannel(l: Joined, r: ChannelRow) {
    l.video.Some? && l.video.value.channel == Some(r.channel)
  }

  predicate OnPublished(l: Joined, r: VideoRow) {
    l.video.Some? && r.video == l.video.value.video
  }

  predicate OnChildVideo(l: Joined, r: ChildVideo) {
    r.child == l.like.child && r.video == l.like.video
  }

  predicate OnAllowedChannel(l: Joined, r: ChildChannel) {
    r.child == l.like.child && l.video.Some? && l.video.value.channel == Some(r.channel)
  }

  function PutVideo(l: Joined, r: Option<VideoRow>): Joined { l.(video := r) }
  function PutChannel(l: Joined, r: Option<ChannelRow>): Joined { l.(channel := r) }
  function PutPublished(l: Joined, r: Option<VideoRow>): Joined { l.(published := r) }
  function PutAllowedVideo(l: Joined, r: Option<ChildVideo>): Joined { l.(allowedVideo := r) }
  function PutAllowedChannel(l: Joined, r: Option<ChildChannel>): Joined { l.(allowedChannel := r) }
  function PutBlocked(l: Joined, r: Option<ChildVideo>): Joined { l.(blocked := r) }
  function PutHidden(l: Joined, r: Option<ChildVideo>): Joined { l.(hidden := r) }

  /** The child's likes; the WHERE clause tests nothing else, so it comes first here. */
  function LiveLikes(likes: seq<Like>, child: ChildId): seq<Joined> {
    if likes == [] then []
    else
      var rest := LiveLikes(likes[1..], child);
      if likes[0].child == child && !likes[0].deleted
      then [Joined(likes[0], None, None, None, None, None, None, None)] + rest
      else rest
  }

  /** The rows of the list before they are ordered. */
  function Rows(db: Tables, child: ChildId): seq<Joined> {
    var likes := LiveLikes(db.likes, child);
    var r1 := InnerJoin(likes, db.videos, OnVideo, PutVideo);
    var r2 := LeftJoin(r1, db.channels, OnChannel, PutChannel);
    var r3 := LeftJoin(r2, db.videos, OnPublished, PutPublished);
    var r4 := LeftJoin(r3, db.allowedVideos, OnChildVideo, PutAllowedVideo);
    var r5 := LeftJoin(r4, db.allowedChannels, OnAllowedChannel, PutAllowedChannel);
    var r6 := LeftJoin(r5, db.blocked, OnChildVideo, PutBlocked);
    LeftJoin(r6, db.hidden, OnChildVideo, PutHidden)
  }

  lemma {:induction false} LiveLikesAre(likes: seq<Like>, child: ChildId, i: nat)
    requires i < |LiveLikes(likes, child)|
    ensures var l := LiveLikes(likes, child)[i].like; l in likes && l.child == child && !l.deleted
    decreases |likes|
  {
    var rest := LiveLikes(likes[1..], child);
    if likes[0].child == child && !likes[0].deleted {
      if i > 0 {
        LiveLikesAre(likes[1..], child, i - 1);
      }
    } else {
      LiveLikesAre(likes[1..], child, i);
    }
  }

  lemma {:induction false} LiveLikesComplete(likes: seq<Like>, child: ChildId, l: Like)
    requires l in likes && l.child == child && !l.deleted
    ensures exists i :: 0 <= i < |LiveLikes(likes, child)| && LiveLikes(likes, child)[i].like == l
    decreases |likes|
  {
    var all, rest := LiveLikes(likes, child), LiveLikes(likes[1..], child);
    if l == likes[0] {
      assert all[0].like == l;
    } else {
      LiveLikesComplete(likes[1..], child, l);
      var i :| 0 <= i < |rest| && rest[i].like == l;
      assert all[if |all| == |rest| then i else i + 1].like == l;
    }
  }

  lemma OneVideo(db: Tables, l: Joined)
    requires Valid(db) && HasVideo(db, l.like.video)
    ensures |Matches(l, db.videos, OnVideo)| == 1
  {
    AtMostOne(l, db.videos, OnVideo, VideoKey, l.like.video);
    var v :| v in db.videos && v.video == l.like.video;
    MatchesAre(l, db.videos, OnVideo, v);
  }

  lemma NoFanOut(db: Tables, l: Joined)
    requires Valid(db)
    ensures |Matches(l, db.channels, OnChannel)| <= 1
    ensures |Matches(l, db.videos, OnPublished)| <= 1
    ensures |Matches(l, db.allowedVideos, OnChildVideo)| <= 1
    ensures |Matches(l, db.allowedChannels, OnAllowedChannel)| <= 1
    ensures |Matches(l, db.blocked, OnChildVideo)| <= 1
    ensures |Matches(l, db.hidden, OnChildVideo)| <= 1
  {
    var pair := (l.like.child, l.like.video);
    var channel := if l.video.Some? then l.video.value.channel.GetOr("") else "";
    AtMostOne(l, db.channels, OnChannel, ChannelKey, channel);
    AtMostOne(l, db.videos, OnPublished, VideoKey, if l.video.Some? then l.video.value.video else "");
    AtMostOne(l, db.allowedVideos, OnChildVideo, ChildVideoKey, pair);
    AtMostOne(l, db.allowedChannels, OnAllowedChannel, ChildChannelKey, (l.like.child, channel));
    AtMostOne(l, db.blocked, OnChildVideo, ChildVideoKey, pair);
    AtMostOne(l, db.hidden, OnChildVideo, ChildVideoKey, pair);
  }

  lemma FoundVideo(l: Joined, table: seq<ChildVideo>)
    ensures Found(l, table, OnChildVideo).Some? <==> ListsVideo(table, l.like.child, l.like.video)
  {
    var found := Matches(l, table, OnChildVideo);
    if found != [] {
      MatchesAre(l, table, OnChildVideo, found[0]);
      assert IsForVideo((l.like.child, l.like.video), found[0]);
    }
    if ListsVideo(table, l.like.child, l.like.video) {
      var r :| r in table && r.child == l.like.child && r.video == l.like.video;
      MatchesAre(l, table, OnChildVideo, r);
    }
  }

  lemma FoundChannel(l: Joined, table: seq<ChildChannel>)
    requires l.video.Some?
    ensures Found(l, table, OnAllowedChannel).Some?
       <==> l.video.value.channel.Some? && ListsChannel(table, l.like.child, l.video.value.channel.value)
  {
    var found := Matches(l, table, OnAllowedChannel);
    if found != [] {
      MatchesAre(l, table, OnAllowedChannel, found[0]);
      assert IsForChannel((l.like.child, found[0].channel), found[0]);
    }
    if l.video.value.channel.Some? && ListsChannel(table, l.like.child, l.video.value.channel.value) {
      var r :| r in table && r.child == l.like.child && r.channel == l.video.value.channel.value;
      MatchesAre(l, table, OnAllowedChannel, r);
    }
  }

  /** A row of the list: its like, the like's video, and the verdict of the access rule. */
  ghost predicate RowIsRight(db: Tables, r: Joined, like: Like) {
    && r.like == like
    && r.video.Some? && r.video.value in db.videos && r.video.value.video == like.video
    && r.published == r.video
    && (match r.channel
        case None => forall c | c in db.channels :: r.video.value.channel != Some(c.channel)
        case Some(c) => c in db.channels && r.video.value.channel == Some(c.channel))
    && (r.Visible() <==> CanChildView(db, like.child, like.video, r.video.value.channel))
  }

  lemma FoundOwnChannel(l: Joined, table: seq<ChannelRow>)
    requires l.video.Some?
    ensures match Found(l, table, OnChannel)
            case None => forall c | c in table :: l.video.value.channel != Some(c.channel)
            case Some(c) => c in table && l.video.value.channel == Some(c.channel)
  {
    var found := Matches(l, table, OnChannel);
    forall c | c in table ensures c in found <==> OnChannel(l, c) {
      MatchesAre(l, table, OnChannel, c);
    }
    if found != [] { MatchesAre(l, table, OnChannel, found[0]); }
  }

  /** The view's row is the video's own. */
  lemma FoundPublished(db: Tables, l: Joined)
    requires Valid(db) && l.video.Some? && l.video.value in db.videos
    ensures Found(l, db.videos, OnPublished) == l.video
  {
    MatchesAre(l, db.videos, OnPublished, l.video.value);
    AtMostOne(l, db.videos, OnPublished, VideoKey, l.video.value.video);
  }

  /** One row's way through the joins. */
  function Through(db: Tables, l: Joined): Joined {
    var l1 := PutVideo(l, Found(l, db.videos, OnVideo));
    var l2 := PutChannel(l1, Found(l1, db.channels, OnChannel));
    var l3 := PutPublished(l2, Found(l2, db.videos, OnPublished));
    var l4 := PutAllowedVideo(l3, Found(l3, db.allowedVideos, OnChildVideo));
    var l5 := PutAllowedChannel(l4, Found(l4, db.allowedChannels, OnAllowedChannel));
    var l6 := PutBlocked(l5, Found(l5, db.blocked, OnChildVideo));
    PutHidden(l6, Found(l6, db.hidden, OnChildVideo))
  }

  lemma ThroughIsRight(db: Tables, l: Joined)
    requires Valid(db) && HasVideo(db, l.like.video)
    ensures RowIsRight(db, Through(db, l), l.like)
  {
    OneVideo(db, l);
    MatchesAre(l, db.videos, OnVideo, Matches(l, db.videos, OnVideo)[0]);
    var l1 := PutVideo(l, Found(l, db.videos, OnVideo));
    var l2 := PutChannel(l1, Found(l1, db.channels, OnChannel));
    var l3 := PutPublished(l2, Found(l2, db.videos, OnPublished));
    var l4 := PutAllowedVideo(l3, Found(l3, db.allowedVideos, OnChildVideo));
    var l5 := PutAllowedChannel(l4, Found(l4, db.allowedChannels, OnAllowedChannel));
    var l6 := PutBlocked(l5, Found(l5, db.blocked, OnChildVideo));
    FoundOwnChannel(l1, db.channels);
    FoundPublished(db, l2);
    FoundVideo(l3, db.allowedVideos);
    FoundChannel(l4, db.allowedChannels);
    FoundVideo(l5, db.blocked);
    FoundVideo(l6, db.hidden);
    RuleIs(db, l.like.child, l.like.video, l1.video.value.channel);
  }

  /** The joins give every like exactly one row. */
  lemma RowsAreThrough(db: Tables, child: ChildId)
    requires Valid(db)
    ensures var likes := LiveLikes(db.likes, child);
      && |Rows(db, child)| == |likes|
      && forall i | 0 <= i < |likes| :: Rows(db, child)[i] == Through(db, likes[i])
  {
    var likes := LiveLikes(db.likes, child);
    forall l: Joined ensures
      && |Matches(l, db.channels, OnChannel)| <= 1 && |Matches(l, db.videos, OnPublished)| <= 1
      && |Matches(l, db.allowedVideos, OnChildVideo)| <= 1 && |Matches(l, db.allowedChannels, OnAllowedChannel)| <= 1
      && |Matches(l, db.blocked, OnChildVideo)| <= 1 && |Matches(l, db.hidden, OnChildVideo)| <= 1
    {
      NoFanOut(db, l);
    }
    forall i | 0 <= i < |likes| ensures |Matches(likes[i], db.videos, OnVideo)| == 1 {
      LiveLikesAre(db.likes, child, i);
      OneVideo(db, likes[i]);
    }
    InnerJoinKeepsRows(likes, db.videos, OnVideo, PutVideo);
    var r1 := InnerJoin(likes, db.videos, OnVideo, PutVideo);
    LeftJoinKeepsRows(r1, db.channels, OnChannel, PutChannel);
    var r2 := LeftJoin(r1, db.channels, OnChannel, PutChannel);
    LeftJoinKeepsRows(r2, db.videos, OnPublished, PutPublished);
    var r3 := LeftJoin(r2, db.videos, OnPublished, PutPublished);
    LeftJoinKeepsRows(r3, db.allowedVideos, OnChildVideo, PutAllowedVideo);
    var r4 := LeftJoin(r3, db.allowedVideos, OnChildVideo, PutAllowedVideo);
    LeftJoinKeepsRows(r4, db.allowedChannels, OnAllowedChannel, PutAllowedChannel);
    var r5 := LeftJoin(r4, db.allowedChannels, OnAllowedChannel, PutAllowedChannel);
    LeftJoinKeepsRows(r5, db.blocked, OnChildVideo, PutBlocked);
    var r6 := LeftJoin(r5, db.blocked, OnChildVideo, PutBlocked);
    LeftJoinKeepsRows(r6, db.hidden, OnChildVideo, PutHidden);
  }

  lemma {:induction false} LiveLikesDiffer(likes: seq<Like>, child: ChildId, i: nat, j: nat)
    requires Unique(likes, LikeKey) && i < j < |LiveLikes(likes, child)|
    ensures LiveLikes(likes, child)[i].like != LiveLikes(likes, child)[j].like
    decreases |likes|
  {
    var rest := likes[1..];
    if likes[0].child == child && !likes[0].deleted {
      if i > 0 {
        LiveLikesDiffer(rest, child, i - 1, j - 1);
      } else {
        LiveLikesAre(rest, child, j - 1);
        var k :| 0 <= k < |rest| && rest[k] == LiveLikes(rest, child)[j - 1].like;
        assert LikeKey(likes[0]) != LikeKey(likes[k + 1]);
      }
    } else {
      LiveLikesDiffer(rest, child, i, j);
    }
  }

  /**
   * The list has exactly one row for each live like of the child, whatever the
   * other tables hold: with the like's video, that video's channel and date, and
   * `visible` by the access rule on that channel.
   */
  lemma OneRowPerLike(db: Tables, child: ChildId)
    requires Valid(db)
    ensures var rows := Rows(db, child);
      && (forall i | 0 <= i < |rows| ::
            && rows[i].like in db.likes && rows[i].like.child == child && !rows[i].like.deleted
            && RowIsRight(db, rows[i], rows[i].like))
      && (forall i, j | 0 <= i < j < |rows| :: rows[i].like != rows[j].like)
      && (forall l | l in db.likes && l.child == child && !l.deleted ::
            exists i :: 0 <= i < |rows| && rows[i].like == l)
  {
    RowsAreThrough(db, child);
    var rows, likes := Rows(db, child), LiveLikes(db.likes, child);
    forall i | 0 <= i < |rows|
      ensures rows[i].like == likes[i].like && likes[i].like in db.likes
      ensures likes[i].like.child == child && !likes[i].like.deleted
      ensures RowIsRight(db, rows[i], likes[i].like)
    {
      LiveLikesAre(db.likes, child, i);
      ThroughIsRight(db, likes[i]);
    }
    forall i, j | 0 <= i < j < |rows| ensures rows[i].like != rows[j].like {
      LiveLikesDiffer(db.likes, child, i, j);
    }
    forall l | l in db.likes && l.child == child && !l.deleted
      ensures exists i :: 0 <= i < |rows| && rows[i].like == l
    {
      LiveLikesComplete(db.likes, child, l);
      var i :| 0 <= i < |likes| && likes[i].like == l;
      assert rows[i].like == l;
    }
  }
}
