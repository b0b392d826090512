/** What listings, feed items and the allowlist leave in the tables, column by column. */
module StoredRows {
  import opened Prelude
  import opened ChannelArchive
  import opened SyncTables
  import opened SyncMachine

  // ---------------------------------------------------------------------
  // A video that occurs once in a batch
  // ---------------------------------------------------------------------

  lemma {:induction false} NoHit(ss: seq<Sighting>, v: VideoId)
    requires forall j | 0 <= j < |ss| :: ss[j].video != v
    ensures Hits(ss, v) == []
    decreases |ss|
  {
    if ss != [] { NoHit(ss[..|ss| - 1], v); }
  }

  lemma {:induction false} OneHit(ss: seq<Sighting>, i: nat)
    requires i < |ss| && forall j | 0 <= j < |ss| && j != i :: ss[j].video != ss[i].video
    ensures Hits(ss, ss[i].video) == [ss[i]]
    decreases |ss|
  {
    var n := |ss| - 1;
    if i == n { NoHit(ss[..n], ss[n].video); } else { OneHit(ss[..n], i); }
  }

  lemma {:induction false} NotOffered(videos: map<VideoId, Video>, ms: seq<(VideoId, Meta)>, id: VideoId)
    requires forall j | 0 <= j < |ms| :: ms[j].0 != id
    ensures Lookup(UpsertVideos(videos, ms), id) == Lookup(videos, id)
    decreases |ms|
  {
    if ms != [] { NotOffered(videos, ms[..|ms| - 1], id); }
  }

  lemma {:induction false} OfferedOnce(videos: map<VideoId, Video>, ms: seq<(VideoId, Meta)>, i: nat)
    requires i < |ms| && forall j | 0 <= j < |ms| && j != i :: ms[j].0 != ms[i].0
    ensures Lookup(UpsertVideos(videos, ms), ms[i].0) == Some(MergeVideo(Lookup(videos, ms[i].0), ms[i].0, ms[i].1))
    decreases |ms|
  {
    var n := |ms| - 1;
    if i == n { NotOffered(videos, ms[..n], ms[n].0); } else { OfferedOnce(videos, ms[..n], i); }
  }

  // ---------------------------------------------------------------------
  // Rows of a listing
  // ---------------------------------------------------------------------

  /** The archive row of a sighting: a known date and text stay, a missing view count keeps the stored one. */
  predicate IsSighted(found: Option<Row>, r: Row, date: Option<int>, raw: Option<string>, views: Option<int>, at: int) {
    && r.lastSeenAt == at && !r.deleted
    && (found.None? ==> r.publishedAt == date && r.publishedRaw == raw && r.viewCount == views && r.firstSeenAt == at)
    && (found.Some? ==>
          && r.publishedAt == (if found.value.publishedAt.Some? then found.value.publishedAt else date)
          && r.publishedRaw == (if found.value.publishedRaw.Some? then found.value.publishedRaw else raw)
          && r.viewCount == (if views.Some? then views else found.value.viewCount)
          && r.firstSeenAt == found.value.firstSeenAt)
  }

  predicate Says(text: Option<string>) {
    text.Some? && text.value != ""
  }

  /**
   * A committed listing stores each entry it holds once in the entry's own fields:
   * the archive row is tagged as a backfill sighting at the listing's start, and
   * the video row takes its title, channel and duration.
   */
  lemma EntryIsStored(db: Db, ch: ChannelId, startedAt: int, es: seq<Entry>, i: nat)
    requires i < |es| && CanStore(db, ch, |es|) && forall j | 0 <= j < |es| && j != i :: es[j].video != es[i].video
    ensures var (db', e, k) := (StoreListing(db, ch, startedAt, es), es[i], Key(ch, es[i].video));
            && k in db'.archive && db'.archive[k].source == Backfill
            && IsSighted(Lookup(db.archive, k), db'.archive[k], e.publishedAt, e.publishedRaw, e.viewCount, startedAt)
            && e.video in db'.videos
            && var v := db'.videos[e.video];
               if e.video in db.videos then
                 var was := db.videos[e.video];
                 && v.title == (if Says(e.title) then e.title.value else was.title)
                 && v.channel == (if ch != "" then Some(ch) else was.channel)
                 && v.durationSecs == (if e.durationSecs.Some? then e.durationSecs else was.durationSecs)
                 && v.thumbnail == was.thumbnail
               else
                 && v.title == (if Says(e.title) then e.title.value else e.video)
                 && v.channel == Some(ch) && v.durationSecs == e.durationSecs && v.thumbnail == None
  {
    var ss, ms, k := OfEntries(es), EntryMetas(ch, es), Key(ch, es[i].video);
    assert ss[i].video == es[i].video && ms[i].0 == es[i].video;
    OneHit(ss, i);
    ApplyListingAt(db.archive, ch, startedAt, ss, k);
    ListedHits(ss, k.video);
    assert [ss[i]][..0] == [];
    OfferedOnce(db.videos, ms, i);
  }

  /** A feed batch does the same with each item it holds once; items carry no view count. */
  lemma ItemIsStored(db: Db, ch: ChannelId, items: seq<Item>, now: int, source: Source, i: nat)
    requires i < |items| && ch in db.channels
    requires forall j | 0 <= j < |items| && j != i :: items[j].video != items[i].video
    ensures var (db', it, k) := (StoreItems(db, ch, items, now, source), items[i], Key(ch, items[i].video));
            && k in db'.archive && db'.archive[k].source == source
            && IsSighted(Lookup(db.archive, k), db'.archive[k], it.publishedAt, it.publishedRaw, None, now)
            && it.video in db'.videos
            && var (v, owner) := (db'.videos[it.video], if it.channel.Some? then it.channel else Some(ch));
               if it.video in db.videos then
                 var was := db.videos[it.video];
                 && v.title == (if it.title != "" then it.title else was.title)
                 && v.channel == (if Says(owner) then owner else was.channel)
                 && v.durationSecs == was.durationSecs
                 && v.thumbnail == (if Says(it.thumbnail) then it.thumbnail else was.thumbnail)
               else
                 && v.title == (if it.title != "" then it.title else it.video)
                 && v.channel == owner && v.durationSecs == None
                 && v.thumbnail == (if Says(it.thumbnail) then it.thumbnail else None)
  {
    var ss, ms, k := OfItems(items), ItemMetas(ch, items), Key(ch, items[i].video);
    assert ss[i].video == items[i].video && ms[i].0 == items[i].video;
    OneHit(ss, i);
    SightAllAt(db.archive, ch, ss, now, source, k);
    assert [ss[i]][..0] == [];
    OfferedOnce(db.videos, ms, i);
  }

  lemma {:induction false} UpsertsKeepKeys(videos: map<VideoId, Video>, ms: seq<(VideoId, Meta)>)
    ensures videos.Keys <= UpsertVideos(videos, ms).Keys
    decreases |ms|
  {
    if ms != [] { UpsertsKeepKeys(videos, ms[..|ms| - 1]); }
  }

  lemma WorkerVideos(cfg: Config, s: State, e: Event)
    requires Enabled(cfg, s, e) && OfWorker(e)
    ensures s.db.videos.Keys <= WorkerStep(cfg, s, e).db.videos.Keys
    ensures !e.CommitListing? ==> WorkerStep(cfg, s, e).db.videos == s.db.videos
  {
    if e.CommitListing? { UpsertsKeepKeys(s.db.videos, EntryMetas(s.worker.channel, e.entries)); }
  }

  lemma PollVideos(cfg: Config, s: State, e: Event)
    requires Enabled(cfg, s, e) && OfPoll(e)
    ensures s.db.videos.Keys <= PollStep(cfg, s, e).db.videos.Keys
    ensures !e.PollUpdated? && !e.FallbackItems? ==> PollStep(cfg, s, e).db.videos == s.db.videos
  {
    if e.PollUpdated? || e.FallbackItems? { UpsertsKeepKeys(s.db.videos, ItemMetas(e.channel, e.items)); }
  }

  lemma RouteVideos(db: Db, e: Event)
    requires OfRoute(e)
    ensures RouteStep(db, e).videos == db.videos
  {}

  /** Video rows never go away, and only a stored listing or feed batch touches them. */
  lemma VideosStay(cfg: Config, s: State, e: Event)
    requires Enabled(cfg, s, e)
    ensures s.db.videos.Keys <= Next(cfg, s, e).db.videos.Keys
    ensures !e.CommitListing? && !e.PollUpdated? && !e.FallbackItems? ==> Next(cfg, s, e).db.videos == s.db.videos
  {
    if OfWorker(e) {
      WorkerVideos(cfg, s, e);
    } else if OfPoll(e) {
      PollVideos(cfg, s, e);
    } else if OfRoute(e) {
      RouteVideos(s.db, e);
    }
  }

  // ---------------------------------------------------------------------
  // The allowlist
  // ---------------------------------------------------------------------

  /** Some child allowlists the channel. */
  ghost predicate IsListed(allowlist: set<(int, ChannelId)>, x: ChannelId) {
    exists child :: (child, x) in allowlist
  }

  lemma AllowedIsListed(allowlist: set<(int, ChannelId)>, x: ChannelId)
    ensures x in Allowed(allowlist) <==> IsListed(allowlist, x)
  {
    if x in Allowed(allowlist) {
      var p :| p in allowlist && p.1 == x;
      var (child, y) := p;
      assert (child, x) in allowlist;
    }
    if child: int :| (child, x) in allowlist {
      var p := (child, x);
      assert p in allowlist && p.1 == x;
    }
  }

  /** The allowlist entries after a route or cron job. */
  ghost predicate ListedAfter(db: Db, e: Event, child: int, x: ChannelId)
    requires OfRoute(e)
  {
    match e
    case AllowChannel(c, ch, _) => (child, x) in db.allowlist || (child == c && x == ch)
    case DisallowChannel(c, ch) => (child, x) in db.allowlist && !(child == c && x == ch)
    case _ => (child, x) in db.allowlist
  }

  /** Whether the tables have a row for `x` after it, and keep the archive rows of `x`. */
  ghost predicate TrackedAfter(db: Db, e: Event, x: ChannelId, was: bool)
    requires OfRoute(e)
  {
    match e
    case SeedChannel(ch, _) => was || x == ch
    case AllowChannel(_, ch, _) => was || x == ch
    case DisallowChannel(_, ch) => was && (x != ch || exists child :: ListedAfter(db, e, child, x))
    case RunGc => was && IsListed(db.allowlist, x)
    case RunReconcile => IsListed(db.allowlist, x)
    case _ => was
  }

  /** The title `x` has after it, given the one before if it had a row. */
  ghost predicate TitledAfter(e: Event, x: ChannelId, was: Option<Channel>, title: Option<string>)
    requires OfRoute(e)
  {
    match e
    case SeedChannel(ch, t) =>
      title == if was.None? then t else if x == ch && Says(t) then t else was.value.title
    case AllowChannel(_, ch, name) =>
      title == if was.None? then Some(name) else if x == ch && name != "" then Some(name) else was.value.title
    case _ => title == if was.None? then None else was.value.title
  }

  lemma DisallowedIsListed(db: Db, child: int, ch: ChannelId)
    ensures ch in Allowed(db.allowlist - {(child, ch)})
       <==> exists c :: ListedAfter(db, DisallowChannel(child, ch), c, ch)
  {
    var rest, e := db.allowlist - {(child, ch)}, DisallowChannel(child, ch);
    AllowedIsListed(rest, ch);
    if c :| (c, ch) in rest { assert ListedAfter(db, e, c, ch); }
    if c :| ListedAfter(db, e, c, ch) { assert (c, ch) in rest; }
  }

  lemma RouteChannels(db: Db, e: Event, x: ChannelId)
    requires OfRoute(e)
    ensures x in RouteStep(db, e).channels <==> TrackedAfter(db, e, x, x in db.channels)
  {
    AllowedIsListed(db.allowlist, x);
    if e.DisallowChannel? { DisallowedIsListed(db, e.child, e.channel); }
  }

  lemma RouteTitles(db: Db, e: Event, x: ChannelId)
    requires OfRoute(e) && x in RouteStep(db, e).channels
    ensures TitledAfter(e, x, Lookup(db.channels, x), RouteStep(db, e).channels[x].title)
  {}

  lemma RouteArchive(db: Db, e: Event, k: Key)
    requires OfRoute(e)
    ensures var db' := RouteStep(db, e);
            && (k in db'.archive <==> k in db.archive && TrackedAfter(db, e, k.channel, true))
            && (k in db'.archive ==> db'.archive[k] == db.archive[k])
  {
    AllowedIsListed(db.allowlist, k.channel);
    if e.DisallowChannel? { DisallowedIsListed(db, e.child, e.channel); }
  }

  /**
   * What a route or cron job does to the tables: a channel on no child's allowlist
   * goes with its archive when its last entry is removed and in every collection,
   * every allowlisted one has a row after a reconciliation, and nothing else goes.
   */
  lemma RouteTables(db: Db, e: Event, child: int, x: ChannelId, video: VideoId)
    requires OfRoute(e)
    ensures var (db', k) := (RouteStep(db, e), Key(x, video));
            && ((child, x) in db'.allowlist <==> ListedAfter(db, e, child, x))
            && (x in db'.channels <==> TrackedAfter(db, e, x, x in db.channels))
            && (x in db'.channels ==> TitledAfter(e, x, Lookup(db.channels, x), db'.channels[x].title))
            && (k in db'.archive <==> k in db.archive && TrackedAfter(db, e, x, true))
            && (k in db'.archive ==> db'.archive[k] == db.archive[k])
            && db'.videos == db.videos
  {
    RouteChannels(db, e, x);
    if x in RouteStep(db, e).channels { RouteTitles(db, e, x); }
    RouteVideos(db, e);
    RouteArchive(db, e, Key(x, video));
  }
}
