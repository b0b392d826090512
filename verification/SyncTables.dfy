/**
 * The tables both background loops share, and what each statement or
 * transaction of the two loops and of the admin routes does to them.
 */
module SyncTables {
  import opened Prelude
  import opened ChannelArchive

  /** How long a claimed backfill stays leased. */
  const LEASE_SECS := 35 * 60
  /** How long a sidecar fallback defers the channel's backfill. */
  const SIDECAR_COOLDOWN_SECS := 3600
  /** How long a claimed freshness poll stays leased. */
  const POLL_LEASE_SECS := 120
  const YEAR_SECS := 365 * 86_400
  const NOTFOUND_SHELVE_THRESHOLD := 3

  datatype Status = Pending | Running | Complete | Failed | Shelved

  /** The `backfill_*` columns of a channel. */
  datatype BackfillCols = BackfillCols(
    status: Status,
    lastStartedAt: Option<int>,
    lastCompletedAt: Option<int>,
    lastAttemptedAt: Option<int>,
    nextAt: int,
    leaseExpiresAt: Option<int>,
    lastError: Option<string>,
    errors: int,
    observedTotal: int,
    newLastRun: int,
    removedLastRun: int)

  /** The `rss_*` columns of a channel. */
  datatype FeedCols = FeedCols(
    etag: Option<string>,
    lastModified: Option<string>,
    lastPolledAt: Option<int>,
    lastSuccessAt: Option<int>,
    lastError: Option<string>,
    errors: int,
    nextPollAt: int)

  datatype Channel = Channel(
    title: Option<string>,
    feed: FeedCols,
    lastFallbackAt: Option<int>,
    backfill: BackfillCols)

  /** The canonical `videos` row. */
  datatype Video = Video(
    title: string,
    channel: Option<ChannelId>,
    durationSecs: Option<int>,
    thumbnail: Option<string>)

  datatype Db = Db(
    channels: map<ChannelId, Channel>,
    archive: Archive,
    videos: map<VideoId, Video>,
    allowlist: set<(int, ChannelId)>)

  /** One line of a channel listing, with its upload date already parsed. */
  datatype Entry = Entry(
    video: VideoId,
    title: Option<string>,
    publishedAt: Option<int>,
    publishedRaw: Option<string>,
    durationSecs: Option<int>,
    viewCount: Option<int>)

  /** One item of a feed or of a sidecar response. */
  datatype Item = Item(
    video: VideoId,
    title: string,
    channel: Option<ChannelId>,
    channelTitle: Option<string>,
    thumbnail: Option<string>,
    publishedAt: Option<int>,
    publishedRaw: Option<string>)

  // ---------------------------------------------------------------------
  // The `videos` upsert
  // ---------------------------------------------------------------------

  /** SQL's NULLIF(s, ''). */
  function NonEmpty(s: Option<string>): Option<string> {
    if s == Some("") then None else s
  }

  /** The arguments of one `videos` upsert besides the id. */
  datatype Meta = Meta(
    title: Option<string>,
    channel: Option<ChannelId>,
    durationSecs: Option<int>,
    thumbnail: Option<string>)

  function MergeVideo(found: Option<Video>, id: VideoId, m: Meta): Video {
    match found
    case None => Video(m.title.GetOr(id), m.channel, m.durationSecs, m.thumbnail)
    case Some(v) =>
      Video(NonEmpty(m.title).GetOr(v.title), NonEmpty(m.channel).OrElse(v.channel),
            m.durationSecs.OrElse(v.durationSecs), NonEmpty(m.thumbnail).OrElse(v.thumbnail))
  }

  function UpsertVideo(videos: map<VideoId, Video>, id: VideoId, m: Meta): map<VideoId, Video> {
    videos[id := MergeVideo(Lookup(videos, id), id, m)]
  }

  /** `upsert_stub`: a placeholder row unless one exists. */
  function UpsertStub(videos: map<VideoId, Video>, id: VideoId): map<VideoId, Video> {
    if id in videos then videos else videos[id := Video(id, None, None, None)]
  }

  function UpsertVideos(videos: map<VideoId, Video>, ms: seq<(VideoId, Meta)>): map<VideoId, Video> {
    if ms == [] then videos
    else
      var (id, m) := ms[|ms| - 1];
      UpsertVideo(UpsertVideos(videos, ms[..|ms| - 1]), id, m)
  }

  function TitleOf(m: Meta): Option<string> { m.title }

  function ChannelOf(m: Meta): Option<string> { m.channel }

  function ThumbnailOf(m: Meta): Option<string> { m.thumbnail }

  /** The last non-empty value of a text column any of the upserts for `id` carried. */
  function LastText(ms: seq<(VideoId, Meta)>, id: VideoId, column: Meta -> Option<string>): Option<string> {
    if ms == [] then None
    else
      var (v, m) := ms[|ms| - 1];
      (if v == id then NonEmpty(column(m)) else None).OrElse(LastText(ms[..|ms| - 1], id, column))
  }

  /** The last duration any of the upserts for `id` carried. */
  function LastDuration(ms: seq<(VideoId, Meta)>, id: VideoId): Option<int> {
    if ms == [] then None
    else
      var (v, m) := ms[|ms| - 1];
      (if v == id then m.durationSecs else None).OrElse(LastDuration(ms[..|ms| - 1], id))
  }

  /** The first upsert for `id`. */
  function FirstMeta(ms: seq<(VideoId, Meta)>, id: VideoId): Option<Meta> {
    if ms == [] then None
    else FirstMeta(ms[..|ms| - 1], id).OrElse(if ms[|ms| - 1].0 == id then Some(ms[|ms| - 1].1) else None)
  }

  /** The row the upserts start from: the one there is, or the one the first upsert inserts. */
  function BaseRow(videos: map<VideoId, Video>, ms: seq<(VideoId, Meta)>, id: VideoId): Option<Video> {
    if id in videos then Some(videos[id])
    else
      match FirstMeta(ms, id)
      case None => None
      case Some(m) => Some(MergeVideo(None, id, m))
  }

  /**
   * The last non-empty value wins: after any sequence of upserts, a text column
   * of a video holds the last non-empty value offered and the duration the last
   * one offered. Where none was offered, they hold what the row had before or
   * was inserted with, which for a missing title is the id.
   */
  lemma {:induction false} LastNonEmptyWins(videos: map<VideoId, Video>, ms: seq<(VideoId, Meta)>, id: VideoId)
    ensures Lookup(UpsertVideos(videos, ms), id) ==
      match BaseRow(videos, ms, id)
      case None => None
      case Some(b) => Some(Video(LastText(ms, id, TitleOf).GetOr(b.title),
                                 LastText(ms, id, ChannelOf).OrElse(b.channel),
                                 LastDuration(ms, id).OrElse(b.durationSecs),
                                 LastText(ms, id, ThumbnailOf).OrElse(b.thumbnail)))
    decreases |ms|
  {
    if ms != [] {
      LastNonEmptyWins(videos, ms[..|ms| - 1], id);
      if ms[|ms| - 1].0 == id && BaseRow(videos, ms[..|ms| - 1], id).None? {
        NothingOffered(ms[..|ms| - 1], id);
      }
    }
  }

  lemma {:induction false} NothingOffered(ms: seq<(VideoId, Meta)>, id: VideoId)
    requires FirstMeta(ms, id).None?
    ensures LastText(ms, id, TitleOf) == None && LastText(ms, id, ChannelOf) == None
    ensures LastText(ms, id, ThumbnailOf) == None && LastDuration(ms, id) == None
    decreases |ms|
  {
    if ms != [] {
      NothingOffered(ms[..|ms| - 1], id);
    }
  }

  /** An upsert that passes no empty text, as every caller's does. */
  predicate NoEmptyText(m: Meta) {
    m.title != Some("") && m.channel != Some("") && m.thumbnail != Some("")
  }

  /**
   * A placeholder row holds the id for a title and nothing else, replaces no row,
   * and is no obstacle: once the video is upserted by callers that filter empty
   * texts, its row is as if the placeholder had never been there.
   */
  lemma StubIsForgotten(videos: map<VideoId, Video>, ms: seq<(VideoId, Meta)>, id: VideoId)
    requires FirstMeta(ms, id).Some? && forall i | 0 <= i < |ms| :: NoEmptyText(ms[i].1)
    ensures forall v :: Lookup(UpsertStub(videos, id), v)
                     == if v == id && id !in videos then Some(Video(id, None, None, None)) else Lookup(videos, v)
    ensures Lookup(UpsertVideos(UpsertStub(videos, id), ms), id) == Lookup(UpsertVideos(videos, ms), id)
  {
    LastNonEmptyWins(videos, ms, id);
    LastNonEmptyWins(UpsertStub(videos, id), ms, id);
    FirstIsOffered(ms, id);
  }

  /** What the first upsert carries is offered, so a later value or it is in the row. */
  lemma {:induction false} FirstIsOffered(ms: seq<(VideoId, Meta)>, id: VideoId)
    requires FirstMeta(ms, id).Some? && forall i | 0 <= i < |ms| :: NoEmptyText(ms[i].1)
    ensures var m := FirstMeta(ms, id).value;
            && (m.title.Some? ==> LastText(ms, id, TitleOf).Some?)
            && (m.channel.Some? ==> LastText(ms, id, ChannelOf).Some?)
            && (m.thumbnail.Some? ==> LastText(ms, id, ThumbnailOf).Some?)
            && (m.durationSecs.Some? ==> LastDuration(ms, id).Some?)
    decreases |ms|
  {
    var init := ms[..|ms| - 1];
    if FirstMeta(init, id).Some? {
      FirstIsOffered(init, id);
    }
  }

  // ---------------------------------------------------------------------
  // Listings and feed items
  // ---------------------------------------------------------------------

  function OfEntry(e: Entry): Sighting {
    Sighting(e.video, e.publishedAt, e.publishedRaw, e.viewCount)
  }

  function OfItem(it: Item): Sighting {
    Sighting(it.video, it.publishedAt, it.publishedRaw, None)
  }

  function OfEntries(es: seq<Entry>): (r: seq<Sighting>)
    ensures |r| == |es|
  {
    seq(|es|, i requires 0 <= i < |es| => OfEntry(es[i]))
  }

  function OfItems(items: seq<Item>): (r: seq<Sighting>)
    ensures |r| == |items|
  {
    seq(|items|, i requires 0 <= i < |items| => OfItem(items[i]))
  }

  function EntryMeta(ch: ChannelId, e: Entry): (VideoId, Meta) {
    (e.video, Meta(NonEmpty(e.title), Some(ch), e.durationSecs, None))
  }

  function ItemMeta(ch: ChannelId, it: Item): (VideoId, Meta) {
    (it.video, Meta(NonEmpty(Some(it.title)), it.channel.OrElse(Some(ch)), None, NonEmpty(it.thumbnail)))
  }

  function EntryMetas(ch: ChannelId, es: seq<Entry>): (r: seq<(VideoId, Meta)>)
    ensures |r| == |es|
  {
    seq(|es|, i requires 0 <= i < |es| => EntryMeta(ch, es[i]))
  }

  function ItemMetas(ch: ChannelId, items: seq<Item>): (r: seq<(VideoId, Meta)>)
    ensures |r| == |items|
  {
    seq(|items|, i requires 0 <= i < |items| => ItemMeta(ch, items[i]))
  }

  /** The foreign key: rows of an unknown channel abort the transaction. */
  predicate CanStore(db: Db, ch: ChannelId, n: nat) {
    n == 0 || ch in db.channels
  }

  /** The committed part of a backfill: everything up to the status write. */
  function StoreListing(db: Db, ch: ChannelId, startedAt: int, es: seq<Entry>): Db {
    if CanStore(db, ch, |es|)
    then db.(archive := ApplyListing(db.archive, ch, startedAt, OfEntries(es)),
             videos := UpsertVideos(db.videos, EntryMetas(ch, es)))
    else db
  }

  /** The first non-empty channel title of a batch. */
  function FeedTitle(items: seq<Item>): Option<string> {
    if items == [] then None
    else NonEmpty(items[0].channelTitle).OrElse(FeedTitle(items[1..]))
  }

  function StoreItems(db: Db, ch: ChannelId, items: seq<Item>, now: int, source: Source): Db {
    if items != [] && ch in db.channels
    then
      var c := db.channels[ch];
      db.(channels := db.channels[ch := c.(title := FeedTitle(items).OrElse(c.title))],
          archive := SightAll(db.archive, ch, OfItems(items), now, source),
          videos := UpsertVideos(db.videos, ItemMetas(ch, items)))
    else db
  }

  // ---------------------------------------------------------------------
  // Channel rows
  // ---------------------------------------------------------------------

  /** An UPDATE ... WHERE channel_id = ? of one row. */
  function SetChannel(db: Db, ch: ChannelId, c: Channel): Db
    requires ch in db.channels
  {
    db.(channels := db.channels[ch := c])
  }

  function NewChannel(title: Option<string>): Channel {
    Channel(title, FeedCols(None, None, None, None, None, 0, 0), None,
            BackfillCols(Pending, None, None, None, 0, None, None, 0, 0, 0, 0))
  }

  /** The three conditions on a backfill claim. */
  predicate Claimable(c: Channel, now: int) {
    && (c.backfill.status == Pending
        || (c.backfill.status == Running && c.backfill.leaseExpiresAt.Some? && c.backfill.leaseExpiresAt.value <= now))
    && c.backfill.nextAt <= now
    && (c.lastFallbackAt.None? || c.lastFallbackAt.value <= now - SIDECAR_COOLDOWN_SECS)
  }

  /** A row the claim's ORDER BY ... LIMIT 1 may return. */
  ghost predicate IsNextDue(channels: map<ChannelId, Channel>, ch: ChannelId, now: int) {
    && ch in channels && Claimable(channels[ch], now)
    && forall x | x in channels && Claimable(channels[x], now) ::
         channels[ch].backfill.nextAt <= channels[x].backfill.nextAt
  }

  function MarkClaimed(c: Channel, now: int): Channel {
    c.(backfill := c.backfill.(status := Running, lastStartedAt := Some(now), lastAttemptedAt := Some(now),
                               leaseExpiresAt := Some(now + LEASE_SECS)))
  }

  function MarkFinished(c: Channel, now: int, nextAt: int, observed: int, added: int, removed: int): Channel {
    c.(backfill := c.backfill.(status := Pending, lastCompletedAt := Some(now), lastError := None, errors := 0,
                               nextAt := nextAt, leaseExpiresAt := None, observedTotal := observed,
                               newLastRun := added, removedLastRun := removed))
  }

  /** The outcome of one failed backfill; `delay` is used only when it is retried. */
  function MarkFailed(c: Channel, notFound: bool, msg: string, limit: int, now: int, delay: int): Channel {
    if notFound then
      c.(backfill := c.backfill.(status := Shelved, lastError := Some("channel_not_found"),
                                 leaseExpiresAt := None, nextAt := now + YEAR_SECS))
    else
      var attempt := c.backfill.errors + 1;
      if attempt >= limit then
        c.(backfill := c.backfill.(status := Shelved, lastError := Some(msg), errors := attempt,
                                   leaseExpiresAt := None))
      else
        c.(backfill := c.backfill.(status := Pending, lastError := Some(msg), errors := attempt,
                                   nextAt := now + delay, leaseExpiresAt := None))
  }

  function MarkUnshelved(c: Channel): Channel {
    c.(backfill := c.backfill.(status := Pending, lastError := None, errors := 0, nextAt := 0, leaseExpiresAt := None))
  }

  function MarkNextAt(c: Channel, at: int): Channel {
    c.(backfill := c.backfill.(nextAt := at))
  }

  function RunNow(db: Db, ch: ChannelId): Db {
    if ch in db.channels && db.channels[ch].backfill.status in {Pending, Failed, Complete}
    then SetChannel(db, ch, MarkNextAt(db.channels[ch], 0))
    else db
  }

  function Unshelve(db: Db, ch: ChannelId): Db {
    if ch in db.channels && db.channels[ch].backfill.status == Shelved
    then SetChannel(db, ch, MarkUnshelved(db.channels[ch]))
    else db
  }

  /** A child's subscription moves a channel still waiting for its first backfill to the front. */
  function SubscribeHint(db: Db, ch: ChannelId): Db {
    if ch in db.channels && db.channels[ch].backfill.status == Pending && db.channels[ch].backfill.lastCompletedAt.None?
    then SetChannel(db, ch, MarkNextAt(db.channels[ch], 0))
    else db
  }

  function MarkPolled(c: Channel, title: Option<string>, etag: Option<string>, lastModified: Option<string>,
                      next: int, now: int): Channel {
    c.(title := NonEmpty(title).OrElse(c.title),
       feed := FeedCols(etag, lastModified, Some(now), Some(now), None, 0, next))
  }

  function MarkPollFailed(c: Channel, msg: string, next: int, now: int): Channel {
    c.(feed := c.feed.(lastPolledAt := Some(now), lastError := Some(msg), errors := c.feed.errors + 1,
                       nextPollAt := next))
  }

  function MarkDead(c: Channel, reason: string, next: int, now: int): Channel {
    c.(feed := c.feed.(lastPolledAt := Some(now), lastError := Some(reason), errors := 0, nextPollAt := next))
  }

  function MarkFallback(c: Channel, now: int): Channel {
    c.(lastFallbackAt := Some(now))
  }

  function MarkLeased(c: Channel, until: int): Channel {
    c.(feed := c.feed.(nextPollAt := until))
  }

  // ---------------------------------------------------------------------
  // Claims of the freshness loop
  // ---------------------------------------------------------------------

  predicate PollDue(c: Channel, now: int) {
    c.feed.nextPollAt <= now
  }

  function DueSet(channels: map<ChannelId, Channel>, now: int): set<ChannelId> {
    set x | x in channels && PollDue(channels[x], now)
  }

  /** What a claimed row hands to its poll. */
  datatype Due = Due(lastFallbackAt: Option<int>, errors: int, etag: Option<string>, lastModified: Option<string>)

  function DueOf(c: Channel): Due {
    Due(c.lastFallbackAt, c.feed.errors, c.feed.etag, c.feed.lastModified)
  }

  /** A batch the claim's ORDER BY ... LIMIT may return. */
  ghost predicate IsBatch(channels: map<ChannelId, Channel>, now: int, limit: nat, batch: set<ChannelId>) {
    && batch <= DueSet(channels, now)
    && |batch| == Min(limit, |DueSet(channels, now)|)
    && forall x, y | x in batch && y in DueSet(channels, now) - batch ::
         channels[x].feed.nextPollAt <= channels[y].feed.nextPollAt
  }

  function Lease(channels: map<ChannelId, Channel>, batch: set<ChannelId>, until: int): map<ChannelId, Channel> {
    map x | x in channels :: if x in batch then MarkLeased(channels[x], until) else channels[x]
  }

  // ---------------------------------------------------------------------
  // Sidecar caps
  // ---------------------------------------------------------------------

  function RecentFallbacks(channels: map<ChannelId, Channel>, now: int): set<ChannelId> {
    set x | x in channels && channels[x].lastFallbackAt.Some? && channels[x].lastFallbackAt.value >= now - 3600
  }

  /** The tunables the two loops read. */
  datatype Config = Config(
    minGap: nat,
    reBackfill: nat,
    errorLimit: int,
    channelInterval: nat,
    batchSize: nat,
    fallbackEnabled: bool,
    activeInterval: nat,
    dormantInterval: nat,
    archivedInterval: nat,
    dormantDays: nat,
    archivedDays: nat,
    fallbacksPerHour: nat)

  /** The ranges the loaders enforce on stored values. */
  predicate ValidConfig(cfg: Config) {
    && 300 <= cfg.minGap <= 86_400
    && 86_400 <= cfg.reBackfill <= 31_536_000
    && 1 <= cfg.errorLimit <= 20
    && 60 <= cfg.channelInterval <= 86_400
    && 1 <= cfg.batchSize <= 500
    && 60 <= cfg.activeInterval <= 86_400
    && 60 <= cfg.dormantInterval <= 86_400
    && 60 <= cfg.archivedInterval <= 604_800
    && 1 <= cfg.dormantDays <= 3_650
    && 1 <= cfg.archivedDays <= 3_650
    && cfg.fallbacksPerHour <= 10_000
  }

  /** Some live row of the channel was published at most `days` whole days ago (or in the future). */
  ghost predicate PublishedWithin(archive: Archive, ch: ChannelId, now: int, days: nat) {
    exists k :: k in archive && k.channel == ch && !archive[k].deleted && archive[k].publishedAt.Some?
                && Max(now - archive[k].publishedAt.value, 0) / 86_400 <= days
  }

  /** The least time between two fallbacks of a channel, by how recently it published. */
  ghost function EffectiveInterval(archive: Archive, ch: ChannelId, cfg: Config, now: int): nat {
    if PublishedWithin(archive, ch, now, cfg.dormantDays) then cfg.activeInterval
    else if PublishedWithin(archive, ch, now, cfg.archivedDays) then cfg.dormantInterval
    else cfg.archivedInterval
  }

  predicate CapsPermit(lastFallbackAt: Option<int>, interval: int, cfg: Config, used: nat, now: int) {
    && (lastFallbackAt.Some? ==> now - lastFallbackAt.value >= interval)
    && !(cfg.fallbacksPerHour > 0 && used >= cfg.fallbacksPerHour)
  }

  // ---------------------------------------------------------------------
  // The allowlist
  // ---------------------------------------------------------------------

  function Allowed(allowlist: set<(int, ChannelId)>): set<ChannelId> {
    set p | p in allowlist :: p.1
  }

  function KeepOnly(archive: Archive, chs: set<ChannelId>): Archive {
    map k | k in archive && k.channel in chs :: archive[k]
  }

  /** Insert the channel if missing, else refresh its title. */
  function Seed(db: Db, ch: ChannelId, title: Option<string>): Db {
    if ch in db.channels
    then SetChannel(db, ch, db.channels[ch].(title := NonEmpty(title).OrElse(db.channels[ch].title)))
    else db.(channels := db.channels[ch := NewChannel(title)])
  }

  function Allow(db: Db, child: int, ch: ChannelId, title: string): Db {
    Seed(db, ch, Some(title)).(allowlist := db.allowlist + {(child, ch)})
  }

  function Disallow(db: Db, child: int, ch: ChannelId): Db {
    var allowlist := db.allowlist - {(child, ch)};
    if ch in Allowed(allowlist) then db.(allowlist := allowlist)
    else db.(allowlist := allowlist, channels := db.channels - {ch},
             archive := map k | k in db.archive && k.channel != ch :: db.archive[k])
  }

  function CollectGarbage(db: Db): Db {
    var keep := Allowed(db.allowlist);
    db.(channels := map x | x in db.channels && x in keep :: db.channels[x],
        archive := KeepOnly(db.archive, keep))
  }

  function Reconcile(db: Db): Db {
    var keep := Allowed(db.allowlist);
    db.(channels := map x | x in keep :: if x in db.channels then db.channels[x] else NewChannel(None),
        archive := KeepOnly(db.archive, keep))
  }

  /** Every archive row and every allowlist entry names a known channel. */
  ghost predicate KeysHold(db: Db) {
    && (forall k | k in db.archive :: k.channel in db.channels)
    && (forall p | p in db.allowlist :: p.1 in db.channels)
  }
}
