/**
 * The two background loops as one step system: the backfill loop, the freshness
 * loop with its in-flight polls, the admin routes, the allowlist, the clock and
 * a crash of the process at any point.
 */
module SyncMachine {
  import opened Prelude
  import opened Backoff
  import opened ChannelArchive
  import opened SyncTables
  import Text

  /** Where the single backfill worker is. */
  datatype Worker =
    | Resting
    | Claimed(channel: ChannelId)
    | Extracting(channel: ChannelId, startedAt: int)
    | Stored(channel: ChannelId, startedAt: int, observed: nat, added: nat, removed: nat)

  /** One in-flight poll of the freshness loop. `now` is read when the poll starts. */
  datatype Task =
    | Queued(due: Due)
    | Polling(due: Due, now: int)
    | FallingBack(due: Due, now: int)
    | Recording(due: Due, now: int, title: Option<string>, etag: Option<string>, lastModified: Option<string>)

  /** Where the freshness loop is. `used` is the fallback count read once per batch of `size` polls. */
  datatype Refresher =
    | Waiting
    | Picked(batch: map<ChannelId, Due>)
    | Batch(used: nat, size: nat, tasks: map<ChannelId, Task>)

  datatype State = State(db: Db, clock: int, worker: Worker, refresher: Refresher)

  datatype Event =
    | Tick(to: int)
    | Crash
    // Backfill loop
    | ClaimBackfill(channel: ChannelId)
    | StartListing
    | CommitListing(entries: seq<Entry>)
    | FinishListing(delay: int)
    | FailListing(msg: string, delay: int)
    // Freshness loop
    | ClaimSources(batch: set<ChannelId>)
    | CountFallbacks
    | StartPoll(channel: ChannelId)
    | PollUnchanged(channel: ChannelId)
    | PollUpdated(channel: ChannelId, items: seq<Item>, title: Option<string>, etag: Option<string>,
                  lastModified: Option<string>)
    | PollFailed(channel: ChannelId, msg: string, delay: int)
    | Fallback(channel: ChannelId)
    | FallbackItems(channel: ChannelId, items: seq<Item>)
    | FallbackNotFound(channel: ChannelId, msg: string, delay: int)
    | FallbackError(channel: ChannelId, msg: string, delay: int)
    | RecordPoll(channel: ChannelId, delay: int)
    | DrainBatch
    // Routes and cron
    | RunNowRoute(channel: ChannelId)
    | UnshelveRoute(channel: ChannelId)
    | Subscribe(channel: ChannelId)
    | SeedChannel(channel: ChannelId, title: Option<string>)
    | AllowChannel(child: int, channel: ChannelId, name: string)
    | DisallowChannel(child: int, channel: ChannelId)
    | RunGc
    | RunReconcile

  predicate OfWorker(e: Event) {
    e.ClaimBackfill? || e.StartListing? || e.CommitListing? || e.FinishListing? || e.FailListing?
  }

  predicate OfPoll(e: Event) {
    || e.StartPoll? || e.PollUnchanged? || e.PollUpdated? || e.PollFailed? || e.Fallback? || e.FallbackItems?
    || e.FallbackNotFound? || e.FallbackError? || e.RecordPoll?
  }

  predicate OfRoute(e: Event) {
    || e.RunNowRoute? || e.UnshelveRoute? || e.Subscribe? || e.SeedChannel? || e.AllowChannel? || e.DisallowChannel?
    || e.RunGc? || e.RunReconcile?
  }

  const INIT := State(Db(map[], map[], map[], {}), 0, Resting, Waiting)

  predicate HasTask(s: State, ch: ChannelId) {
    s.refresher.Batch? && ch in s.refresher.tasks
  }

  predicate IsPolling(s: State, ch: ChannelId) {
    HasTask(s, ch) && s.refresher.tasks[ch].Polling?
  }

  predicate IsFallingBack(s: State, ch: ChannelId) {
    HasTask(s, ch) && s.refresher.tasks[ch].FallingBack?
  }

  ghost predicate Enabled(cfg: Config, s: State, e: Event) {
    match e
    case Tick(to) => s.clock <= to
    case Crash => true
    case ClaimBackfill(ch) => s.worker.Resting? && IsNextDue(s.db.channels, ch, s.clock)
    case StartListing => s.worker.Claimed?
    case CommitListing(_) => s.worker.Extracting?
    case FinishListing(delay) => s.worker.Stored? && IsJittered(cfg.reBackfill, 0.05, delay)
    case FailListing(_, delay) =>
      && s.worker.Extracting?
      && (s.worker.channel in s.db.channels ==>
            IsBackoff(s.db.channels[s.worker.channel].backfill.errors + 1, cfg.minGap, delay))
    case ClaimSources(batch) => s.refresher.Waiting? && batch != {}
        && IsBatch(s.db.channels, s.clock, cfg.batchSize, batch)
    case CountFallbacks => s.refresher.Picked?
    case StartPoll(ch) => HasTask(s, ch) && s.refresher.tasks[ch].Queued?
    case PollUnchanged(ch) => IsPolling(s, ch)
    case PollUpdated(ch, _, _, _, _) => IsPolling(s, ch)
    case PollFailed(ch, _, delay) => IsPolling(s, ch)
        && IsBackoff(s.refresher.tasks[ch].due.errors + 1, cfg.channelInterval, delay)
    case Fallback(ch) =>
      && IsPolling(s, ch) && cfg.fallbackEnabled
      && var task := s.refresher.tasks[ch];
         CapsPermit(task.due.lastFallbackAt, EffectiveInterval(s.db.archive, ch, cfg, task.now), cfg,
                    s.refresher.used, task.now)
    case FallbackItems(ch, _) => IsFallingBack(s, ch)
    case FallbackNotFound(ch, _, delay) =>
      IsFallingBack(s, ch) && IsBackoff(s.refresher.tasks[ch].due.errors + 1, cfg.channelInterval, delay)
    case FallbackError(ch, _, delay) =>
      IsFallingBack(s, ch) && IsBackoff(s.refresher.tasks[ch].due.errors + 1, cfg.channelInterval, delay)
    case RecordPoll(ch, delay) =>
      HasTask(s, ch) && s.refresher.tasks[ch].Recording? && IsJittered(cfg.channelInterval, 0.15, delay)
    case DrainBatch => s.refresher.Batch? && s.refresher.tasks == map[]
    case _ => true
  }

  function EndTask(r: Refresher, ch: ChannelId): Refresher
    requires r.Batch?
  {
    r.(tasks := r.tasks - {ch})
  }

  function SetTask(r: Refresher, ch: ChannelId, task: Task): Refresher
    requires r.Batch?
  {
    r.(tasks := r.tasks[ch := task])
  }

  /** The step of the backfill worker. */
  ghost function WorkerStep(cfg: Config, s: State, e: Event): State
    requires Enabled(cfg, s, e)
    requires OfWorker(e)
  {
    match e
    case ClaimBackfill(ch) =>
      s.(db := SetChannel(s.db, ch, MarkClaimed(s.db.channels[ch], s.clock)), worker := Claimed(ch))
    case StartListing => s.(worker := Extracting(s.worker.channel, s.clock))
    case CommitListing(entries) =>
      var ch := s.worker.channel;
      if CanStore(s.db, ch, |entries|) then
        var db := StoreListing(s.db, ch, s.worker.startedAt, entries);
        s.(db := db,
           worker := Stored(ch, s.worker.startedAt, |entries|, |NewIds(s.db.archive, ch, OfEntries(entries))|,
                            |Removed(s.db.archive, db.archive)|))
      else s.(worker := Resting)
    case FinishListing(delay) =>
      var w := s.worker;
      s.(db := if w.channel in s.db.channels
               then SetChannel(s.db, w.channel, MarkFinished(s.db.channels[w.channel], s.clock, s.clock + delay,
                                                             w.observed, w.added, w.removed))
               else s.db,
         worker := Resting)
    case FailListing(msg, delay) =>
      var ch := s.worker.channel;
      s.(db := if ch in s.db.channels
               then SetChannel(s.db, ch, MarkFailed(s.db.channels[ch], Text.IsNotFoundError(msg), msg, cfg.errorLimit,
                                                    s.clock, delay))
               else s.db,
         worker := Resting)
  }

  /** Store a batch of items, then go on to record the poll unless the store failed. */
  function StoreStep(s: State, ch: ChannelId, items: seq<Item>, source: Source, next: Task): State
    requires HasTask(s, ch) && !s.refresher.tasks[ch].Queued?
  {
    if CanStore(s.db, ch, |items|)
    then s.(db := StoreItems(s.db, ch, items, s.refresher.tasks[ch].now, source),
            refresher := SetTask(s.refresher, ch, next))
    else s.(refresher := EndTask(s.refresher, ch))
  }

  /** How a poll's event rewrites its channel's row. */
  function Recorded(c: Channel, task: Task, e: Event): Channel
    requires OfPoll(e) && !task.Queued? && (e.RecordPoll? ==> task.Recording?)
  {
    match e
    case PollFailed(_, msg, delay) => MarkPollFailed(c, msg, task.now + delay, task.now)
    case Fallback(_) => MarkFallback(c, task.now)
    case FallbackNotFound(_, msg, delay) =>
      if task.due.errors + 1 >= NOTFOUND_SHELVE_THRESHOLD
      then MarkDead(c, "sidecar reports source not found", task.now + YEAR_SECS, task.now)
      else MarkPollFailed(c, msg, task.now + delay, task.now)
    case FallbackError(_, msg, delay) => MarkPollFailed(c, msg, task.now + delay, task.now)
    case RecordPoll(_, delay) => MarkPolled(c, task.title, task.etag, task.lastModified, task.now + delay, task.now)
    case _ => c
  }

  /** Write a poll's event to its channel's row, if the row still exists. */
  function RecordIn(db: Db, ch: ChannelId, task: Task, e: Event): Db
    requires OfPoll(e) && !task.Queued? && (e.RecordPoll? ==> task.Recording?)
  {
    if ch in db.channels then SetChannel(db, ch, Recorded(db.channels[ch], task, e)) else db
  }

  /** The step of one in-flight poll. */
  ghost function PollStep(cfg: Config, s: State, e: Event): State
    requires Enabled(cfg, s, e)
    requires OfPoll(e)
  {
    var ch := e.channel;
    var task := s.refresher.tasks[ch];
    if e.StartPoll? then
      s.(refresher := SetTask(s.refresher, ch, Polling(task.due, s.clock)))
    else if e.PollUnchanged? then
      s.(refresher := SetTask(s.refresher, ch,
                              Recording(task.due, task.now, None, task.due.etag, task.due.lastModified)))
    else if e.PollUpdated? then
      StoreStep(s, ch, e.items, Rss, Recording(task.due, task.now, e.title, e.etag, e.lastModified))
    else if e.FallbackItems? then
      StoreStep(s, ch, e.items, Sidecar, Recording(task.due, task.now, None, None, None))
    else if e.Fallback? then
      s.(db := RecordIn(s.db, ch, task, e), refresher := SetTask(s.refresher, ch, FallingBack(task.due, task.now)))
    else
      s.(db := RecordIn(s.db, ch, task, e), refresher := EndTask(s.refresher, ch))
  }

  /** What a route or a cron job does to the tables. */
  function RouteStep(db: Db, e: Event): Db
    requires OfRoute(e)
  {
    match e
    case RunNowRoute(ch) => RunNow(db, ch)
    case UnshelveRoute(ch) => Unshelve(db, ch)
    case Subscribe(ch) => SubscribeHint(db, ch)
    case SeedChannel(ch, title) => Seed(db, ch, title)
    case AllowChannel(child, ch, name) => Allow(db, child, ch, name)
    case DisallowChannel(child, ch) => Disallow(db, child, ch)
    case RunGc => CollectGarbage(db)
    case RunReconcile => Reconcile(db)
  }

  ghost function Next(cfg: Config, s: State, e: Event): State
    requires Enabled(cfg, s, e)
  {
    if OfWorker(e) then WorkerStep(cfg, s, e)
    else if OfPoll(e) then PollStep(cfg, s, e)
    else if OfRoute(e) then s.(db := RouteStep(s.db, e))
    else
      match e
      case Tick(to) => s.(clock := to)
      case Crash => s.(worker := Resting, refresher := Waiting)
      case ClaimSources(batch) =>
        s.(db := s.db.(channels := Lease(s.db.channels, batch, s.clock + POLL_LEASE_SECS)),
           refresher := Picked(map x | x in batch && x in s.db.channels :: DueOf(s.db.channels[x])))
      case CountFallbacks =>
        var counts := cfg.fallbacksPerHour > 0 && cfg.fallbackEnabled;
        var used := if counts then |RecentFallbacks(s.db.channels, s.clock)| else 0;
        var queued := map x | x in s.refresher.batch :: Queued(s.refresher.batch[x]);
        s.(refresher := Batch(used, |s.refresher.batch|, queued))
      case DrainBatch => s.(refresher := Waiting)
  }

  ghost predicate Step(cfg: Config, s: State, e: Event, s': State) {
    Enabled(cfg, s, e) && s' == Next(cfg, s, e)
  }

  /** `ss` are the states a run of the events `es` passes through, from the empty database on. */
  ghost predicate IsRun(cfg: Config, ss: seq<State>, es: seq<Event>) {
    && |ss| == |es| + 1
    && ss[0] == INIT
    && forall i | 0 <= i < |es| :: Step(cfg, ss[i], es[i], ss[i + 1])
  }

  /**
   * The loops share nothing but the tables and the clock: each moves only by its
   * own events and a crash, which moves both to rest, and only a tick moves the clock.
   */
  lemma LoopsApart(cfg: Config, s: State, e: Event)
    requires Enabled(cfg, s, e)
    ensures !OfWorker(e) && !e.Crash? ==> Next(cfg, s, e).worker == s.worker
    ensures !OfPoll(e) && !e.ClaimSources? && !e.CountFallbacks? && !e.DrainBatch? && !e.Crash? ==>
              Next(cfg, s, e).refresher == s.refresher
    ensures e.Crash? ==> Next(cfg, s, e) == State(s.db, s.clock, Resting, Waiting)
    ensures e.Tick? ==> Next(cfg, s, e) == s.(clock := e.to)
    ensures !e.Tick? ==> Next(cfg, s, e).clock == s.clock
    ensures e.DrainBatch? ==> Next(cfg, s, e).db == s.db && Next(cfg, s, e).refresher == Waiting
    ensures e.ClaimBackfill? ==> Next(cfg, s, e).worker == Claimed(e.channel)
    ensures e.StartListing? ==> Next(cfg, s, e) == s.(worker := Extracting(s.worker.channel, s.clock))
  {}

  /** The clock never goes back. */
  lemma ClockStep(cfg: Config, s: State, e: Event)
    requires Enabled(cfg, s, e)
    ensures Next(cfg, s, e).clock >= s.clock
  {}

  lemma {:induction false} ClockMonotone(cfg: Config, ss: seq<State>, es: seq<Event>, i: nat, j: nat)
    requires IsRun(cfg, ss, es) && i <= j < |ss|
    ensures ss[i].clock <= ss[j].clock
    decreases j
  {
    if i < j {
      ClockMonotone(cfg, ss, es, i, j - 1);
      assert Step(cfg, ss[j - 1], es[j - 1], ss[j]);
      ClockStep(cfg, ss[j - 1], es[j - 1]);
    }
  }
}
