/**
 * What every run keeps about the freshness loop: the spacing and the hourly
 * number of sidecar fallbacks, and how long a due channel can wait for a claim.
 */
module FreshnessSafety {
  import opened Prelude
  import opened Backoff
  import opened ChannelArchive
  import opened SyncTables
  import opened SyncMachine

  // ---------------------------------------------------------------------
  // One row under one step
  // ---------------------------------------------------------------------

  lemma WorkerKeepsFeed(cfg: Config, s: State, e: Event, x: ChannelId)
    requires Enabled(cfg, s, e) && OfWorker(e)
    ensures var s' := WorkerStep(cfg, s, e);
            && s'.db.channels.Keys == s.db.channels.Keys
            && (x in s.db.channels ==>
                  && s'.db.channels[x].feed == s.db.channels[x].feed
                  && s'.db.channels[x].lastFallbackAt == s.db.channels[x].lastFallbackAt)
  {}

  lemma RouteKeepsFeed(db: Db, e: Event, x: ChannelId)
    requires OfRoute(e) && x in RouteStep(db, e).channels
    ensures var after := RouteStep(db, e).channels[x];
            if x in db.channels
            then after.feed == db.channels[x].feed && after.lastFallbackAt == db.channels[x].lastFallbackAt
            else after.feed.nextPollAt == 0 && after.lastFallbackAt == None
  {
    if e.AllowChannel? {
      assert RouteStep(db, e).channels == Seed(db, e.channel, Some(e.name)).channels;
    }
  }

  /** The feed columns and fallback time of a row a worker or a route leaves in place are as before, or fresh. */
  lemma OthersKeepFeed(cfg: Config, s: State, e: Event, x: ChannelId)
    requires Enabled(cfg, s, e) && (OfWorker(e) || OfRoute(e)) && x in Next(cfg, s, e).db.channels
    ensures var after := Next(cfg, s, e).db.channels[x];
            if x in s.db.channels
            then after.feed == s.db.channels[x].feed && after.lastFallbackAt == s.db.channels[x].lastFallbackAt
            else OfRoute(e) && after.feed.nextPollAt == 0 && after.lastFallbackAt == None
  {
    if OfWorker(e) {
      WorkerKeepsFeed(cfg, s, e, x);
    } else {
      RouteKeepsFeed(s.db, e, x);
    }
  }

  lemma StoreItemsRow(db: Db, ch: ChannelId, items: seq<Item>, now: int, source: Source, x: ChannelId)
    ensures var db' := StoreItems(db, ch, items, now, source);
            && db'.channels.Keys == db.channels.Keys
            && (x in db.channels ==>
                  && db'.channels[x].feed == db.channels[x].feed
                  && db'.channels[x].lastFallbackAt == db.channels[x].lastFallbackAt)
  {}

  lemma RecordInRow(db: Db, ch: ChannelId, task: Task, e: Event, x: ChannelId)
    requires OfPoll(e) && !task.Queued? && (e.RecordPoll? ==> task.Recording?)
    ensures var db' := RecordIn(db, ch, task, e);
            && db'.channels.Keys == db.channels.Keys
            && (x in db.channels ==>
                  db'.channels[x] == if x == ch then Recorded(db.channels[x], task, e) else db.channels[x])
  {}

  /** A poll rewrites its own channel's row only; storing items leaves even its schedule alone. */
  lemma PollRow(cfg: Config, s: State, e: Event, x: ChannelId)
    requires Enabled(cfg, s, e) && OfPoll(e)
    ensures var db' := Next(cfg, s, e).db;
            && db'.channels.Keys == s.db.channels.Keys
            && (x in s.db.channels ==>
                  if x == e.channel && !e.StartPoll? && !e.PollUpdated? && !e.FallbackItems?
                  then db'.channels[x] == Recorded(s.db.channels[x], s.refresher.tasks[x], e)
                  else db'.channels[x].feed == s.db.channels[x].feed
                       && db'.channels[x].lastFallbackAt == s.db.channels[x].lastFallbackAt)
  {
    var ch, task := e.channel, s.refresher.tasks[e.channel];
    if e.PollUpdated? {
      StoreItemsRow(s.db, ch, e.items, task.now, Rss, x);
    } else if e.FallbackItems? {
      StoreItemsRow(s.db, ch, e.items, task.now, Sidecar, x);
    } else if !e.StartPoll? && !e.PollUnchanged? {
      RecordInRow(s.db, ch, task, e, x);
    }
  }

  /** What a step does to one row's fallback time: only a fallback of that channel sets it. */
  lemma FallbackTimeStep(cfg: Config, s: State, e: Event, x: ChannelId)
    requires Enabled(cfg, s, e) && x in Next(cfg, s, e).db.channels
    ensures Next(cfg, s, e).db.channels[x].lastFallbackAt
         == if x !in s.db.channels then None
            else if e == Fallback(x) then Some(s.refresher.tasks[x].now)
            else s.db.channels[x].lastFallbackAt
  {
    if OfWorker(e) || OfRoute(e) {
      OthersKeepFeed(cfg, s, e, x);
    } else if OfPoll(e) {
      PollRow(cfg, s, e, x);
    }
  }

  /**
   * What a step does to one row's next poll time: insertions start at 0, claims lease it,
   * polls move it past their start.
   */
  lemma PollTimeStep(cfg: Config, s: State, e: Event, x: ChannelId)
    requires ValidConfig(cfg) && Enabled(cfg, s, e) && x in Next(cfg, s, e).db.channels
    ensures var after := Next(cfg, s, e).db.channels[x].feed.nextPollAt;
            if x !in s.db.channels then OfRoute(e) && after == 0
            else if e.ClaimSources? && x in e.batch then after == s.clock + POLL_LEASE_SECS
            else
              || after == s.db.channels[x].feed.nextPollAt
              || (OfPoll(e) && e.channel == x && HasTask(s, x) && !s.refresher.tasks[x].Queued?
                  && after > s.refresher.tasks[x].now)
  {
    if OfWorker(e) || OfRoute(e) {
      OthersKeepFeed(cfg, s, e, x);
    } else if OfPoll(e) {
      PollRow(cfg, s, e, x);
      if e.channel == x && !e.StartPoll? {
        PolledLater(cfg, s, e);
      }
    }
  }

  lemma PolledLater(cfg: Config, s: State, e: Event)
    requires ValidConfig(cfg) && Enabled(cfg, s, e) && OfPoll(e) && !e.StartPoll? && e.channel in s.db.channels
    ensures var c := s.db.channels[e.channel];
            var task := s.refresher.tasks[e.channel];
            var after := Recorded(c, task, e).feed.nextPollAt;
            after == c.feed.nextPollAt || after > task.now
  {
    var errors := s.refresher.tasks[e.channel].due.errors + 1;
    if e.PollFailed? || e.FallbackNotFound? || e.FallbackError? {
      BackoffPositive(errors, cfg.channelInterval, e.delay);
    } else if e.RecordPoll? {
      JitterPositive(cfg.channelInterval, 0.15, e.delay);
    }
  }

  // ---------------------------------------------------------------------
  // Sidecar fallbacks: spacing
  // ---------------------------------------------------------------------

  /** A snapshot of a row's fallback time is current, unless the row was deleted and inserted again. */
  ghost predicate Current(s: State, x: ChannelId, due: Due) {
    x in s.db.channels ==>
      s.db.channels[x].lastFallbackAt == due.lastFallbackAt || s.db.channels[x].lastFallbackAt == None
  }

  predicate Waits(task: Task) {
    task.Queued? || task.Polling?
  }

  ghost predicate SnapshotsOk(s: State) {
    && (s.refresher.Picked? ==> forall x | x in s.refresher.batch :: Current(s, x, s.refresher.batch[x]))
    && (s.refresher.Batch? ==>
          forall x | x in s.refresher.tasks ::
            && (Waits(s.refresher.tasks[x]) ==> Current(s, x, s.refresher.tasks[x].due))
            && (!s.refresher.tasks[x].Queued? ==> s.refresher.tasks[x].now <= s.clock))
  }

  /** How one step changes the in-flight polls. */
  lemma TaskStep(cfg: Config, s: State, e: Event, x: ChannelId)
    requires Enabled(cfg, s, e) && HasTask(Next(cfg, s, e), x)
    ensures var after := Next(cfg, s, e).refresher.tasks[x];
            || (e.CountFallbacks? && x in s.refresher.batch && after == Queued(s.refresher.batch[x]))
            || (HasTask(s, x) && after == s.refresher.tasks[x])
            || (e == StartPoll(x) && HasTask(s, x) && after == Polling(s.refresher.tasks[x].due, s.clock))
            || (OfPoll(e) && !e.StartPoll? && e.channel == x && HasTask(s, x) && !s.refresher.tasks[x].Queued?
                && !Waits(after) && after.now == s.refresher.tasks[x].now)
  {}

  lemma StepKeepsTask(cfg: Config, s: State, e: Event, x: ChannelId)
    requires SnapshotsOk(s) && Enabled(cfg, s, e) && HasTask(Next(cfg, s, e), x)
    ensures var (s', task) := (Next(cfg, s, e), Next(cfg, s, e).refresher.tasks[x]);
            && (Waits(task) ==> Current(s', x, task.due))
            && (!task.Queued? ==> task.now <= s'.clock)
  {
    ClockStep(cfg, s, e);
    TaskStep(cfg, s, e, x);
    if x in Next(cfg, s, e).db.channels {
      FallbackTimeStep(cfg, s, e, x);
    }
  }

  lemma StepKeepsPick(cfg: Config, s: State, e: Event, x: ChannelId)
    requires SnapshotsOk(s) && Enabled(cfg, s, e) && Next(cfg, s, e).refresher.Picked?
    requires x in Next(cfg, s, e).refresher.batch
    ensures Current(Next(cfg, s, e), x, Next(cfg, s, e).refresher.batch[x])
  {
    if x in Next(cfg, s, e).db.channels {
      FallbackTimeStep(cfg, s, e, x);
    }
  }

  lemma StepKeepsSnapshots(cfg: Config, s: State, e: Event, s': State)
    requires SnapshotsOk(s) && Step(cfg, s, e, s')
    ensures SnapshotsOk(s')
  {
    if s'.refresher.Batch? {
      forall x | x in s'.refresher.tasks
        ensures Waits(s'.refresher.tasks[x]) ==> Current(s', x, s'.refresher.tasks[x].due)
        ensures !s'.refresher.tasks[x].Queued? ==> s'.refresher.tasks[x].now <= s'.clock
      {
        StepKeepsTask(cfg, s, e, x);
      }
    } else if s'.refresher.Picked? {
      forall x | x in s'.refresher.batch ensures Current(s', x, s'.refresher.batch[x]) {
        StepKeepsPick(cfg, s, e, x);
      }
    }
  }

  lemma {:induction false} RunsKeepSnapshots(cfg: Config, ss: seq<State>, es: seq<Event>, n: nat)
    requires IsRun(cfg, ss, es) && n < |ss|
    ensures SnapshotsOk(ss[n])
    decreases n
  {
    if n > 0 {
      RunsKeepSnapshots(cfg, ss, es, n - 1);
      assert Step(cfg, ss[n - 1], es[n - 1], ss[n]);
      StepKeepsSnapshots(cfg, ss[n - 1], es[n - 1], ss[n]);
    }
  }

  /** The time a fallback event is accounted to: when its poll started. */
  function FallbackTime(s: State, ch: ChannelId): int
    requires IsPolling(s, ch)
  {
    s.refresher.tasks[ch].now
  }

  lemma {:induction false} FallbackRemembered(
      cfg: Config, ss: seq<State>, es: seq<Event>, i: nat, j: nat, ch: ChannelId)
    requires IsRun(cfg, ss, es) && i < j < |ss| && es[i] == Fallback(ch) && IsPolling(ss[i], ch)
    requires forall m | i <= m <= j :: ch in ss[m].db.channels
    ensures ss[j].db.channels[ch].lastFallbackAt.Some?
    ensures ss[j].db.channels[ch].lastFallbackAt.value >= FallbackTime(ss[i], ch)
    decreases j
  {
    assert Step(cfg, ss[j - 1], es[j - 1], ss[j]);
    FallbackTimeStep(cfg, ss[j - 1], es[j - 1], ch);
    if i < j - 1 {
      FallbackRemembered(cfg, ss, es, i, j - 1, ch);
      RunsKeepSnapshots(cfg, ss, es, j - 1);
    }
  }

  /**
   * Two sidecar fallbacks of a channel that stays tracked are at least the
   * later one's effective interval apart.
   */
  lemma FallbacksAreSpaced(cfg: Config, ss: seq<State>, es: seq<Event>, i: nat, j: nat, ch: ChannelId)
    requires IsRun(cfg, ss, es) && i < j < |es|
    requires es[i] == Fallback(ch) && es[j] == Fallback(ch)
    requires forall m | i <= m <= j :: ch in ss[m].db.channels
    ensures IsPolling(ss[i], ch) && IsPolling(ss[j], ch)
    ensures FallbackTime(ss[j], ch) - FallbackTime(ss[i], ch)
         >= EffectiveInterval(ss[j].db.archive, ch, cfg, FallbackTime(ss[j], ch))
  {
    assert Step(cfg, ss[i], es[i], ss[i + 1]);
    assert Step(cfg, ss[j], es[j], ss[j + 1]);
    FallbackRemembered(cfg, ss, es, i, j, ch);
    RunsKeepSnapshots(cfg, ss, es, j);
  }

  /** A fallback also keeps the backfill loop off its channel: no claim for an hour after it. */
  lemma FallbackDefersBackfill(cfg: Config, ss: seq<State>, es: seq<Event>, i: nat, j: nat, ch: ChannelId)
    requires IsRun(cfg, ss, es) && i < j < |es|
    requires es[i] == Fallback(ch) && es[j] == ClaimBackfill(ch)
    requires forall m | i <= m <= j :: ch in ss[m].db.channels
    ensures IsPolling(ss[i], ch) && ss[j].clock >= FallbackTime(ss[i], ch) + 3600
  {
    assert Step(cfg, ss[i], es[i], ss[i + 1]);
    assert Step(cfg, ss[j], es[j], ss[j + 1]);
    FallbackRemembered(cfg, ss, es, i, j, ch);
  }

  // ---------------------------------------------------------------------
  // Sidecar fallbacks: the hourly count
  // ---------------------------------------------------------------------

  function WaitingPolls(r: Refresher): set<ChannelId>
    requires r.Batch?
  {
    set x | x in r.tasks && Waits(r.tasks[x])
  }

  /** The count stays under the cap plus one batch; within a batch it grows only by polls that stopped waiting. */
  ghost predicate CountOk(cfg: Config, s: State) {
    var n := |RecentFallbacks(s.db.channels, s.clock)|;
    && n <= cfg.fallbacksPerHour + cfg.batchSize - 1
    && (s.refresher.Picked? ==> |s.refresher.batch| <= cfg.batchSize)
    && (s.refresher.Batch? && cfg.fallbackEnabled ==>
          n + |WaitingPolls(s.refresher)| <= s.refresher.used + s.refresher.size)
    && (s.refresher.Batch? ==> s.refresher.size <= cfg.batchSize)
  }

  /** A step other than a fallback adds no recent fallback. */
  lemma RecentShrinks(cfg: Config, s: State, e: Event)
    requires Enabled(cfg, s, e)
    ensures var (before, after) := (RecentFallbacks(s.db.channels, s.clock),
                                    RecentFallbacks(Next(cfg, s, e).db.channels, Next(cfg, s, e).clock));
            after <= before + if e.Fallback? then {e.channel} else {}
  {
    var s' := Next(cfg, s, e);
    ClockStep(cfg, s, e);
    forall x | x in RecentFallbacks(s'.db.channels, s'.clock)
      ensures x in RecentFallbacks(s.db.channels, s.clock) || e == Fallback(x)
    {
      FallbackTimeStep(cfg, s, e, x);
    }
  }

  /** Within a batch, polls only stop waiting, and a fallback's poll does. */
  lemma WaitingShrinks(cfg: Config, s: State, e: Event)
    requires Enabled(cfg, s, e) && s.refresher.Batch? && Next(cfg, s, e).refresher.Batch?
    ensures var r' := Next(cfg, s, e).refresher;
            && r'.used == s.refresher.used && r'.size == s.refresher.size
            && WaitingPolls(r') <= WaitingPolls(s.refresher) - (if e.Fallback? then {e.channel} else {})
            && (e.Fallback? ==> e.channel in WaitingPolls(s.refresher))
  {
    var s' := Next(cfg, s, e);
    forall x | x in WaitingPolls(s'.refresher) ensures x in WaitingPolls(s.refresher) && e != Fallback(x) {
      TaskStep(cfg, s, e, x);
    }
  }

  /** Any step grows the count by at most one fallback, which stops one poll waiting. */
  lemma CountGrowth(cfg: Config, s: State, e: Event)
    requires Enabled(cfg, s, e)
    ensures var (before, after) := (RecentFallbacks(s.db.channels, s.clock),
                                    RecentFallbacks(Next(cfg, s, e).db.channels, Next(cfg, s, e).clock));
            |after| <= |before| + if e.Fallback? then 1 else 0
  {
    var s' := Next(cfg, s, e);
    RecentShrinks(cfg, s, e);
    var before := RecentFallbacks(s.db.channels, s.clock);
    SubsetSize(RecentFallbacks(s'.db.channels, s'.clock), before + if e.Fallback? then {e.channel} else {});
  }

  lemma WaitingCount(cfg: Config, s: State, e: Event)
    requires Enabled(cfg, s, e) && s.refresher.Batch? && Next(cfg, s, e).refresher.Batch?
    ensures |WaitingPolls(Next(cfg, s, e).refresher)| <= |WaitingPolls(s.refresher)| - if e.Fallback? then 1 else 0
  {
    WaitingShrinks(cfg, s, e);
    var waiting := WaitingPolls(s.refresher);
    if e.Fallback? {
      assert |waiting - {e.channel}| == |waiting| - 1;
    }
    SubsetSize(WaitingPolls(Next(cfg, s, e).refresher), waiting - if e.Fallback? then {e.channel} else {});
  }

  /** Where the loop's phase can come from. */
  lemma PhaseStep(cfg: Config, s: State, e: Event)
    requires Enabled(cfg, s, e)
    ensures var r' := Next(cfg, s, e).refresher;
            && (r'.Picked? ==> s.refresher == r' || (e.ClaimSources? && r'.batch.Keys == e.batch))
            && (r'.Batch? ==>
                  || s.refresher.Batch?
                  || (e.CountFallbacks? && s.refresher.Picked? && r'.size == |s.refresher.batch|
                      && WaitingPolls(r') == s.refresher.batch.Keys
                      && (cfg.fallbacksPerHour > 0 && cfg.fallbackEnabled ==>
                            r'.used == |RecentFallbacks(s.db.channels, s.clock)|)))
  {
    if e.CountFallbacks? {
      assert WaitingPolls(Next(cfg, s, e).refresher) == s.refresher.batch.Keys;
    } else if e.ClaimSources? {
      assert Next(cfg, s, e).refresher.batch.Keys == e.batch;
    }
  }

  lemma StepKeepsCount(cfg: Config, s: State, e: Event)
    requires ValidConfig(cfg) && cfg.fallbacksPerHour > 0 && CountOk(cfg, s) && Enabled(cfg, s, e)
    ensures CountOk(cfg, Next(cfg, s, e))
  {
    CountGrowth(cfg, s, e);
    PhaseStep(cfg, s, e);
    if s.refresher.Batch? && Next(cfg, s, e).refresher.Batch? {
      WaitingCount(cfg, s, e);
      WaitingShrinks(cfg, s, e);
    }
  }

  /**
   * With an hourly cap set, in every reachable state the channels whose latest
   * fallback is within the hour number at most the cap plus one batch less one,
   * although each batch goes by one count read at its start.
   */
  lemma {:induction false} HourlyFallbacksBounded(cfg: Config, ss: seq<State>, es: seq<Event>, n: nat)
    requires ValidConfig(cfg) && cfg.fallbacksPerHour > 0 && IsRun(cfg, ss, es) && n < |ss|
    ensures |RecentFallbacks(ss[n].db.channels, ss[n].clock)| <= cfg.fallbacksPerHour + cfg.batchSize - 1
    ensures CountOk(cfg, ss[n])
    decreases n
  {
    if n == 0 {
      assert RecentFallbacks(map[], 0) == {};
    } else {
      HourlyFallbacksBounded(cfg, ss, es, n - 1);
      assert Step(cfg, ss[n - 1], es[n - 1], ss[n]);
      StepKeepsCount(cfg, ss[n - 1], es[n - 1]);
    }
  }

  // ---------------------------------------------------------------------
  // Bounded waiting
  // ---------------------------------------------------------------------

  /** A poll of `x` under way that began before `at`, so its next poll may be scheduled before `at` too. */
  predicate EarlyPoll(s: State, x: ChannelId, at: int) {
    HasTask(s, x) && !s.refresher.tasks[x].Queued? && s.refresher.tasks[x].now < at
  }

  /** The other channels that are, or may yet be, scheduled no later than `at`. */
  function Rivals(s: State, c: ChannelId, at: int): set<ChannelId> {
    set x | x in s.db.channels && x != c && (s.db.channels[x].feed.nextPollAt <= at || EarlyPoll(s, x, at))
  }

  /** No channel is inserted and `c` stays tracked. */
  ghost predicate Kept(s: State, s': State, c: ChannelId) {
    s'.db.channels.Keys <= s.db.channels.Keys && c in s'.db.channels
  }

  /** The number of claims among events `i` to before `j`. */
  function Claims(es: seq<Event>, i: nat, j: nat): nat
    requires i <= j <= |es|
  {
    if i == j then 0 else Claims(es, i, j - 1) + if es[j - 1].ClaimSources? then 1 else 0
  }

  /** While `c` waits: it is due since `at` and no poll of it is in flight. */
  ghost predicate StillWaiting(s: State, c: ChannelId, at: int) {
    && c in s.db.channels && s.db.channels[c].feed.nextPollAt == at && at <= s.clock
    && (s.refresher.Picked? ==> c !in s.refresher.batch)
    && !HasTask(s, c)
  }

  /** A step makes no new rival, and a claim turns its batch from rivals into later ones. */
  lemma RivalStep(cfg: Config, s: State, e: Event, c: ChannelId, at: int, x: ChannelId)
    requires ValidConfig(cfg) && Enabled(cfg, s, e) && at <= s.clock
    requires x in s.db.channels && x in Rivals(Next(cfg, s, e), c, at)
    ensures x in Rivals(s, c, at) && !(e.ClaimSources? && x in e.batch)
  {
    var s' := Next(cfg, s, e);
    PollTimeStep(cfg, s, e, x);
    if EarlyPoll(s', x, at) {
      TaskStep(cfg, s, e, x);
    }
  }

  /** A step that does not claim `c` leaves it waiting and puts nobody new ahead of it. */
  lemma WaitStep(cfg: Config, s: State, e: Event, c: ChannelId, at: int)
    requires ValidConfig(cfg) && Enabled(cfg, s, e) && StillWaiting(s, c, at)
    requires !(e.ClaimSources? && c in e.batch)
    requires Kept(s, Next(cfg, s, e), c)
    ensures StillWaiting(Next(cfg, s, e), c, at)
    ensures Rivals(Next(cfg, s, e), c, at) <= Rivals(s, c, at) - if e.ClaimSources? then e.batch else {}
  {
    var s' := Next(cfg, s, e);
    PollTimeStep(cfg, s, e, c);
    ClockStep(cfg, s, e);
    if HasTask(s', c) {
      TaskStep(cfg, s, e, c);
    }
    forall x | x in Rivals(s', c, at)
      ensures x in Rivals(s, c, at) && !(e.ClaimSources? && x in e.batch)
    {
      RivalStep(cfg, s, e, c, at, x);
    }
  }

  /** A claim that skips a due channel takes a full batch, all of it scheduled no later. */
  lemma SkippingClaim(cfg: Config, s: State, batch: set<ChannelId>, c: ChannelId, at: int)
    requires IsBatch(s.db.channels, s.clock, cfg.batchSize, batch) && StillWaiting(s, c, at) && c !in batch
    ensures |batch| == cfg.batchSize && batch <= Rivals(s, c, at)
  {
    var due := DueSet(s.db.channels, s.clock);
    assert c in due - batch;
    if |batch| == |due| {
      SubsetSize(batch, due - {c});
      assert false;
    }
  }

  lemma WaitCost(cfg: Config, s: State, e: Event, c: ChannelId, at: int)
    requires ValidConfig(cfg) && Enabled(cfg, s, e) && StillWaiting(s, c, at)
    requires !(e.ClaimSources? && c in e.batch)
    requires Kept(s, Next(cfg, s, e), c)
    ensures StillWaiting(Next(cfg, s, e), c, at)
    ensures |Rivals(Next(cfg, s, e), c, at)| + (if e.ClaimSources? then cfg.batchSize else 0) <= |Rivals(s, c, at)|
  {
    WaitStep(cfg, s, e, c, at);
    var rivals, rivals' := Rivals(s, c, at), Rivals(Next(cfg, s, e), c, at);
    if e.ClaimSources? {
      SkippingClaim(cfg, s, e.batch, c, at);
      SubsetSize(rivals', rivals - e.batch);
      assert |rivals - e.batch| == |rivals| - cfg.batchSize;
    } else {
      SubsetSize(rivals', rivals);
    }
  }

  /** One step of the wait, as a relation between its two states. */
  ghost predicate WaitsOn(cfg: Config, s: State, e: Event, s': State, c: ChannelId, at: int) {
    StillWaiting(s, c, at) ==>
      && StillWaiting(s', c, at)
      && |Rivals(s', c, at)| + (if e.ClaimSources? then cfg.batchSize else 0) <= |Rivals(s, c, at)|
  }

  lemma {:induction false} WaitBudget(
      cfg: Config, ss: seq<State>, es: seq<Event>, i: nat, j: nat, c: ChannelId, at: int)
    requires |ss| == |es| + 1 && i <= j < |ss| && StillWaiting(ss[i], c, at)
    requires forall m | i <= m < j :: WaitsOn(cfg, ss[m], es[m], ss[m + 1], c, at)
    ensures StillWaiting(ss[j], c, at)
    ensures |Rivals(ss[j], c, at)| + cfg.batchSize * Claims(es, i, j) <= |Rivals(ss[i], c, at)|
    decreases j
  {
    if i < j {
      WaitBudget(cfg, ss, es, i, j - 1, c, at);
      assert WaitsOn(cfg, ss[j - 1], es[j - 1], ss[j - 1 + 1], c, at);
      if es[j - 1].ClaimSources? {
        assert cfg.batchSize * Claims(es, i, j) == cfg.batchSize * Claims(es, i, j - 1) + cfg.batchSize;
      }
    }
  }

  /**
   * Bounded waiting: from any moment at which a channel is due and no poll of it
   * is in flight, and while no channel is inserted and it stays tracked, it is in
   * one of the next k / limit + 1 claims. The k rivals are the other channels
   * scheduled no later and those whose poll under way began before it was due.
   */
  lemma ClaimedInTime(cfg: Config, ss: seq<State>, es: seq<Event>, i: nat, j: nat, c: ChannelId, at: int)
    requires ValidConfig(cfg) && IsRun(cfg, ss, es) && i <= j < |ss|
    requires StillWaiting(ss[i], c, at)
    requires forall m | i <= m < j :: Kept(ss[m], ss[m + 1], c)
    requires Claims(es, i, j) >= |Rivals(ss[i], c, at)| / cfg.batchSize + 1
    ensures exists m :: i <= m < j && es[m].ClaimSources? && c in es[m].batch
  {
    if forall m | i <= m < j :: !(es[m].ClaimSources? && c in es[m].batch) {
      forall m | i <= m < j ensures WaitsOn(cfg, ss[m], es[m], ss[m + 1], c, at) {
        if StillWaiting(ss[m], c, at) {
          assert Step(cfg, ss[m], es[m], ss[m + 1]);
          assert Kept(ss[m], ss[m + 1], c);
          WaitCost(cfg, ss[m], es[m], c, at);
        }
      }
      WaitBudget(cfg, ss, es, i, j, c, at);
      OverBudget(cfg.batchSize, |Rivals(ss[i], c, at)|, Claims(es, i, j));
      assert false;
    }
  }

  /** The other channels scheduled no later than `c`. */
  function NoLater(channels: map<ChannelId, Channel>, c: ChannelId): set<ChannelId>
    requires c in channels
  {
    set x | x in channels && x != c && channels[x].feed.nextPollAt <= channels[c].feed.nextPollAt
  }

  /** Between batches only the channels scheduled no later can come first. */
  lemma ClaimedFromWaiting(cfg: Config, ss: seq<State>, es: seq<Event>, i: nat, j: nat, c: ChannelId)
    requires ValidConfig(cfg) && IsRun(cfg, ss, es) && i <= j < |ss|
    requires ss[i].refresher.Waiting? && c in ss[i].db.channels && PollDue(ss[i].db.channels[c], ss[i].clock)
    requires forall m | i <= m < j :: Kept(ss[m], ss[m + 1], c)
    requires Claims(es, i, j) >= |NoLater(ss[i].db.channels, c)| / cfg.batchSize + 1
    ensures exists m :: i <= m < j && es[m].ClaimSources? && c in es[m].batch
  {
    var at := ss[i].db.channels[c].feed.nextPollAt;
    assert Rivals(ss[i], c, at) == NoLater(ss[i].db.channels, c);
    ClaimedInTime(cfg, ss, es, i, j, c, at);
  }

  lemma OverBudget(limit: nat, k: nat, claims: nat)
    requires limit >= 1 && claims >= k / limit + 1
    ensures limit * claims > k
  {
    var more := claims - (k / limit + 1);
    assert limit * claims == limit * (k / limit) + limit + limit * more;
    assert limit * more >= 0;
  }
}
