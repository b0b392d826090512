/**
 * What every run keeps about the backfill columns: leases, statuses, error
 * counts and the foreign keys.
 */
module BackfillSafety {
  import opened Prelude
  import opened Backoff
  import opened ChannelArchive
  import opened SyncTables
  import opened SyncMachine
  import Text

  /** A running channel is leased from its start; no other is leased; an unshelved one is under its error limit. */
  ghost predicate RowOk(c: BackfillCols, clock: int, limit: int) {
    && c.status in {Pending, Running, Shelved}
    && c.errors >= 0
    && (c.status == Running ==>
          c.lastStartedAt.Some? && c.lastStartedAt.value <= clock
          && c.leaseExpiresAt == Some(c.lastStartedAt.value + 35 * 60)
          && c.nextAt <= c.lastStartedAt.value)
    && (c.status != Running ==> c.leaseExpiresAt == None)
    && (c.status != Shelved ==> c.errors < limit)
  }

  ghost predicate RowsOk(channels: map<ChannelId, Channel>, clock: int, limit: int) {
    forall x | x in channels :: RowOk(channels[x].backfill, clock, limit)
  }

  /** The worker never holds a shelved channel, and its listing began in the past. */
  ghost predicate WorkerOk(s: State) {
    && (!s.worker.Resting? && s.worker.channel in s.db.channels ==>
        s.db.channels[s.worker.channel].backfill.status != Shelved)
    && (s.worker.Extracting? || s.worker.Stored? ==> s.worker.startedAt <= s.clock)
  }

  ghost predicate Safe(cfg: Config, s: State) {
    RowsOk(s.db.channels, s.clock, cfg.errorLimit) && WorkerOk(s) && KeysHold(s.db)
  }

  // ---------------------------------------------------------------------
  // Steps of the freshness loop
  // ---------------------------------------------------------------------

  /** The backfill columns of every channel are untouched. */
  ghost predicate SameBackfill(a: map<ChannelId, Channel>, b: map<ChannelId, Channel>) {
    a.Keys == b.Keys && forall x | x in a :: b[x].backfill == a[x].backfill
  }

  lemma StoreKeys(db: Db, ch: ChannelId, items: seq<Item>, now: int, source: Source)
    ensures var db' := StoreItems(db, ch, items, now, source);
            && SameBackfill(db.channels, db'.channels)
            && db'.allowlist == db.allowlist
            && (KeysHold(db) ==> KeysHold(db'))
  {
    SightAllKeys(db.archive, ch, OfItems(items), now, source);
  }

  lemma StoringKeeps(cfg: Config, s: State, e: Event)
    requires Enabled(cfg, s, e) && (e.PollUpdated? || e.FallbackItems?)
    ensures var s' := PollStep(cfg, s, e);
            && SameBackfill(s.db.channels, s'.db.channels)
            && s'.db.allowlist == s.db.allowlist && s'.worker == s.worker && s'.clock == s.clock
            && (KeysHold(s.db) ==> KeysHold(s'.db))
  {
    var now := s.refresher.tasks[e.channel].now;
    StoreKeys(s.db, e.channel, e.items, now, Rss);
    StoreKeys(s.db, e.channel, e.items, now, Sidecar);
  }

  lemma RecordedKeeps(c: Channel, task: Task, e: Event)
    requires OfPoll(e) && !task.Queued? && (e.RecordPoll? ==> task.Recording?)
    ensures Recorded(c, task, e).backfill == c.backfill
  {}

  lemma RecordInKeeps(db: Db, ch: ChannelId, task: Task, e: Event)
    requires OfPoll(e) && !task.Queued? && (e.RecordPoll? ==> task.Recording?)
    ensures var db' := RecordIn(db, ch, task, e);
            SameBackfill(db.channels, db'.channels) && db'.archive == db.archive && db'.allowlist == db.allowlist
  {
    if ch in db.channels { RecordedKeeps(db.channels[ch], task, e); }
  }

  lemma RecordingKeeps(cfg: Config, s: State, e: Event)
    requires Enabled(cfg, s, e) && OfPoll(e) && !e.PollUpdated? && !e.FallbackItems?
    ensures var s' := PollStep(cfg, s, e);
            && SameBackfill(s.db.channels, s'.db.channels)
            && s'.db.archive == s.db.archive
            && s'.db.allowlist == s.db.allowlist && s'.worker == s.worker && s'.clock == s.clock
  {
    if !e.StartPoll? && !e.PollUnchanged? {
      RecordInKeeps(s.db, e.channel, s.refresher.tasks[e.channel], e);
    }
  }

  /** The freshness loop never touches a backfill column, nor the allowlist. */
  lemma PollKeepsBackfill(cfg: Config, s: State, e: Event)
    requires Enabled(cfg, s, e) && OfPoll(e)
    ensures var s' := PollStep(cfg, s, e);
            && SameBackfill(s.db.channels, s'.db.channels)
            && s'.db.allowlist == s.db.allowlist && s'.worker == s.worker && s'.clock == s.clock
            && (KeysHold(s.db) ==> KeysHold(s'.db))
  {
    if e.PollUpdated? || e.FallbackItems? {
      StoringKeeps(cfg, s, e);
    } else {
      RecordingKeeps(cfg, s, e);
    }
  }

  // ---------------------------------------------------------------------
  // Steps of the backfill worker and of the routes
  // ---------------------------------------------------------------------

  lemma ListingKeysHold(db: Db, ch: ChannelId, startedAt: int, es: seq<Entry>)
    requires KeysHold(db)
    ensures KeysHold(StoreListing(db, ch, startedAt, es))
  {
    SightAllKeys(db.archive, ch, OfEntries(es), startedAt, Backfill);
  }

  lemma FailedRowOk(c: Channel, notFound: bool, msg: string, limit: int, now: int, delay: int)
    requires RowOk(c.backfill, now, limit)
    ensures RowOk(MarkFailed(c, notFound, msg, limit, now, delay).backfill, now, limit)
  {}

  /** The worker changes no row but its own channel's. */
  lemma WorkerRow(cfg: Config, s: State, e: Event, x: ChannelId)
    requires Enabled(cfg, s, e) && OfWorker(e)
    ensures var s' := WorkerStep(cfg, s, e);
            && s'.clock == s.clock && s'.db.channels.Keys == s.db.channels.Keys
            && (x in s.db.channels ==>
                  var (before, after) := (s.db.channels[x], s'.db.channels[x]);
                  if e == ClaimBackfill(x) then after == MarkClaimed(before, s.clock)
                  else if e.FinishListing? && s.worker.channel == x
                  then after == MarkFinished(before, s.clock, s.clock + e.delay, s.worker.observed, s.worker.added,
                                             s.worker.removed)
                  else if e.FailListing? && s.worker.channel == x
                  then after == MarkFailed(before, Text.IsNotFoundError(e.msg), e.msg, cfg.errorLimit, s.clock, e.delay)
                  else after == before)
  {}

  lemma WorkerKeepsSafe(cfg: Config, s: State, e: Event)
    requires ValidConfig(cfg) && Safe(cfg, s) && Enabled(cfg, s, e) && OfWorker(e)
    ensures Safe(cfg, WorkerStep(cfg, s, e))
  {
    var s' := WorkerStep(cfg, s, e);
    forall x | x in s'.db.channels ensures RowOk(s'.db.channels[x].backfill, s.clock, cfg.errorLimit) {
      WorkerRow(cfg, s, e, x);
      if e.FailListing? {
        FailedRowOk(s.db.channels[x], Text.IsNotFoundError(e.msg), e.msg, cfg.errorLimit, s.clock, e.delay);
      }
    }
    if e.CommitListing? {
      ListingKeysHold(s.db, s.worker.channel, s.worker.startedAt, e.entries);
    } else {
      assert s'.db.archive == s.db.archive && s'.db.allowlist == s.db.allowlist;
      WorkerRow(cfg, s, e, "");
    }
  }

  lemma RouteKeepsKeys(db: Db, e: Event)
    requires OfRoute(e) && KeysHold(db)
    ensures KeysHold(RouteStep(db, e))
  {
    match e
    case DisallowChannel(child, ch) =>
      var rest := db.allowlist - {(child, ch)};
      assert forall p | p in rest :: p.1 in Allowed(rest);
    case RunGc =>
      assert forall p | p in db.allowlist :: p.1 in Allowed(db.allowlist);
    case RunReconcile =>
      assert forall p | p in db.allowlist :: p.1 in Allowed(db.allowlist);
    case _ =>
  }

  /**
   * All a route can do to a row: insert it fresh, put a waiting one at the front
   * of the queue, or unshelve a shelved one.
   */
  lemma RouteRow(db: Db, e: Event, x: ChannelId)
    requires OfRoute(e) && x in RouteStep(db, e).channels
    ensures var after := RouteStep(db, e).channels[x].backfill;
            if x !in db.channels then after == NewChannel(None).backfill
            else
              var before := db.channels[x].backfill;
              if e == UnshelveRoute(x) && before.status == Shelved then after == MarkUnshelved(db.channels[x]).backfill
              else if (e == RunNowRoute(x) && before.status in {Pending, Failed, Complete})
                   || (e == Subscribe(x) && before.status == Pending && before.lastCompletedAt.None?)
              then after == before.(nextAt := 0)
              else after == before
  {
    if e.AllowChannel? {
      assert RouteStep(db, e).channels == Seed(db, e.channel, Some(e.name)).channels;
    }
  }

  lemma RouteKeepsRows(db: Db, e: Event, clock: int, limit: int)
    requires OfRoute(e) && RowsOk(db.channels, clock, limit) && limit >= 1
    ensures var db' := RouteStep(db, e);
            && RowsOk(db'.channels, clock, limit)
            && (forall x | x in db'.channels && db'.channels[x].backfill.status == Shelved ::
                  x in db.channels && db.channels[x].backfill.status == Shelved)
  {
    var db' := RouteStep(db, e);
    forall x | x in db'.channels
      ensures RowOk(db'.channels[x].backfill, clock, limit)
      ensures db'.channels[x].backfill.status == Shelved ==>
              x in db.channels && db.channels[x].backfill.status == Shelved
    {
      RouteRow(db, e, x);
    }
  }

  lemma StepKeepsSafe(cfg: Config, s: State, e: Event)
    requires ValidConfig(cfg) && Safe(cfg, s) && Enabled(cfg, s, e)
    ensures Safe(cfg, Next(cfg, s, e))
  {
    if OfWorker(e) {
      WorkerKeepsSafe(cfg, s, e);
    } else if OfPoll(e) {
      PollKeepsBackfill(cfg, s, e);
    } else if OfRoute(e) {
      RouteKeepsRows(s.db, e, s.clock, cfg.errorLimit);
      RouteKeepsKeys(s.db, e);
    }
  }

  /**
   * In every reachable state, crashes included, a running channel is leased for
   * 35 minutes from its start and was due at its start; no other channel is
   * leased; an unshelved channel has fewer errors than the limit; the worker's
   * channel is not shelved; and every archive row belongs to a known channel.
   */
  lemma {:induction false} RunsAreSafe(cfg: Config, ss: seq<State>, es: seq<Event>, n: nat)
    requires ValidConfig(cfg) && IsRun(cfg, ss, es) && n < |ss|
    ensures Safe(cfg, ss[n])
    decreases n
  {
    if n > 0 {
      RunsAreSafe(cfg, ss, es, n - 1);
      assert Step(cfg, ss[n - 1], es[n - 1], ss[n]);
      StepKeepsSafe(cfg, ss[n - 1], es[n - 1]);
    }
  }

  /** A running channel, stranded or not, is claimable as soon as its lease and the sidecar cooldown have passed. */
  lemma StrandedIsReclaimable(cfg: Config, ss: seq<State>, es: seq<Event>, n: nat, ch: ChannelId)
    requires ValidConfig(cfg) && IsRun(cfg, ss, es) && n < |ss|
    requires ch in ss[n].db.channels && ss[n].db.channels[ch].backfill.status == Running
    ensures var c := ss[n].db.channels[ch];
            && c.backfill.lastStartedAt.Some?
            && (Claimable(c, ss[n].clock) <==>
                  && c.backfill.lastStartedAt.value + 35 * 60 <= ss[n].clock
                  && (c.lastFallbackAt.None? || c.lastFallbackAt.value + 3600 <= ss[n].clock))
  {
    RunsAreSafe(cfg, ss, es, n);
  }

  /** `after` is what the step may leave in the backfill columns of row `x`, column by column. */
  ghost predicate RowEffect(cfg: Config, s: State, e: Event, x: ChannelId, after: BackfillCols) {
    if x !in s.db.channels then
      OfRoute(e) && after == BackfillCols(Pending, None, None, None, 0, None, None, 0, 0, 0, 0)
    else
      var (c, w) := (s.db.channels[x].backfill, s.worker);
      if e == ClaimBackfill(x) then
        after == c.(status := Running, lastStartedAt := Some(s.clock), lastAttemptedAt := Some(s.clock),
                    leaseExpiresAt := Some(s.clock + 35 * 60))
      else if e.FinishListing? && w.Stored? && w.channel == x then
        after == c.(status := Pending, lastCompletedAt := Some(s.clock), nextAt := s.clock + e.delay,
                    leaseExpiresAt := None, lastError := None, errors := 0, observedTotal := w.observed,
                    newLastRun := w.added, removedLastRun := w.removed)
      else if e.FailListing? && w.Extracting? && w.channel == x then
        if Text.ReportsGone(e.msg) then
          after == c.(status := Shelved, nextAt := s.clock + 365 * 86_400, leaseExpiresAt := None,
                      lastError := Some("channel_not_found"))
        else if c.errors + 1 >= cfg.errorLimit then
          after == c.(status := Shelved, leaseExpiresAt := None, lastError := Some(e.msg), errors := c.errors + 1)
        else
          after == c.(status := Pending, nextAt := s.clock + e.delay, leaseExpiresAt := None,
                      lastError := Some(e.msg), errors := c.errors + 1)
      else if e == UnshelveRoute(x) && c.status == Shelved then
        after == c.(status := Pending, nextAt := 0, leaseExpiresAt := None, lastError := None, errors := 0)
      else if (e == RunNowRoute(x) && c.status in {Pending, Failed, Complete})
           || (e == Subscribe(x) && c.status == Pending && c.lastCompletedAt.None?) then
        after == c.(nextAt := 0)
      else after == c
  }

  lemma WorkerEffect(cfg: Config, s: State, e: Event, x: ChannelId, after: BackfillCols)
    requires Enabled(cfg, s, e) && OfWorker(e) && x in WorkerStep(cfg, s, e).db.channels
    requires after == WorkerStep(cfg, s, e).db.channels[x].backfill
    ensures RowEffect(cfg, s, e, x, after)
  {
    WorkerRow(cfg, s, e, x);
    if e.FailListing? { Text.NotFoundExactly(e.msg); }
  }

  lemma RouteEffect(cfg: Config, s: State, e: Event, x: ChannelId, after: BackfillCols)
    requires OfRoute(e) && x in RouteStep(s.db, e).channels && after == RouteStep(s.db, e).channels[x].backfill
    ensures RowEffect(cfg, s, e, x, after)
  {
    RouteRow(s.db, e, x);
  }

  lemma NoEffect(cfg: Config, s: State, e: Event, x: ChannelId, after: BackfillCols)
    requires !OfWorker(e) && !OfRoute(e) && x in s.db.channels && after == s.db.channels[x].backfill
    ensures RowEffect(cfg, s, e, x, after)
  {}

  /** The freshness loop, the clock and a crash leave the backfill columns alone. */
  lemma OthersKeepBackfill(cfg: Config, s: State, e: Event, x: ChannelId)
    requires Enabled(cfg, s, e) && !OfWorker(e) && !OfRoute(e) && x in Next(cfg, s, e).db.channels
    ensures x in s.db.channels && Next(cfg, s, e).db.channels[x].backfill == s.db.channels[x].backfill
  {
    if OfPoll(e) {
      PollKeepsBackfill(cfg, s, e);
    }
  }

  /** What any step does to the backfill columns of one row it leaves in place. */
  lemma OneRow(cfg: Config, s: State, e: Event, x: ChannelId)
    requires Enabled(cfg, s, e) && x in Next(cfg, s, e).db.channels
    ensures RowEffect(cfg, s, e, x, Next(cfg, s, e).db.channels[x].backfill)
  {
    var after := Next(cfg, s, e).db.channels[x].backfill;
    if OfWorker(e) {
      WorkerEffect(cfg, s, e, x, after);
    } else if OfRoute(e) {
      RouteEffect(cfg, s, e, x, after);
    } else {
      OthersKeepBackfill(cfg, s, e, x);
      NoEffect(cfg, s, e, x, after);
    }
  }

  // ---------------------------------------------------------------------
  // A lease is exclusive
  // ---------------------------------------------------------------------

  /** The step gives `ch` back: its run is recorded, or its row goes away. */
  ghost predicate Releases(s: State, e: Event, s': State, ch: ChannelId) {
    || ((e.FinishListing? || e.FailListing?) && !s.worker.Resting? && s.worker.channel == ch)
    || ch !in s'.db.channels
  }

  ghost predicate HeldSince(s: State, ch: ChannelId, start: int) {
    && ch in s.db.channels
    && s.db.channels[ch].backfill.status == Running
    && s.db.channels[ch].backfill.lastStartedAt == Some(start)
  }

  /** A held channel stays held until it is released or claimed again. */
  lemma HoldKept(cfg: Config, s: State, e: Event, ch: ChannelId, start: int)
    requires Enabled(cfg, s, e) && HeldSince(s, ch, start)
    requires !Releases(s, e, Next(cfg, s, e), ch)
    requires e != ClaimBackfill(ch)
    ensures HeldSince(Next(cfg, s, e), ch, start)
  {
    OneRow(cfg, s, e, ch);
  }

  /** Event `m` neither releases `ch` nor claims it. */
  ghost predicate Passes(ss: seq<State>, es: seq<Event>, m: nat, ch: ChannelId)
    requires |ss| == |es| + 1 && m < |es|
  {
    !Releases(ss[m], es[m], ss[m + 1], ch) && es[m] != ClaimBackfill(ch)
  }

  lemma HoldInRun(cfg: Config, ss: seq<State>, es: seq<Event>, m: nat, ch: ChannelId, start: int)
    requires IsRun(cfg, ss, es) && m < |es| && HeldSince(ss[m], ch, start) && Passes(ss, es, m, ch)
    ensures HeldSince(ss[m + 1], ch, start)
  {
    assert Step(cfg, ss[m], es[m], ss[m + 1]);
    HoldKept(cfg, ss[m], es[m], ch, start);
  }

  lemma {:induction false} HoldKeptOver(
      cfg: Config, ss: seq<State>, es: seq<Event>, i: nat, j: nat, ch: ChannelId, start: int)
    requires IsRun(cfg, ss, es) && i <= j < |ss| && HeldSince(ss[i], ch, start)
    requires forall m: nat | i <= m < j :: Passes(ss, es, m, ch)
    ensures HeldSince(ss[j], ch, start)
    decreases j
  {
    if i < j {
      HoldKeptOver(cfg, ss, es, i, j - 1, ch, start);
      HoldInRun(cfg, ss, es, j - 1, ch, start);
    }
  }

  /**
   * A claimed channel is not handed out again before its lease has run out,
   * unless it was released or deleted in between, whatever crashes.
   */
  lemma {:induction false} LeaseIsExclusive(cfg: Config, ss: seq<State>, es: seq<Event>, i: nat, j: nat, ch: ChannelId)
    requires ValidConfig(cfg) && IsRun(cfg, ss, es) && i < j < |es|
    requires es[i] == ClaimBackfill(ch) && es[j] == ClaimBackfill(ch)
    requires forall m | i < m < j :: !Releases(ss[m], es[m], ss[m + 1], ch)
    ensures ss[j].clock >= ss[i].clock + 35 * 60
    decreases j - i
  {
    if m :| i < m < j && es[m] == ClaimBackfill(ch) {
      LeaseIsExclusive(cfg, ss, es, i, m, ch);
      ClockMonotone(cfg, ss, es, m, j);
    } else {
      assert Step(cfg, ss[i], es[i], ss[i + 1]);
      assert forall m: nat | i + 1 <= m < j :: Passes(ss, es, m, ch);
      HoldKeptOver(cfg, ss, es, i + 1, j, ch, ss[i].clock);
      RunsAreSafe(cfg, ss, es, j);
      assert Step(cfg, ss[j], es[j], ss[j + 1]);
    }
  }

  // ---------------------------------------------------------------------
  // Shelving
  // ---------------------------------------------------------------------

  /** A shelved channel is never claimed, and only an unshelve or a deletion ends the shelving. */
  lemma ShelvedStays(cfg: Config, ss: seq<State>, es: seq<Event>, n: nat, ch: ChannelId)
    requires ValidConfig(cfg) && IsRun(cfg, ss, es) && n < |es|
    requires ch in ss[n].db.channels && ss[n].db.channels[ch].backfill.status == Shelved
    ensures es[n] != ClaimBackfill(ch)
    ensures || es[n] == UnshelveRoute(ch)
            || ch !in ss[n + 1].db.channels
            || ss[n + 1].db.channels[ch].backfill == ss[n].db.channels[ch].backfill
  {
    RunsAreSafe(cfg, ss, es, n);
    assert Step(cfg, ss[n], es[n], ss[n + 1]);
    if ch in ss[n + 1].db.channels {
      OneRow(cfg, ss[n], es[n], ch);
    }
  }

  /** A failure of `ch` that counts against it: retryable, not a report that it is gone. */
  ghost predicate CountsAgainst(s: State, e: Event, ch: ChannelId) {
    e.FailListing? && s.worker.Extracting? && s.worker.channel == ch && !Text.ReportsGone(e.msg)
  }

  /** A success of `ch`, or an unshelve that takes effect. */
  ghost predicate ClearsErrors(s: State, e: Event, ch: ChannelId) {
    || (e.FinishListing? && s.worker.Stored? && s.worker.channel == ch)
    || (e == UnshelveRoute(ch) && ch in s.db.channels && s.db.channels[ch].backfill.status == Shelved)
  }

  /** The retryable failures of `ch` since its last success, effective unshelve or insertion. */
  ghost function FailureStreak(ss: seq<State>, es: seq<Event>, n: nat, ch: ChannelId): nat
    requires |ss| == |es| + 1 && n < |ss|
  {
    if n == 0 || ch !in ss[n].db.channels || ClearsErrors(ss[n - 1], es[n - 1], ch) then 0
    else FailureStreak(ss, es, n - 1, ch) + if CountsAgainst(ss[n - 1], es[n - 1], ch) then 1 else 0
  }

  lemma ErrorsInRun(cfg: Config, ss: seq<State>, es: seq<Event>, n: nat, ch: ChannelId)
    requires IsRun(cfg, ss, es) && 0 < n < |ss| && ch in ss[n].db.channels
    ensures ch !in ss[n - 1].db.channels ==> !CountsAgainst(ss[n - 1], es[n - 1], ch)
    ensures ss[n].db.channels[ch].backfill.errors
         == if ch !in ss[n - 1].db.channels || ClearsErrors(ss[n - 1], es[n - 1], ch) then 0
            else ss[n - 1].db.channels[ch].backfill.errors + if CountsAgainst(ss[n - 1], es[n - 1], ch) then 1 else 0
  {
    assert Step(cfg, ss[n - 1], es[n - 1], ss[n]);
    OneRow(cfg, ss[n - 1], es[n - 1], ch);
    ErrorsStep(cfg, ss[n - 1], es[n - 1], ch, ss[n].db.channels[ch].backfill);
  }

  /** The stored error counter is exactly the number of retryable failures in the current streak. */
  lemma {:induction false} CounterIsStreak(cfg: Config, ss: seq<State>, es: seq<Event>, n: nat, ch: ChannelId)
    requires IsRun(cfg, ss, es) && n < |ss| && ch in ss[n].db.channels
    ensures ss[n].db.channels[ch].backfill.errors == FailureStreak(ss, es, n, ch)
    decreases n
  {
    if n > 0 {
      ErrorsInRun(cfg, ss, es, n, ch);
      if ch in ss[n - 1].db.channels {
        CounterIsStreak(cfg, ss, es, n - 1, ch);
      }
    }
  }

  lemma ErrorsStep(cfg: Config, s: State, e: Event, ch: ChannelId, after: BackfillCols)
    requires RowEffect(cfg, s, e, ch, after)
    ensures ch !in s.db.channels ==> OfRoute(e)
    ensures after.errors == if ch !in s.db.channels || ClearsErrors(s, e, ch) then 0
                            else s.db.channels[ch].backfill.errors + if CountsAgainst(s, e, ch) then 1 else 0
  {}

  // ---------------------------------------------------------------------
  // What the outcomes and the admin routes bring about
  // ---------------------------------------------------------------------

  /** The sidecar cooldown of a channel has passed. */
  predicate IsCool(c: Channel, now: int) {
    c.lastFallbackAt.None? || c.lastFallbackAt.value + 3600 <= now
  }

  /** Claimable at once: at any time from 0 on, exactly when cool. */
  ghost predicate AtFront(c: Channel) {
    forall t | t >= 0 :: Claimable(c, t) <==> IsCool(c, t)
  }

  /** Run-now puts a channel that is waiting at the front, and does nothing to one that is running or shelved. */
  lemma RunNowTakesEffect(cfg: Config, ss: seq<State>, es: seq<Event>, n: nat, ch: ChannelId)
    requires ValidConfig(cfg) && IsRun(cfg, ss, es) && n < |es|
    requires es[n] == RunNowRoute(ch) && ch in ss[n].db.channels
    ensures var (before, after) := (ss[n].db.channels, ss[n + 1].db.channels);
            && ch in after && after == before[ch := after[ch]]
            && (if before[ch].backfill.status in {Running, Shelved} then after[ch] == before[ch]
                else AtFront(after[ch]))
  {
    RunsAreSafe(cfg, ss, es, n);
    assert Step(cfg, ss[n], es[n], ss[n + 1]);
    assert RowOk(ss[n].db.channels[ch].backfill, ss[n].clock, cfg.errorLimit);
  }

  /** Unshelving puts a shelved channel at the front with a clean slate, and does nothing to another. */
  lemma UnshelveTakesEffect(cfg: Config, ss: seq<State>, es: seq<Event>, n: nat, ch: ChannelId)
    requires ValidConfig(cfg) && IsRun(cfg, ss, es) && n < |es|
    requires es[n] == UnshelveRoute(ch) && ch in ss[n].db.channels
    ensures var (before, after) := (ss[n].db.channels, ss[n + 1].db.channels);
            && ch in after && after == before[ch := after[ch]]
            && (if before[ch].backfill.status == Shelved
                then AtFront(after[ch]) && FailureStreak(ss, es, n + 1, ch) == 0
                else after[ch] == before[ch])
  {
    assert Step(cfg, ss[n], es[n], ss[n + 1]);
  }

  /**
   * A failed run shelves its channel exactly when the channel is reported gone or
   * this is the last error allowed; otherwise the channel waits for its backoff.
   */
  lemma FailureOutcome(cfg: Config, ss: seq<State>, es: seq<Event>, n: nat)
    requires ValidConfig(cfg) && IsRun(cfg, ss, es) && n < |es|
    requires es[n].FailListing? && ss[n].worker.Extracting? && ss[n].worker.channel in ss[n].db.channels
    ensures var ch := ss[n].worker.channel;
            var (c, c') := (ss[n].db.channels[ch].backfill, ss[n + 1].db.channels[ch].backfill);
            var (t, gone, attempt) := (ss[n].clock, Text.ReportsGone(es[n].msg), FailureStreak(ss, es, n, ch) + 1);
            && ss[n + 1].worker.Resting?
            && (c'.status == Shelved <==> gone || attempt >= cfg.errorLimit)
            && (c'.status != Shelved ==> c'.status == Pending && c'.nextAt == t + es[n].delay > t)
            && c'.lastError == Some(if gone then "channel_not_found" else es[n].msg)
  {
    var ch := ss[n].worker.channel;
    RunsAreSafe(cfg, ss, es, n);
    assert Step(cfg, ss[n], es[n], ss[n + 1]);
    OneRow(cfg, ss[n], es[n], ch);
    CounterIsStreak(cfg, ss, es, n, ch);
    BackoffPositive(ss[n].db.channels[ch].backfill.errors + 1, cfg.minGap, es[n].delay);
  }

  /** No route puts `ch` at the front and it stays tracked. */
  ghost predicate LeftAlone(e: Event, s': State, ch: ChannelId) {
    && e !in {RunNowRoute(ch), Subscribe(ch), UnshelveRoute(ch)}
    && ch in s'.db.channels
  }

  /** `ch` is not running, and due at `at` unless it is shelved. */
  ghost predicate RestsUntil(s: State, ch: ChannelId, at: int) {
    && ch in s.db.channels
    && s.db.channels[ch].backfill.status in {Pending, Shelved}
    && (s.db.channels[ch].backfill.status == Pending ==> s.db.channels[ch].backfill.nextAt == at)
    && (!s.worker.Resting? ==> s.worker.channel != ch)
  }

  /** The worker turns to `ch` only by claiming it. */
  lemma WorkerTurns(cfg: Config, s: State, e: Event, ch: ChannelId)
    requires Enabled(cfg, s, e) && e != ClaimBackfill(ch) && (s.worker.Resting? || s.worker.channel != ch)
    ensures Next(cfg, s, e).worker.Resting? || Next(cfg, s, e).worker.channel != ch
  {
    if OfPoll(e) { PollKeepsBackfill(cfg, s, e); }
  }

  lemma RestKept(cfg: Config, s: State, e: Event, s': State, ch: ChannelId, at: int)
    requires RestsUntil(s, ch, at) && LeftAlone(e, s', ch) && e != ClaimBackfill(ch)
    requires RowEffect(cfg, s, e, ch, s'.db.channels[ch].backfill)
    requires s'.worker.Resting? || s'.worker.channel != ch
    ensures RestsUntil(s', ch, at)
  {}

  /** Event `m` leaves `ch` alone and does not claim it. */
  ghost predicate Spares(ss: seq<State>, es: seq<Event>, m: nat, ch: ChannelId)
    requires |ss| == |es| + 1 && m < |es|
  {
    LeftAlone(es[m], ss[m + 1], ch) && es[m] != ClaimBackfill(ch)
  }

  lemma RestInRun(cfg: Config, ss: seq<State>, es: seq<Event>, m: nat, ch: ChannelId, at: int)
    requires IsRun(cfg, ss, es) && m < |es| && RestsUntil(ss[m], ch, at) && Spares(ss, es, m, ch)
    ensures RestsUntil(ss[m + 1], ch, at)
  {
    assert Step(cfg, ss[m], es[m], ss[m + 1]);
    OneRow(cfg, ss[m], es[m], ch);
    WorkerTurns(cfg, ss[m], es[m], ch);
    RestKept(cfg, ss[m], es[m], ss[m + 1], ch, at);
  }

  lemma {:induction false} RestKeptOver(
      cfg: Config, ss: seq<State>, es: seq<Event>, i: nat, j: nat, ch: ChannelId, at: int)
    requires IsRun(cfg, ss, es) && i <= j < |ss| && RestsUntil(ss[i], ch, at)
    requires forall m: nat | i <= m < j :: Spares(ss, es, m, ch)
    ensures RestsUntil(ss[j], ch, at)
    decreases j
  {
    if i < j {
      RestKeptOver(cfg, ss, es, i, j - 1, ch, at);
      RestInRun(cfg, ss, es, j - 1, ch, at);
    }
  }

  /**
   * A channel whose run failed is not claimed again before its backoff is over,
   * unless a route puts it at the front or it is deleted in between.
   */
  lemma {:induction false} RetryWaits(cfg: Config, ss: seq<State>, es: seq<Event>, i: nat, j: nat, ch: ChannelId)
    requires ValidConfig(cfg) && IsRun(cfg, ss, es) && i < j < |es|
    requires es[i].FailListing? && ss[i].worker.Extracting? && ss[i].worker.channel == ch && ch in ss[i].db.channels
    requires es[j] == ClaimBackfill(ch)
    requires forall m | i < m < j :: LeftAlone(es[m], ss[m + 1], ch)
    ensures ss[j].clock >= ss[i].clock + es[i].delay
    decreases j
  {
    if m :| i < m < j && es[m] == ClaimBackfill(ch) {
      RetryWaits(cfg, ss, es, i, m, ch);
      ClockMonotone(cfg, ss, es, m, j);
    } else {
      FailureOutcome(cfg, ss, es, i);
      assert Step(cfg, ss[i], es[i], ss[i + 1]);
      assert forall m: nat | i + 1 <= m < j :: Spares(ss, es, m, ch);
      RestKeptOver(cfg, ss, es, i + 1, j, ch, ss[i].clock + es[i].delay);
      assert Step(cfg, ss[j], es[j], ss[j + 1]);
    }
  }
}
