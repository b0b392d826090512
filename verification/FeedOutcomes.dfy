/** What the freshness loop leaves in a channel's row, how it counts errors, and when it polls again. */
module FeedOutcomes {
  import opened Prelude
  import opened Backoff
  import opened SyncTables
  import opened SyncMachine
  import opened FreshnessSafety

  // ---------------------------------------------------------------------
  // One poll's effect, column by column
  // ---------------------------------------------------------------------

  predicate HasTitle(it: Item) {
    it.channelTitle.Some? && it.channelTitle.value != ""
  }

  ghost predicate IsFirstTitle(items: seq<Item>, i: int) {
    0 <= i < |items| && HasTitle(items[i]) && forall j | 0 <= j < i :: !HasTitle(items[j])
  }

  /** The title after a batch: the first non-empty one among its items, or what there was. */
  ghost predicate IsFeedTitle(items: seq<Item>, was: Option<string>, title: Option<string>) {
    && (forall i | IsFirstTitle(items, i) :: title == items[i].channelTitle)
    && ((forall i | 0 <= i < |items| :: !HasTitle(items[i])) ==> title == was)
  }

  lemma {:induction false} FeedTitleIsFirst(items: seq<Item>, was: Option<string>)
    ensures IsFeedTitle(items, was, FeedTitle(items).OrElse(was))
    decreases |items|
  {
    if items != [] {
      FeedTitleIsFirst(items[1..], was);
      if !HasTitle(items[0]) {
        forall i | IsFirstTitle(items, i) ensures IsFirstTitle(items[1..], i - 1) {
          assert items[1..][i - 1] == items[i];
          assert forall j | 0 <= j < i - 1 :: items[1..][j] == items[j + 1];
        }
        assert forall j | 0 <= j < |items| - 1 :: items[1..][j] == items[j + 1];
      }
    }
  }

  /** The failed poll counts one more error and is due again after its delay. */
  predicate IsFailure(f: FeedCols, f': FeedCols, now: int, msg: string, delay: int) {
    && f'.etag == f.etag && f'.lastModified == f.lastModified && f'.lastSuccessAt == f.lastSuccessAt
    && f'.lastPolledAt == Some(now) && f'.lastError == Some(msg)
    && f'.errors == f.errors + 1 && f'.nextPollAt == now + delay
  }

  /** The successful poll clears the error and is due again after its delay. */
  predicate IsSuccess(f': FeedCols, now: int, etag: Option<string>, lastModified: Option<string>, delay: int) {
    && f'.etag == etag && f'.lastModified == lastModified
    && f'.lastPolledAt == Some(now) && f'.lastSuccessAt == Some(now) && f'.lastError == None
    && f'.errors == 0 && f'.nextPollAt == now + delay
  }

  /** The dead source is put off for a year with a clean count. */
  predicate IsDead(f: FeedCols, f': FeedCols, now: int) {
    && f'.etag == f.etag && f'.lastModified == f.lastModified && f'.lastSuccessAt == f.lastSuccessAt
    && f'.lastPolledAt == Some(now) && f'.lastError == Some("sidecar reports source not found")
    && f'.errors == 0 && f'.nextPollAt == now + 365 * 86_400
  }

  /** A source is given up at the third not-found in a row of failures, as counted when it was claimed. */
  predicate IsLastStraw(task: Task) {
    task.due.errors >= 2
  }

  /** `c'` is what the poll event leaves of its channel's row `c`. */
  ghost predicate PollEffect(task: Task, e: Event, c: Channel, c': Channel)
    requires OfPoll(e) && (e.StartPoll? || !task.Queued?) && (e.RecordPoll? ==> task.Recording?)
  {
    && c'.backfill == c.backfill
    && (c'.lastFallbackAt == if e.Fallback? then Some(task.now) else c.lastFallbackAt)
    && match e
       case PollUpdated(_, items, _, _, _) => c'.feed == c.feed && IsFeedTitle(items, c.title, c'.title)
       case FallbackItems(_, items) => c'.feed == c.feed && IsFeedTitle(items, c.title, c'.title)
       case PollFailed(_, msg, delay) => c'.title == c.title && IsFailure(c.feed, c'.feed, task.now, msg, delay)
       case FallbackError(_, msg, delay) => c'.title == c.title && IsFailure(c.feed, c'.feed, task.now, msg, delay)
       case FallbackNotFound(_, msg, delay) =>
         && c'.title == c.title
         && if IsLastStraw(task) then IsDead(c.feed, c'.feed, task.now)
            else IsFailure(c.feed, c'.feed, task.now, msg, delay)
       case RecordPoll(_, delay) =>
         && c'.title == (if task.title.Some? && task.title.value != "" then task.title else c.title)
         && IsSuccess(c'.feed, task.now, task.etag, task.lastModified, delay)
       case _ => c'.title == c.title && c'.feed == c.feed
  }

  lemma RecordedIs(c: Channel, task: Task, e: Event)
    requires OfPoll(e) && !task.Queued? && (e.RecordPoll? ==> task.Recording?)
    requires !e.PollUpdated? && !e.FallbackItems?
    ensures PollEffect(task, e, c, Recorded(c, task, e))
  {}

  /** A poll's event changes its own channel's row as its kind says, and no other row. */
  lemma PollOutcome(cfg: Config, s: State, e: Event, x: ChannelId)
    requires Enabled(cfg, s, e) && OfPoll(e) && x in s.db.channels
    ensures x in Next(cfg, s, e).db.channels
    ensures var c' := Next(cfg, s, e).db.channels[x];
            if x == e.channel then PollEffect(s.refresher.tasks[x], e, s.db.channels[x], c') else c' == s.db.channels[x]
  {
    var ch, task := e.channel, s.refresher.tasks[e.channel];
    if e.PollUpdated? || e.FallbackItems? {
      FeedTitleIsFirst(e.items, s.db.channels[x].title);
    } else if !e.StartPoll? && !e.PollUnchanged? {
      RecordInRow(s.db, ch, task, e, x);
      RecordedIs(s.db.channels[x], task, e);
    }
  }

  /** What a claim hands to a poll. */
  predicate IsSnapshot(due: Due, c: Channel) {
    && due.lastFallbackAt == c.lastFallbackAt && due.errors == c.feed.errors
    && due.etag == c.feed.etag && due.lastModified == c.feed.lastModified
  }

  /** A claim leases each row of its batch for two minutes, hands out its columns and touches nothing else. */
  lemma ClaimOutcome(cfg: Config, s: State, batch: set<ChannelId>)
    requires Enabled(cfg, s, ClaimSources(batch))
    ensures var s' := Next(cfg, s, ClaimSources(batch));
            && s'.db.channels.Keys == s.db.channels.Keys
            && s'.refresher.Picked? && s'.refresher.batch.Keys == batch
            && (forall x | x in batch :: IsSnapshot(s'.refresher.batch[x], s.db.channels[x]))
            && forall x | x in s.db.channels ::
                 var (f, f') := (s.db.channels[x].feed, s'.db.channels[x].feed);
                 && s'.db.channels[x] == s.db.channels[x].(feed := f')
                 && (if x in batch then f' == f.(nextPollAt := s.clock + 120) else f' == f)
  {}

  /**
   * The count a batch works with, where a cap is on, is that of the channels whose
   * latest fallback is at most an hour old, read once before any of its polls.
   */
  lemma CountOutcome(cfg: Config, s: State)
    requires Enabled(cfg, s, CountFallbacks)
    ensures var (s', batch) := (Next(cfg, s, CountFallbacks), s.refresher.batch);
            && s'.db == s.db && s'.refresher.Batch? && s'.refresher.size == |batch|
            && s'.refresher.tasks.Keys == batch.Keys
            && (forall x | x in batch :: s'.refresher.tasks[x] == Queued(batch[x]))
            && s'.refresher.used == if cfg.fallbackEnabled && cfg.fallbacksPerHour != 0
                 then |set x | x in s.db.channels && s.db.channels[x].lastFallbackAt.Some?
                               && s.clock - s.db.channels[x].lastFallbackAt.value <= 3600|
                 else 0
  {
    assert RecentFallbacks(s.db.channels, s.clock)
        == set x | x in s.db.channels && s.db.channels[x].lastFallbackAt.Some?
                   && s.clock - s.db.channels[x].lastFallbackAt.value <= 3600;
  }

  // ---------------------------------------------------------------------
  // What a recorded poll writes
  // ---------------------------------------------------------------------

  /** `task` is what the event makes of `was`: the answer's validators, the claimed ones, or none. */
  predicate Answers(e: Event, was: Task, task: Task) {
    && !was.Queued? && task.Recording? && task.due == was.due && task.now == was.now
    && match e
       case PollUnchanged(_) =>
         task.title == None && task.etag == was.due.etag && task.lastModified == was.due.lastModified
       case PollUpdated(_, _, title, etag, lastModified) =>
         task.title == title && task.etag == etag && task.lastModified == lastModified
       case FallbackItems(_, _) => task.title == None && task.etag == None && task.lastModified == None
       case _ => false
  }

  lemma RecordingOfPoll(cfg: Config, s: State, e: Event, x: ChannelId)
    requires Enabled(cfg, s, e) && OfPoll(e) && HasTask(PollStep(cfg, s, e), x)
    requires PollStep(cfg, s, e).refresher.tasks[x].Recording?
    ensures var task := PollStep(cfg, s, e).refresher.tasks[x];
            && HasTask(s, x)
            && (task == s.refresher.tasks[x] || (e.channel == x && Answers(e, s.refresher.tasks[x], task)))
  {}

  lemma RecordingStep(cfg: Config, s: State, e: Event, x: ChannelId)
    requires Enabled(cfg, s, e) && HasTask(Next(cfg, s, e), x) && Next(cfg, s, e).refresher.tasks[x].Recording?
    ensures var task := Next(cfg, s, e).refresher.tasks[x];
            && HasTask(s, x)
            && (task == s.refresher.tasks[x] || (OfPoll(e) && e.channel == x && Answers(e, s.refresher.tasks[x], task)))
  {
    if OfPoll(e) { RecordingOfPoll(cfg, s, e, x); }
  }

  /** The event that answered a poll about to be recorded. */
  lemma {:induction false} AnsweredBefore(cfg: Config, ss: seq<State>, es: seq<Event>, n: nat, ch: ChannelId)
    returns (i: nat)
    requires IsRun(cfg, ss, es) && n < |ss| && HasTask(ss[n], ch) && ss[n].refresher.tasks[ch].Recording?
    ensures i < n && HasTask(ss[i], ch) && OfPoll(es[i]) && es[i].channel == ch
    ensures Answers(es[i], ss[i].refresher.tasks[ch], ss[n].refresher.tasks[ch])
    decreases n
  {
    assert Step(cfg, ss[n - 1], es[n - 1], ss[n]);
    RecordingStep(cfg, ss[n - 1], es[n - 1], ch);
    if HasTask(ss[n - 1], ch) && ss[n].refresher.tasks[ch] == ss[n - 1].refresher.tasks[ch] {
      i := AnsweredBefore(cfg, ss, es, n - 1, ch);
    } else {
      i := n - 1;
    }
  }

  /**
   * The row a recorded poll leaves carries the validators of the feed that
   * answered it, the claimed ones after "not modified", and none after a fallback.
   */
  lemma RecordOutcome(cfg: Config, ss: seq<State>, es: seq<Event>, n: nat) returns (i: nat)
    requires IsRun(cfg, ss, es) && n < |es| && es[n].RecordPoll? && es[n].channel in ss[n].db.channels
    ensures i < n && es[n].channel in ss[n + 1].db.channels && HasTask(ss[i], es[n].channel)
    ensures var (ch, e) := (es[n].channel, es[i]);
            var (was, c, c') := (ss[i].refresher.tasks[ch], ss[n].db.channels[ch], ss[n + 1].db.channels[ch]);
            && !was.Queued?
            && match e
               case PollUnchanged(x) =>
                 && x == ch && c'.title == c.title
                 && IsSuccess(c'.feed, was.now, was.due.etag, was.due.lastModified, es[n].delay)
               case PollUpdated(x, _, title, etag, lastModified) =>
                 && x == ch && c'.title == (if title.Some? && title.value != "" then title else c.title)
                 && IsSuccess(c'.feed, was.now, etag, lastModified, es[n].delay)
               case FallbackItems(x, _) =>
                 x == ch && c'.title == c.title && IsSuccess(c'.feed, was.now, None, None, es[n].delay)
               case _ => false
  {
    assert Step(cfg, ss[n], es[n], ss[n + 1]);
    i := AnsweredBefore(cfg, ss, es, n, es[n].channel);
    PollOutcome(cfg, ss[n], es[n], es[n].channel);
  }

  /** A poll whose channel is gone by the time it stores something ends unrecorded. */
  lemma LostChannelEndsPoll(cfg: Config, s: State, e: Event)
    requires Enabled(cfg, s, e) && (e.PollUpdated? || e.FallbackItems?)
    requires e.items != [] && e.channel !in s.db.channels
    ensures !HasTask(Next(cfg, s, e), e.channel) && Next(cfg, s, e).db == s.db
  {}

  // ---------------------------------------------------------------------
  // The error count
  // ---------------------------------------------------------------------

  /** A failure of the channel's poll that counts. */
  ghost predicate CountsPoll(s: State, e: Event, ch: ChannelId) {
    || ((e.PollFailed? || e.FallbackError?) && e.channel == ch)
    || (e.FallbackNotFound? && e.channel == ch && HasTask(s, ch) && !IsLastStraw(s.refresher.tasks[ch]))
  }

  /** A recorded success of the channel's poll, or giving it up. */
  ghost predicate ClearsPoll(s: State, e: Event, ch: ChannelId) {
    || (e.RecordPoll? && e.channel == ch)
    || (e.FallbackNotFound? && e.channel == ch && HasTask(s, ch) && IsLastStraw(s.refresher.tasks[ch]))
  }

  /** The counted failures of `ch` since its last recorded success, its giving up or its insertion. */
  ghost function PollStreak(ss: seq<State>, es: seq<Event>, n: nat, ch: ChannelId): nat
    requires |ss| == |es| + 1 && n < |ss|
  {
    if n == 0 || ch !in ss[n].db.channels || ch !in ss[n - 1].db.channels || ClearsPoll(ss[n - 1], es[n - 1], ch) then 0
    else PollStreak(ss, es, n - 1, ch) + if CountsPoll(ss[n - 1], es[n - 1], ch) then 1 else 0
  }

  lemma FreshFeed(db: Db, e: Event, x: ChannelId)
    requires OfRoute(e) && x in RouteStep(db, e).channels && x !in db.channels
    ensures RouteStep(db, e).channels[x].feed == FeedCols(None, None, None, None, None, 0, 0)
  {
    if e.AllowChannel? {
      assert RouteStep(db, e).channels == Seed(db, e.channel, Some(e.name)).channels;
    }
  }

  /** The error count after a step, by the streak's own rule. */
  ghost predicate CountsOn(s: State, e: Event, x: ChannelId, errors: int) {
    errors == if x !in s.db.channels || ClearsPoll(s, e, x) then 0
              else s.db.channels[x].feed.errors + if CountsPoll(s, e, x) then 1 else 0
  }

  lemma ErrorsOfPoll(cfg: Config, s: State, e: Event, x: ChannelId, c': Channel)
    requires Enabled(cfg, s, e) && OfPoll(e) && x in s.db.channels
    requires if x == e.channel then PollEffect(s.refresher.tasks[x], e, s.db.channels[x], c')
             else c' == s.db.channels[x]
    ensures CountsOn(s, e, x, c'.feed.errors)
  {}

  lemma ErrorsOfOthers(s: State, e: Event, x: ChannelId, errors: int)
    requires !OfPoll(e)
    requires errors == if x in s.db.channels then s.db.channels[x].feed.errors else 0
    ensures CountsOn(s, e, x, errors)
  {}

  /** Routes insert a row with no errors, and other than polls nothing touches the count. */
  lemma OthersKeepErrors(cfg: Config, s: State, e: Event, x: ChannelId)
    requires Enabled(cfg, s, e) && !OfPoll(e) && x in Next(cfg, s, e).db.channels
    ensures Next(cfg, s, e).db.channels[x].feed.errors == if x in s.db.channels then s.db.channels[x].feed.errors else 0
  {
    if OfWorker(e) || OfRoute(e) {
      OthersKeepFeed(cfg, s, e, x);
      if OfRoute(e) && x !in s.db.channels { FreshFeed(s.db, e, x); }
    }
  }

  lemma ErrorsStep(cfg: Config, s: State, e: Event, x: ChannelId)
    requires Enabled(cfg, s, e) && x in Next(cfg, s, e).db.channels
    ensures CountsOn(s, e, x, Next(cfg, s, e).db.channels[x].feed.errors)
  {
    if OfPoll(e) {
      PollRow(cfg, s, e, x);
      PollOutcome(cfg, s, e, x);
      ErrorsOfPoll(cfg, s, e, x, Next(cfg, s, e).db.channels[x]);
    } else {
      OthersKeepErrors(cfg, s, e, x);
      ErrorsOfOthers(s, e, x, Next(cfg, s, e).db.channels[x].feed.errors);
    }
  }

  lemma ErrorsInRun(cfg: Config, ss: seq<State>, es: seq<Event>, n: nat, ch: ChannelId)
    requires IsRun(cfg, ss, es) && 0 < n < |ss| && ch in ss[n].db.channels
    ensures CountsOn(ss[n - 1], es[n - 1], ch, ss[n].db.channels[ch].feed.errors)
  {
    assert Step(cfg, ss[n - 1], es[n - 1], ss[n]);
    ErrorsStep(cfg, ss[n - 1], es[n - 1], ch);
  }

  /** The stored error count is exactly the number of failures in the current streak. */
  lemma {:induction false} FeedCounterIsStreak(cfg: Config, ss: seq<State>, es: seq<Event>, n: nat, ch: ChannelId)
    requires IsRun(cfg, ss, es) && n < |ss| && ch in ss[n].db.channels
    ensures ss[n].db.channels[ch].feed.errors == PollStreak(ss, es, n, ch)
    decreases n
  {
    if n > 0 {
      ErrorsInRun(cfg, ss, es, n, ch);
      if ch in ss[n - 1].db.channels {
        FeedCounterIsStreak(cfg, ss, es, n - 1, ch);
      }
    }
  }

  // ---------------------------------------------------------------------
  // When a source is given up
  // ---------------------------------------------------------------------

  /** A claimed count is the row's, unless the row was deleted and inserted again, when the row's is zero. */
  ghost predicate CountCurrent(s: State, x: ChannelId, due: Due) {
    x in s.db.channels ==> s.db.channels[x].feed.errors == due.errors || s.db.channels[x].feed.errors == 0
  }

  ghost predicate CountsOk(s: State) {
    && (s.refresher.Picked? ==> forall x | x in s.refresher.batch :: CountCurrent(s, x, s.refresher.batch[x]))
    && (s.refresher.Batch? ==> forall x | x in s.refresher.tasks :: CountCurrent(s, x, s.refresher.tasks[x].due))
  }

  lemma DueOfPoll(cfg: Config, s: State, e: Event, x: ChannelId)
    requires Enabled(cfg, s, e) && OfPoll(e) && HasTask(PollStep(cfg, s, e), x)
    ensures HasTask(s, x) && PollStep(cfg, s, e).refresher.tasks[x].due == s.refresher.tasks[x].due
    ensures !CountsPoll(s, e, x) && !ClearsPoll(s, e, x)
  {}

  /** A step keeps what a task was handed. */
  lemma DueStep(cfg: Config, s: State, e: Event, x: ChannelId)
    requires Enabled(cfg, s, e) && HasTask(Next(cfg, s, e), x)
    ensures var due := Next(cfg, s, e).refresher.tasks[x].due;
            || (e.CountFallbacks? && x in s.refresher.batch && due == s.refresher.batch[x])
            || (HasTask(s, x) && due == s.refresher.tasks[x].due && !CountsPoll(s, e, x) && !ClearsPoll(s, e, x))
  {
    if OfPoll(e) { DueOfPoll(cfg, s, e, x); }
  }

  lemma StepKeepsCount(cfg: Config, s: State, e: Event, x: ChannelId)
    requires CountsOk(s) && Enabled(cfg, s, e) && HasTask(Next(cfg, s, e), x)
    ensures CountCurrent(Next(cfg, s, e), x, Next(cfg, s, e).refresher.tasks[x].due)
  {
    DueStep(cfg, s, e, x);
    if x in Next(cfg, s, e).db.channels {
      ErrorsStep(cfg, s, e, x);
    }
  }

  lemma StepKeepsPicked(cfg: Config, s: State, e: Event, x: ChannelId)
    requires CountsOk(s) && Enabled(cfg, s, e) && Next(cfg, s, e).refresher.Picked?
    requires x in Next(cfg, s, e).refresher.batch
    ensures CountCurrent(Next(cfg, s, e), x, Next(cfg, s, e).refresher.batch[x])
  {
    if x in Next(cfg, s, e).db.channels {
      ErrorsStep(cfg, s, e, x);
    }
  }

  lemma StepKeepsCounts(cfg: Config, s: State, e: Event, s': State)
    requires CountsOk(s) && Step(cfg, s, e, s')
    ensures CountsOk(s')
  {
    if s'.refresher.Batch? {
      forall x | x in s'.refresher.tasks ensures CountCurrent(s', x, s'.refresher.tasks[x].due) {
        StepKeepsCount(cfg, s, e, x);
      }
    } else if s'.refresher.Picked? {
      forall x | x in s'.refresher.batch ensures CountCurrent(s', x, s'.refresher.batch[x]) {
        StepKeepsPicked(cfg, s, e, x);
      }
    }
  }

  lemma {:induction false} RunsKeepCounts(cfg: Config, ss: seq<State>, es: seq<Event>, n: nat)
    requires IsRun(cfg, ss, es) && n < |ss|
    ensures CountsOk(ss[n])
    decreases n
  {
    if n > 0 {
      RunsKeepCounts(cfg, ss, es, n - 1);
      assert Step(cfg, ss[n - 1], es[n - 1], ss[n]);
      StepKeepsCounts(cfg, ss[n - 1], es[n - 1], ss[n]);
    }
  }

  /**
   * A clean not-found gives the source up for a year exactly when it is the third
   * failure of the streak or later. Only a channel deleted and inserted again
   * while its poll is in flight is judged by the count it was claimed with.
   */
  lemma NotFoundOutcome(cfg: Config, ss: seq<State>, es: seq<Event>, n: nat)
    requires IsRun(cfg, ss, es) && n < |es| && es[n].FallbackNotFound? && es[n].channel in ss[n].db.channels
    ensures var (ch, k) := (es[n].channel, PollStreak(ss, es, n, es[n].channel));
            && HasTask(ss[n], ch) && ch in ss[n + 1].db.channels
            && var task := ss[n].refresher.tasks[ch];
               var (f, f') := (ss[n].db.channels[ch].feed, ss[n + 1].db.channels[ch].feed);
               && !task.Queued? && (task.due.errors == k || k == 0)
               && (if task.due.errors >= 2 then IsDead(f, f', task.now)
                   else IsFailure(f, f', task.now, es[n].msg, es[n].delay))
  {
    var ch := es[n].channel;
    FeedCounterIsStreak(cfg, ss, es, n, ch);
    RunsKeepCounts(cfg, ss, es, n);
    assert Step(cfg, ss[n], es[n], ss[n + 1]);
    PollOutcome(cfg, ss[n], es[n], ch);
  }

  // ---------------------------------------------------------------------
  // When a channel is polled again
  // ---------------------------------------------------------------------

  /** No poll of `ch` is under way and it is due at `at`. */
  ghost predicate Scheduled(s: State, ch: ChannelId, at: int) {
    && ch in s.db.channels && s.db.channels[ch].feed.nextPollAt == at
    && (s.refresher.Picked? ==> ch !in s.refresher.batch)
    && !HasTask(s, ch)
  }

  lemma NoTaskStep(cfg: Config, s: State, e: Event, ch: ChannelId)
    requires Enabled(cfg, s, e) && !HasTask(s, ch) && (s.refresher.Picked? ==> ch !in s.refresher.batch)
    requires !(e.ClaimSources? && ch in e.batch)
    ensures !HasTask(Next(cfg, s, e), ch)
    ensures Next(cfg, s, e).refresher.Picked? ==> ch !in Next(cfg, s, e).refresher.batch
  {
    if HasTask(Next(cfg, s, e), ch) {
      TaskStep(cfg, s, e, ch);
    }
  }

  lemma ScheduleStep(cfg: Config, s: State, e: Event, s': State, ch: ChannelId, at: int)
    requires ValidConfig(cfg) && Step(cfg, s, e, s') && Scheduled(s, ch, at)
    requires ch in s'.db.channels && !(e.ClaimSources? && ch in e.batch)
    ensures Scheduled(s', ch, at)
  {
    NoTaskStep(cfg, s, e, ch);
    PollTimeStep(cfg, s, e, ch);
  }

  lemma {:induction false} ScheduleKept(
      cfg: Config, ss: seq<State>, es: seq<Event>, i: nat, j: nat, ch: ChannelId, at: int)
    requires ValidConfig(cfg) && IsRun(cfg, ss, es) && i <= j < |ss| && Scheduled(ss[i], ch, at)
    requires forall m | i <= m <= j :: ch in ss[m].db.channels
    requires forall m | i <= m < j :: !(es[m].ClaimSources? && ch in es[m].batch)
    ensures Scheduled(ss[j], ch, at)
    decreases j
  {
    if i < j {
      ScheduleKept(cfg, ss, es, i, j - 1, ch, at);
      ScheduleStep(cfg, ss[j - 1], es[j - 1], ss[j], ch, at);
    }
  }

  /** The events that end a poll, with the delay they draw. */
  predicate EndsPoll(e: Event, ch: ChannelId) {
    (e.PollFailed? || e.FallbackError? || e.RecordPoll?) && e.channel == ch
  }

  lemma EndSchedules(cfg: Config, s: State, e: Event, s': State, ch: ChannelId)
    requires Step(cfg, s, e, s') && EndsPoll(e, ch) && ch in s.db.channels
    ensures HasTask(s, ch) && !s.refresher.tasks[ch].Queued?
    ensures Scheduled(s', ch, s.refresher.tasks[ch].now + e.delay)
  {
    PollOutcome(cfg, s, e, ch);
  }

  lemma {:induction false} PollRests(cfg: Config, ss: seq<State>, es: seq<Event>, i: nat, j: nat, ch: ChannelId)
    requires ValidConfig(cfg) && IsRun(cfg, ss, es) && i < j < |es| && EndsPoll(es[i], ch)
    requires es[j].ClaimSources? && ch in es[j].batch
    requires forall m | i <= m <= j :: ch in ss[m].db.channels
    ensures HasTask(ss[i], ch) && !ss[i].refresher.tasks[ch].Queued?
    ensures ss[j].clock >= ss[i].refresher.tasks[ch].now + es[i].delay
    decreases j
  {
    assert Step(cfg, ss[i], es[i], ss[i + 1]);
    EndSchedules(cfg, ss[i], es[i], ss[i + 1], ch);
    if m :| i < m < j && es[m].ClaimSources? && ch in es[m].batch {
      PollRests(cfg, ss, es, i, m, ch);
      ClockMonotone(cfg, ss, es, m, j);
    } else {
      ScheduleKept(cfg, ss, es, i + 1, j, ch, ss[i].refresher.tasks[ch].now + es[i].delay);
      assert Step(cfg, ss[j], es[j], ss[j + 1]);
    }
  }

  /**
   * A channel that stays tracked is not claimed again before its poll interval is
   * over, counted from the start of its last poll and less at most 15%; after a
   * failure, before min(24 h, interval * 2^k), k the failures it was claimed with
   * and this one.
   */
  lemma PollsAreSpaced(
      cfg: Config, ns: seq<nat>, ss: seq<State>, es: seq<Event>, i: nat, j: nat, ch: ChannelId)
    requires AreNominal(ns, cfg.channelInterval)
    requires ValidConfig(cfg) && IsRun(cfg, ss, es) && i < j < |es| && EndsPoll(es[i], ch)
    requires es[j].ClaimSources? && ch in es[j].batch
    requires forall m | i <= m <= j :: ch in ss[m].db.channels
    ensures HasTask(ss[i], ch) && !ss[i].refresher.tasks[ch].Queued?
    ensures var (task, k) := (ss[i].refresher.tasks[ch], ss[i].refresher.tasks[ch].due.errors + 1);
            if es[i].RecordPoll?
            then (ss[j].clock - task.now) as real >= 0.85 * cfg.channelInterval as real - 0.5
            else ss[j].clock - task.now >= (17 * NominalOf(ns, k) + 10) / 20
  {
    PollRests(cfg, ss, es, i, j, ch);
    assert Step(cfg, ss[i], es[i], ss[i + 1]);
    if es[i].RecordPoll? {
      var interval := cfg.channelInterval;
      JitterBand(interval, 0.15, es[i].delay);
      WaitedAtLeast(ss[j].clock - ss[i].refresher.tasks[ch].now, es[i].delay, 0.85 * interval as real - 0.5);
    } else {
      BackoffBand(ns, ss[i].refresher.tasks[ch].due.errors + 1, cfg.channelInterval, es[i].delay);
    }
  }
}
