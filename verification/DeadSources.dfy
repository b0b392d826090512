/**
 * When the freshness loop gives a source up: at the third failure of a streak
 * that ends in a not-found, whatever the others were, where three not-founds in
 * a row are documented.
 */
module DeadSources {
  import opened Prelude
  import opened Backoff
  import opened SyncTables
  import opened SyncMachine
  import opened FeedOutcomes
  import opened ArchiveWitnesses

  /** The counted not-founds of `ch` with no other counted failure, success or insertion after them. */
  ghost function NotFounds(ss: seq<State>, es: seq<Event>, n: nat, ch: ChannelId): nat
    requires |ss| == |es| + 1 && n < |ss|
  {
    if n == 0 || ch !in ss[n].db.channels || ch !in ss[n - 1].db.channels || ClearsPoll(ss[n - 1], es[n - 1], ch) then 0
    else if !CountsPoll(ss[n - 1], es[n - 1], ch) then NotFounds(ss, es, n - 1, ch)
    else if es[n - 1].FallbackNotFound? then NotFounds(ss, es, n - 1, ch) + 1
    else 0
  }

  lemma {:induction false} NotFoundsAreFailures(ss: seq<State>, es: seq<Event>, n: nat, ch: ChannelId)
    requires |ss| == |es| + 1 && n < |ss|
    ensures NotFounds(ss, es, n, ch) <= PollStreak(ss, es, n, ch)
    decreases n
  {
    if n > 0 { NotFoundsAreFailures(ss, es, n - 1, ch); }
  }

  /** The event gives the source up: it leaves the row as of a dead source. */
  ghost predicate GivesUp(ss: seq<State>, es: seq<Event>, n: nat, ch: ChannelId)
    requires |ss| == |es| + 1 && n < |es|
  {
    && HasTask(ss[n], ch) && !ss[n].refresher.tasks[ch].Queued?
    && ch in ss[n].db.channels && ch in ss[n + 1].db.channels
    && IsDead(ss[n].db.channels[ch].feed, ss[n + 1].db.channels[ch].feed, ss[n].refresher.tasks[ch].now)
  }

  lemma FailureIsNotDeath(f: FeedCols, f': FeedCols, now: int, msg: string, delay: int)
    requires f.errors >= 0 && IsFailure(f, f', now, msg, delay)
    ensures !IsDead(f, f', now)
  {}

  lemma GivesUpAtThird(cfg: Config, ss: seq<State>, es: seq<Event>, n: nat, ch: ChannelId, k: nat)
    requires IsRun(cfg, ss, es) && n < |es| && es[n].FallbackNotFound? && es[n].channel == ch
    requires ch in ss[n].db.channels && HasTask(ss[n], ch)
    requires k == PollStreak(ss, es, n, ch) && ss[n].refresher.tasks[ch].due.errors == k
    ensures GivesUp(ss, es, n, ch) <==> k >= 2
  {
    NotFoundOutcome(cfg, ss, es, n);
    FeedCounterIsStreak(cfg, ss, es, n, ch);
    if k < 2 {
      FailureIsNotDeath(ss[n].db.channels[ch].feed, ss[n + 1].db.channels[ch].feed, ss[n].refresher.tasks[ch].now,
                        es[n].msg, es[n].delay);
    }
  }

  /**
   * A source that was not inserted anew while its poll was in flight is given up
   * exactly at the third not-found in a row, if and only if it has fewer than two
   * failures behind it or the last two of them were not-founds.
   */
  lemma GivenUpAsDocumented(cfg: Config, ss: seq<State>, es: seq<Event>, n: nat, ch: ChannelId)
    requires IsRun(cfg, ss, es) && n < |es| && es[n].FallbackNotFound? && es[n].channel == ch
    requires ch in ss[n].db.channels && HasTask(ss[n], ch)
    requires ss[n].refresher.tasks[ch].due.errors == PollStreak(ss, es, n, ch)
    ensures (GivesUp(ss, es, n, ch) <==> NotFounds(ss, es, n, ch) + 1 >= 3)
       <==> PollStreak(ss, es, n, ch) < 2 || NotFounds(ss, es, n, ch) >= 2
  {
    GivesUpAtThird(cfg, ss, es, n, ch, PollStreak(ss, es, n, ch));
    NotFoundsAreFailures(ss, es, n, ch);
  }

  // ---------------------------------------------------------------------
  // A source given up at its first not-found
  // ---------------------------------------------------------------------

  /** Longer than any interval a channel can have, and than any backoff. */
  const LONG := 700_000

  /** The draw in the middle of the band. */
  function Middle(attempt: int, cfg: Config): nat {
    Capped(attempt, cfg.channelInterval)
  }

  lemma MiddleIsDrawn(attempt: int, cfg: Config)
    ensures IsBackoff(attempt, cfg.channelInterval, Middle(attempt, cfg)) && Middle(attempt, cfg) <= 86_400
  {
    assert Jitter(Middle(attempt, cfg), 0.0) == Middle(attempt, cfg);
  }

  predicate IsAnswer(e: Event) {
    (e.FallbackError? || e.FallbackNotFound?) && e.channel == CH
  }

  /** The row after the poll of `c` fell back, and after the sidecar's answer. */
  function Called(c: Channel, clock: int): Channel {
    MarkFallback(MarkLeased(c, clock + POLL_LEASE_SECS), clock)
  }

  function Answered(c: Channel, clock: int, answer: Event): Channel
    requires IsAnswer(answer)
  {
    Recorded(Called(c, clock), FallingBack(DueOf(c), clock), answer)
  }

  function Idle(c: Channel, clock: int): State {
    State(OnlyChannel(c), clock, Resting, Waiting)
  }

  /** The only channel is polled, falls back, and gets its answer. */
  function RoundStates(c: Channel, clock: int, answer: Event): seq<State>
    requires IsAnswer(answer)
  {
    PollStates(c, clock, Resting)
    + [State(OnlyChannel(Called(c, clock)), clock, Resting, OneTask(FallingBack(DueOf(c), clock))),
       State(OnlyChannel(Answered(c, clock, answer)), clock, Resting, Batch(0, 1, map[]))]
  }

  function RoundEvents(answer: Event): seq<Event> {
    PollEvents() + [Fallback(CH), answer]
  }

  /** Due, and its last fallback long ago if ever. */
  predicate IsReady(c: Channel, clock: int) {
    PollDue(c, clock) && (c.lastFallbackAt.None? || c.lastFallbackAt.value + LONG <= clock)
  }

  lemma CallOnly(cfg: Config, c: Channel, clock: int, answer: Event)
    requires ValidConfig(cfg) && cfg.fallbackEnabled && IsReady(c, clock) && IsAnswer(answer)
    ensures Step(cfg, RoundStates(c, clock, answer)[3], Fallback(CH), RoundStates(c, clock, answer)[4])
  {
    var s, s' := PollStates(c, clock, Resting)[3], RoundStates(c, clock, answer)[4];
    assert EffectiveInterval(s.db.archive, CH, cfg, clock) == cfg.archivedInterval;
    assert s.db.channels[CH := Called(c, clock)] == s'.db.channels;
    assert s.refresher.tasks[CH := FallingBack(DueOf(c), clock)] == s'.refresher.tasks;
  }

  lemma AnswerOnly(cfg: Config, c: Channel, clock: int, answer: Event)
    requires IsAnswer(answer) && IsBackoff(c.feed.errors + 1, cfg.channelInterval, answer.delay)
    ensures Step(cfg, RoundStates(c, clock, answer)[4], answer, RoundStates(c, clock, answer)[5])
  {
    var s, s' := RoundStates(c, clock, answer)[4], RoundStates(c, clock, answer)[5];
    assert s.db.channels[CH := Answered(c, clock, answer)] == s'.db.channels;
    assert s.refresher.tasks - {CH} == s'.refresher.tasks;
  }

  lemma RoundRuns(cfg: Config, c: Channel, clock: int, answer: Event)
    requires ValidConfig(cfg) && cfg.fallbackEnabled && IsReady(c, clock)
    requires IsAnswer(answer) && IsBackoff(c.feed.errors + 1, cfg.channelInterval, answer.delay)
    ensures Steps(cfg, RoundStates(c, clock, answer), RoundEvents(answer))
  {
    var ss := RoundStates(c, clock, answer);
    var tail := [ss[3], ss[4], ss[5]];
    PollBegins(cfg, c, clock, Resting);
    TailRuns(cfg, c, clock, answer);
    JoinSteps(cfg, PollStates(c, clock, Resting), PollEvents(), tail, [Fallback(CH), answer]);
    assert tail[1..] == [ss[4], ss[5]];
  }

  lemma TailRuns(cfg: Config, c: Channel, clock: int, answer: Event)
    requires ValidConfig(cfg) && cfg.fallbackEnabled && IsReady(c, clock)
    requires IsAnswer(answer) && IsBackoff(c.feed.errors + 1, cfg.channelInterval, answer.delay)
    ensures var ss := RoundStates(c, clock, answer);
            Steps(cfg, [ss[3], ss[4], ss[5]], [Fallback(CH), answer])
  {
    CallOnly(cfg, c, clock, answer);
    AnswerOnly(cfg, c, clock, answer);
  }

  /** After an answer the batch ends and the clock moves on. */
  lemma RestRuns(cfg: Config, c: Channel, clock: int, to: int)
    requires clock <= to
    ensures Steps(cfg, [State(OnlyChannel(c), clock, Resting, Batch(0, 1, map[])), Idle(c, clock), Idle(c, to)],
                  [DrainBatch, Tick(to)])
  {}

  /** One failed round and a long pause. */
  lemma FailedRound(cfg: Config, c: Channel, clock: int, answer: Event) returns (ss: seq<State>, es: seq<Event>)
    requires ValidConfig(cfg) && cfg.fallbackEnabled && IsReady(c, clock) && answer.FallbackError?
    requires IsAnswer(answer) && answer.delay == Middle(c.feed.errors + 1, cfg)
    ensures Steps(cfg, ss, es) && ss[0] == Idle(c, clock)
    ensures ss[|es|] == Idle(Answered(c, clock, answer), clock + LONG)
    ensures IsReady(Answered(c, clock, answer), clock + LONG)
    ensures forall e | e in es :: !e.FallbackNotFound?
  {
    var c' := Answered(c, clock, answer);
    MiddleIsDrawn(c.feed.errors + 1, cfg);
    RoundRuns(cfg, c, clock, answer);
    RestRuns(cfg, c', clock, clock + LONG);
    var rest := [State(OnlyChannel(c'), clock, Resting, Batch(0, 1, map[])), Idle(c', clock), Idle(c', clock + LONG)];
    JoinSteps(cfg, RoundStates(c, clock, answer), RoundEvents(answer), rest, [DrainBatch, Tick(clock + LONG)]);
    ss := RoundStates(c, clock, answer) + rest[1..];
    es := RoundEvents(answer) + [DrainBatch, Tick(clock + LONG)];
  }

  function Answer(c: Channel, cfg: Config, notFound: bool): Event {
    var delay := Middle(c.feed.errors + 1, cfg);
    if notFound then FallbackNotFound(CH, "", delay) else FallbackError(CH, "", delay)
  }

  /** Two polls that end in errors of the sidecar. */
  lemma TwoFailures(cfg: Config) returns (ss: seq<State>, es: seq<Event>, c: Channel)
    requires ValidConfig(cfg) && cfg.fallbackEnabled
    ensures Steps(cfg, ss, es) && ss[0] == INIT && ss[|es|] == Idle(c, 2 * LONG)
    ensures IsReady(c, 2 * LONG) && c.feed.errors == 2
    ensures forall e | e in es :: !e.FallbackNotFound?
  {
    AllowFirst(cfg);
    var e1 := Answer(ADDED, cfg, false);
    var ss1, es1 := FailedRound(cfg, ADDED, 0, e1);
    var c2 := Answered(ADDED, 0, e1);
    var e2 := Answer(c2, cfg, false);
    var ss2, es2 := FailedRound(cfg, c2, LONG, e2);
    c := Answered(c2, LONG, e2);
    JoinSteps(cfg, [INIT, Idle(ADDED, 0)], [AllowChannel(0, CH, "n")], ss1, es1);
    var upTo1, done1 := [INIT, Idle(ADDED, 0)] + ss1[1..], [AllowChannel(0, CH, "n")] + es1;
    JoinSteps(cfg, upTo1, done1, ss2, es2);
    ss, es := upTo1 + ss2[1..], done1 + es2;
  }

  lemma LastRound(cfg: Config, c: Channel, clock: int, answer: Event)
    requires answer.FallbackNotFound? && IsAnswer(answer) && c.feed.errors == 2
    ensures var (s, s') := (RoundStates(c, clock, answer)[4], RoundStates(c, clock, answer)[5]);
            && HasTask(s, CH) && !s.refresher.tasks[CH].Queued? && CH in s.db.channels && CH in s'.db.channels
            && IsDead(s.db.channels[CH].feed, s'.db.channels[CH].feed, s.refresher.tasks[CH].now)
  {}

  /**
   * A run in which a source is given up at its first not-found: two polls before
   * it ended in errors of the sidecar.
   */
  lemma GivenUpAtFirst(cfg: Config) returns (ss: seq<State>, es: seq<Event>)
    requires ValidConfig(cfg) && cfg.fallbackEnabled
    ensures IsRun(cfg, ss, es) && es != [] && es[|es| - 1].FallbackNotFound? && es[|es| - 1].channel == CH
    ensures forall i | 0 <= i < |es| - 1 :: !es[i].FallbackNotFound?
    ensures GivesUp(ss, es, |es| - 1, CH)
  {
    var upTo, done, c := TwoFailures(cfg);
    var answer := Answer(c, cfg, true);
    MiddleIsDrawn(c.feed.errors + 1, cfg);
    RoundRuns(cfg, c, 2 * LONG, answer);
    LastRound(cfg, c, 2 * LONG, answer);
    var last := RoundStates(c, 2 * LONG, answer);
    JoinSteps(cfg, upTo, done, last, RoundEvents(answer));
    ss, es := upTo + last[1..], done + RoundEvents(answer);
  }
}
