/** What a backfill run leaves in its channel's row, and when the next one may begin. */
module BackfillOutcomes {
  import opened Prelude
  import opened Backoff
  import opened ChannelArchive
  import opened SyncTables
  import opened SyncMachine
  import opened BackfillSafety

  /** Only a commit makes a stored run, and only the worker ends it. */
  lemma StoredStep(cfg: Config, s: State, e: Event)
    requires Enabled(cfg, s, e) && Next(cfg, s, e).worker.Stored? && !e.CommitListing?
    ensures Next(cfg, s, e).worker == s.worker
  {
    if OfPoll(e) { PollKeepsBackfill(cfg, s, e); }
  }

  /** The commit a stored run comes from. */
  ghost predicate IsCommitOf(ss: seq<State>, es: seq<Event>, i: nat, w: Worker)
    requires |ss| == |es| + 1
  {
    && i < |es| && es[i].CommitListing? && ss[i].worker.Extracting? && w.Stored?
    && ss[i].worker.channel == w.channel && ss[i].worker.startedAt == w.startedAt
    && CanStore(ss[i].db, w.channel, |es[i].entries|)
    && ss[i + 1].worker == w
  }

  lemma {:induction false} StoredFromCommit(cfg: Config, ss: seq<State>, es: seq<Event>, n: nat) returns (i: nat)
    requires IsRun(cfg, ss, es) && n < |ss| && ss[n].worker.Stored?
    ensures i < n && IsCommitOf(ss, es, i, ss[n].worker)
    decreases n
  {
    assert Step(cfg, ss[n - 1], es[n - 1], ss[n]);
    if es[n - 1].CommitListing? {
      i := n - 1;
    } else {
      StoredStep(cfg, ss[n - 1], es[n - 1]);
      i := StoredFromCommit(cfg, ss, es, n - 1);
    }
  }

  /** The entries whose id the archive did not know. */
  function Unknown(t: Archive, ch: ChannelId, es: seq<Entry>): set<nat> {
    set p: nat | p < |es| && Key(ch, es[p].video) !in t
  }

  lemma {:induction false} NewIdsCount(t: Archive, ch: ChannelId, es: seq<Entry>)
    ensures |NewIds(t, ch, OfEntries(es))| == |Unknown(t, ch, es)|
    decreases |es|
  {
    if es != [] {
      var n := |es| - 1;
      NewIdsCount(t, ch, es[..n]);
      assert OfEntries(es)[..n] == OfEntries(es[..n]) && OfEntries(es)[n].video == es[n].video;
      var more := if Key(ch, es[n].video) in t then {} else {n};
      assert Unknown(t, ch, es) == Unknown(t, ch, es[..n]) + more;
    }
  }

  lemma CommitCounts(cfg: Config, ss: seq<State>, es: seq<Event>, i: nat, w: Worker)
    requires IsRun(cfg, ss, es) && IsCommitOf(ss, es, i, w)
    ensures w.observed == |es[i].entries|
    ensures w.added == |Unknown(ss[i].db.archive, w.channel, es[i].entries)|
    ensures w.removed == |Removed(ss[i].db.archive, ss[i + 1].db.archive)|
  {
    assert Step(cfg, ss[i], es[i], ss[i + 1]);
    NewIdsCount(ss[i].db.archive, w.channel, es[i].entries);
  }

  /**
   * What a successful run leaves in its row: pending, unleased, completed now, due
   * again after the drawn delay, no error, and the counts of the listing it
   * committed. Its start and its title, feed and fallback columns stay.
   */
  lemma SuccessOutcome(cfg: Config, ss: seq<State>, es: seq<Event>, n: nat) returns (i: nat)
    requires IsRun(cfg, ss, es) && n < |es|
    requires es[n].FinishListing? && ss[n].worker.Stored? && ss[n].worker.channel in ss[n].db.channels
    ensures i < n && IsCommitOf(ss, es, i, ss[n].worker)
    ensures var ch := ss[n].worker.channel;
            var (c, c', now) := (ss[n].db.channels[ch], ss[n + 1].db.channels[ch], ss[n].clock);
            && ss[n + 1].worker.Resting?
            && c'.title == c.title && c'.feed == c.feed && c'.lastFallbackAt == c.lastFallbackAt
            && c'.backfill.lastStartedAt == c.backfill.lastStartedAt
            && c'.backfill.lastAttemptedAt == c.backfill.lastAttemptedAt
            && c'.backfill.status == Pending && c'.backfill.leaseExpiresAt == None
            && c'.backfill.lastCompletedAt == Some(now) && c'.backfill.nextAt == now + es[n].delay
            && c'.backfill.lastError == None && c'.backfill.errors == 0
            && c'.backfill.observedTotal == |es[i].entries|
            && c'.backfill.newLastRun == |Unknown(ss[i].db.archive, ch, es[i].entries)|
            && c'.backfill.removedLastRun == |Removed(ss[i].db.archive, ss[i + 1].db.archive)|
  {
    i := StoredFromCommit(cfg, ss, es, n);
    CommitCounts(cfg, ss, es, i, ss[n].worker);
    assert Step(cfg, ss[n], es[n], ss[n + 1]);
    WorkerRow(cfg, ss[n], es[n], ss[n].worker.channel);
    OneRow(cfg, ss[n], es[n], ss[n].worker.channel);
  }

  /** A listing whose channel is gone by the time it commits something ends its run and stores nothing. */
  lemma LostChannelEndsRun(cfg: Config, s: State, e: Event)
    requires Enabled(cfg, s, e) && e.CommitListing? && e.entries != [] && s.worker.channel !in s.db.channels
    ensures Next(cfg, s, e) == s.(worker := Resting)
  {}

  lemma {:induction false} SuccessRests(cfg: Config, ss: seq<State>, es: seq<Event>, i: nat, j: nat, ch: ChannelId)
    requires IsRun(cfg, ss, es) && i < j < |es|
    requires es[i].FinishListing? && ss[i].worker.Stored? && ss[i].worker.channel == ch && ch in ss[i].db.channels
    requires es[j] == ClaimBackfill(ch)
    requires forall m | i < m < j :: LeftAlone(es[m], ss[m + 1], ch)
    ensures ss[j].clock >= ss[i].clock + es[i].delay
    decreases j
  {
    if m :| i < m < j && es[m] == ClaimBackfill(ch) {
      SuccessRests(cfg, ss, es, i, m, ch);
      ClockMonotone(cfg, ss, es, m, j);
    } else {
      assert Step(cfg, ss[i], es[i], ss[i + 1]);
      OneRow(cfg, ss[i], es[i], ch);
      assert forall m: nat | i + 1 <= m < j :: Spares(ss, es, m, ch);
      RestKeptOver(cfg, ss, es, i + 1, j, ch, ss[i].clock + es[i].delay);
      assert Step(cfg, ss[j], es[j], ss[j + 1]);
    }
  }

  /**
   * A channel whose run succeeded is not claimed again before the re-backfill
   * interval is over, less at most 5%, unless a route puts it at the front or it
   * is deleted in between.
   */
  lemma SuccessWaits(cfg: Config, ss: seq<State>, es: seq<Event>, i: nat, j: nat, ch: ChannelId)
    requires IsRun(cfg, ss, es) && i < j < |es|
    requires es[i].FinishListing? && ss[i].worker.Stored? && ss[i].worker.channel == ch && ch in ss[i].db.channels
    requires es[j] == ClaimBackfill(ch)
    requires forall m | i < m < j :: LeftAlone(es[m], ss[m + 1], ch)
    ensures ss[j].clock >= ss[i].clock + es[i].delay
    ensures (ss[j].clock - ss[i].clock) as real >= 0.95 * cfg.reBackfill as real - 0.5
  {
    SuccessRests(cfg, ss, es, i, j, ch);
    assert Step(cfg, ss[i], es[i], ss[i + 1]);
    JitterBand(cfg.reBackfill, 0.05, es[i].delay);
    WaitedAtLeast(ss[j].clock - ss[i].clock, es[i].delay, 0.95 * cfg.reBackfill as real - 0.5);
  }

  /**
   * A channel whose run failed for the k-th time in a row is not claimed again
   * before min(24 h, gap * 2^k), less at most 15%, on the same terms.
   */
  lemma RetryWaitsOut(
      cfg: Config, ns: seq<nat>, ss: seq<State>, es: seq<Event>, i: nat, j: nat, ch: ChannelId)
    requires AreNominal(ns, cfg.minGap)
    requires ValidConfig(cfg) && IsRun(cfg, ss, es) && i < j < |es|
    requires es[i].FailListing? && ss[i].worker.Extracting? && ss[i].worker.channel == ch && ch in ss[i].db.channels
    requires es[j] == ClaimBackfill(ch)
    requires forall m | i < m < j :: LeftAlone(es[m], ss[m + 1], ch)
    ensures ss[j].clock - ss[i].clock >= (17 * NominalOf(ns, FailureStreak(ss, es, i, ch) + 1) + 10) / 20
  {
    RetryWaits(cfg, ss, es, i, j, ch);
    CounterIsStreak(cfg, ss, es, i, ch);
    assert Step(cfg, ss[i], es[i], ss[i + 1]);
    BackoffBand(ns, FailureStreak(ss, es, i, ch) + 1, cfg.minGap, es[i].delay);
  }
}
