/**
 * How many sidecar calls an hour can hold. The hourly cap counts channels with a
 * recent fallback, so a channel that falls back again is a call it does not see.
 */
module FallbackCalls {
  import opened Prelude
  import opened ChannelArchive
  import opened SyncTables
  import opened SyncMachine
  import opened FreshnessSafety

  // ---------------------------------------------------------------------
  // Calls of a run
  // ---------------------------------------------------------------------

  /** The event calls the sidecar, for a poll that began no earlier than `since`. */
  predicate IsCall(s: State, e: Event, since: int) {
    e.Fallback? && IsPolling(s, e.channel) && FallbackTime(s, e.channel) >= since
  }

  /** The calls among the first `n` events that count from `since` on. */
  function CallsSince(ss: seq<State>, es: seq<Event>, n: nat, since: int): set<nat>
    requires |ss| == |es| + 1 && n <= |es|
  {
    set i: nat | i < n && IsCall(ss[i], es[i], since)
  }

  function CallsOf(ss: seq<State>, es: seq<Event>, n: nat, since: int, ch: ChannelId): set<nat>
    requires |ss| == |es| + 1 && n <= |es|
  {
    set i: nat | i < n && IsCall(ss[i], es[i], since) && es[i].channel == ch
  }

  /** The calls of the hour before state `n`. */
  function RecentCalls(ss: seq<State>, es: seq<Event>, n: nat): set<nat>
    requires |ss| == |es| + 1 && n <= |es|
  {
    CallsSince(ss, es, n, ss[n].clock - 3600)
  }

  /** No channel is deleted before state `n`. */
  ghost predicate NoDeletion(ss: seq<State>, n: nat) {
    forall m | 0 <= m < n && m + 1 < |ss| :: ss[m].db.channels.Keys <= ss[m + 1].db.channels.Keys
  }

  /** The least interval any channel can have: the dormant one applies only below a larger archived threshold. */
  function Least(cfg: Config): nat {
    var least := Min(cfg.activeInterval, cfg.archivedInterval);
    if cfg.dormantDays < cfg.archivedDays then Min(least, cfg.dormantInterval) else least
  }

  lemma IntervalAtLeast(archive: Archive, ch: ChannelId, cfg: Config, now: int)
    requires ValidConfig(cfg)
    ensures EffectiveInterval(archive, ch, cfg, now) >= Least(cfg) >= 60
  {}

  /** Polls are of tracked channels. */
  predicate TasksTracked(s: State) {
    && (s.refresher.Picked? ==> s.refresher.batch.Keys <= s.db.channels.Keys)
    && (s.refresher.Batch? ==> s.refresher.tasks.Keys <= s.db.channels.Keys)
  }

  lemma TrackedStep(cfg: Config, s: State, e: Event)
    requires Enabled(cfg, s, e) && TasksTracked(s) && s.db.channels.Keys <= Next(cfg, s, e).db.channels.Keys
    ensures TasksTracked(Next(cfg, s, e))
  {
    var s' := Next(cfg, s, e);
    if s'.refresher.Batch? {
      forall x | x in s'.refresher.tasks ensures x in s'.db.channels {
        TaskStep(cfg, s, e, x);
      }
    } else if s'.refresher.Picked? {
      PhaseStep(cfg, s, e);
    }
  }

  lemma {:induction false} RunsKeepTracked(cfg: Config, ss: seq<State>, es: seq<Event>, n: nat)
    requires IsRun(cfg, ss, es) && n < |ss| && NoDeletion(ss, n)
    ensures TasksTracked(ss[n])
    decreases n
  {
    if n > 0 {
      RunsKeepTracked(cfg, ss, es, n - 1);
      assert Step(cfg, ss[n - 1], es[n - 1], ss[n]);
      TrackedStep(cfg, ss[n - 1], es[n - 1]);
    }
  }

  // ---------------------------------------------------------------------
  // Calls of one channel
  // ---------------------------------------------------------------------

  /** What `k` spaced calls from `since` on leave in a channel's row. */
  ghost predicate Spaced(cfg: Config, s: State, ch: ChannelId, since: int, k: nat) {
    k > 0 ==>
      && ch in s.db.channels && s.db.channels[ch].lastFallbackAt.Some?
      && since + (k - 1) * Least(cfg) <= s.db.channels[ch].lastFallbackAt.value <= s.clock
  }

  lemma OneMoreInterval(k: nat, interval: int)
    requires k > 0
    ensures (k - 1) * interval + interval == k * interval
  {}

  /** A fallback comes an interval after the one before it. */
  lemma SpacedCall(cfg: Config, s: State, ch: ChannelId, since: int, k: nat)
    requires ValidConfig(cfg) && Enabled(cfg, s, Fallback(ch)) && SnapshotsOk(s) && ch in s.db.channels
    requires Spaced(cfg, s, ch, since, k)
    ensures var s' := Next(cfg, s, Fallback(ch));
      Spaced(cfg, s', ch, since, if IsCall(s, Fallback(ch), since) then k + 1 else k)
  {
    var s', now := Next(cfg, s, Fallback(ch)), FallbackTime(s, ch);
    assert s'.db.channels.Keys == s.db.channels.Keys;
    FallbackTimeStep(cfg, s, Fallback(ch), ch);
    IntervalAtLeast(s.db.archive, ch, cfg, now);
    if k > 0 {
      assert Current(s, ch, s.refresher.tasks[ch].due);
      OneMoreInterval(k, Least(cfg));
    }
  }

  lemma SpacedStep(cfg: Config, s: State, e: Event, ch: ChannelId, since: int, k: nat)
    requires ValidConfig(cfg) && Enabled(cfg, s, e) && SnapshotsOk(s) && TasksTracked(s)
    requires s.db.channels.Keys <= Next(cfg, s, e).db.channels.Keys && Spaced(cfg, s, ch, since, k)
    ensures Spaced(cfg, Next(cfg, s, e), ch, since, if e == Fallback(ch) && IsCall(s, e, since) then k + 1 else k)
  {
    if e == Fallback(ch) {
      SpacedCall(cfg, s, ch, since, k);
    } else if k > 0 {
      FallbackTimeStep(cfg, s, e, ch);
      ClockStep(cfg, s, e);
    }
  }

  lemma CallsOfStep(ss: seq<State>, es: seq<Event>, n: nat, since: int, ch: ChannelId)
    requires |ss| == |es| + 1 && n < |es|
    ensures |CallsOf(ss, es, n + 1, since, ch)|
         == |CallsOf(ss, es, n, since, ch)| + if es[n] == Fallback(ch) && IsCall(ss[n], es[n], since) then 1 else 0
  {
    var before := CallsOf(ss, es, n, since, ch);
    var call := es[n] == Fallback(ch) && IsCall(ss[n], es[n], since);
    assert CallsOf(ss, es, n + 1, since, ch) == if call then before + {n} else before;
  }

  lemma {:induction false} CallsAreSpaced(
      cfg: Config, ss: seq<State>, es: seq<Event>, n: nat, since: int, ch: ChannelId)
    requires ValidConfig(cfg) && IsRun(cfg, ss, es) && n < |ss| && NoDeletion(ss, n)
    ensures Spaced(cfg, ss[n], ch, since, |CallsOf(ss, es, n, since, ch)|)
    decreases n
  {
    if n == 0 {
      assert CallsOf(ss, es, 0, since, ch) == {};
    } else {
      CallsAreSpaced(cfg, ss, es, n - 1, since, ch);
      RunsKeepSnapshots(cfg, ss, es, n - 1);
      RunsKeepTracked(cfg, ss, es, n - 1);
      assert Step(cfg, ss[n - 1], es[n - 1], ss[n]);
      SpacedStep(cfg, ss[n - 1], es[n - 1], ch, since, |CallsOf(ss, es, n - 1, since, ch)|);
      CallsOfStep(ss, es, n - 1, since, ch);
    }
  }

  lemma FitsInHour(k: nat, interval: nat)
    requires k > 0 && interval > 0 && (k - 1) * interval <= 3600
    ensures k <= 3600 / interval + 1
  {
    if k - 1 > 3600 / interval {
      OverBudget(interval, 3600, k - 1);
    }
  }

  lemma SpacedInHour(cfg: Config, s: State, ch: ChannelId, k: nat)
    requires Least(cfg) > 0 && Spaced(cfg, s, ch, s.clock - 3600, k)
    ensures k <= 3600 / Least(cfg) + 1
    ensures k > 0 ==> ch in RecentFallbacks(s.db.channels, s.clock)
  {
    if k > 0 {
      TimesMonotone(0, k - 1, Least(cfg));
      FitsInHour(k, Least(cfg));
    }
  }

  /** A channel has at most one call an interval in the hour, and one counted channel for all of them. */
  lemma CallsOfOne(cfg: Config, ss: seq<State>, es: seq<Event>, n: nat, ch: ChannelId)
    requires ValidConfig(cfg) && IsRun(cfg, ss, es) && n < |ss| && NoDeletion(ss, n)
    ensures Least(cfg) > 0
    ensures |CallsOf(ss, es, n, ss[n].clock - 3600, ch)| <= 3600 / Least(cfg) + 1
    ensures CallsOf(ss, es, n, ss[n].clock - 3600, ch) != {} ==> ch in RecentFallbacks(ss[n].db.channels, ss[n].clock)
  {
    CallsAreSpaced(cfg, ss, es, n, ss[n].clock - 3600, ch);
    IntervalAtLeast(map[], ch, cfg, 0);
    SpacedInHour(cfg, ss[n], ch, |CallsOf(ss, es, n, ss[n].clock - 3600, ch)|);
  }

  // ---------------------------------------------------------------------
  // All calls
  // ---------------------------------------------------------------------

  function OfChannel(calls: set<nat>, es: seq<Event>, ch: ChannelId): set<nat>
    requires forall i | i in calls :: i < |es| && es[i].Fallback?
  {
    set i | i in calls && es[i].channel == ch
  }

  /** Calls of few channels, few of each, are few. */
  lemma {:induction false} FewOfEach(calls: set<nat>, es: seq<Event>, channels: set<ChannelId>, most: nat)
    requires forall i | i in calls :: i < |es| && es[i].Fallback? && es[i].channel in channels
    requires forall ch | ch in channels :: |OfChannel(calls, es, ch)| <= most
    ensures |calls| <= |channels| * most
    decreases channels
  {
    if channels == {} {
      assert calls == {};
    } else {
      var ch :| ch in channels;
      var mine, rest, others := OfChannel(calls, es, ch), calls - OfChannel(calls, es, ch), channels - {ch};
      forall x | x in others ensures |OfChannel(rest, es, x)| <= most {
        assert OfChannel(rest, es, x) == OfChannel(calls, es, x);
      }
      FewOfEach(rest, es, others, most);
      assert |calls| == |mine| + |rest|;
      assert |channels| == |others| + 1;
      OneMoreInterval(|channels|, most);
    }
  }

  lemma CallsByCount(cfg: Config, ss: seq<State>, es: seq<Event>, n: nat)
    requires ValidConfig(cfg) && IsRun(cfg, ss, es) && n < |ss| && NoDeletion(ss, n)
    ensures |RecentCalls(ss, es, n)| <= |RecentFallbacks(ss[n].db.channels, ss[n].clock)| * (3600 / Least(cfg) + 1)
  {
    var since, calls := ss[n].clock - 3600, RecentCalls(ss, es, n);
    var channels := RecentFallbacks(ss[n].db.channels, ss[n].clock);
    forall ch ensures OfChannel(calls, es, ch) == CallsOf(ss, es, n, since, ch) {}
    forall ch ensures |OfChannel(calls, es, ch)| <= 3600 / Least(cfg) + 1
      ensures OfChannel(calls, es, ch) != {} ==> ch in channels
    {
      CallsOfOne(cfg, ss, es, n, ch);
    }
    forall i | i in calls ensures es[i].channel in channels {
      assert i in OfChannel(calls, es, es[i].channel);
    }
    FewOfEach(calls, es, channels, 3600 / Least(cfg) + 1);
  }

  /** The most calls there can be when a batch is let through. */
  function AtBatchStart(cfg: Config): int
    requires Least(cfg) > 0
  {
    (cfg.fallbacksPerHour - 1) * (3600 / Least(cfg) + 1)
  }

  /** Within a batch that was let through, the calls grow only by polls that stopped waiting. */
  ghost predicate CallsOk(cfg: Config, s: State, calls: nat)
    requires Least(cfg) > 0
  {
    && calls <= AtBatchStart(cfg) + cfg.batchSize
    && (s.refresher.Picked? ==> |s.refresher.batch| <= cfg.batchSize)
    && (s.refresher.Batch? ==>
          && s.refresher.size <= cfg.batchSize
          && (s.refresher.used < cfg.fallbacksPerHour ==>
              calls + |WaitingPolls(s.refresher)| <= AtBatchStart(cfg) + s.refresher.size))
  }

  lemma CallsOkStep(cfg: Config, s: State, e: Event, calls: nat, calls': nat)
    requires ValidConfig(cfg) && cfg.fallbacksPerHour > 0 && cfg.fallbackEnabled && Least(cfg) > 0
    requires Enabled(cfg, s, e) && CallsOk(cfg, s, calls)
    requires calls' <= calls + if e.Fallback? then 1 else 0
    requires e.CountFallbacks? ==> calls' <= |RecentFallbacks(s.db.channels, s.clock)| * (3600 / Least(cfg) + 1)
    ensures CallsOk(cfg, Next(cfg, s, e), calls')
  {
    var s' := Next(cfg, s, e);
    PhaseStep(cfg, s, e);
    if s.refresher.Batch? && s'.refresher.Batch? {
      WaitingCount(cfg, s, e);
      WaitingShrinks(cfg, s, e);
    } else if s'.refresher.Batch? && s'.refresher.used < cfg.fallbacksPerHour {
      TimesMonotone(s'.refresher.used, cfg.fallbacksPerHour - 1, 3600 / Least(cfg) + 1);
    }
  }

  lemma TimesMonotone(a: int, b: int, c: nat)
    requires a <= b
    ensures a * c <= b * c
  {
    assert (b - a) * c >= 0;
    assert b * c == a * c + (b - a) * c;
  }

  /** One event adds at most its own call. */
  lemma CallsGrow(cfg: Config, ss: seq<State>, es: seq<Event>, n: nat)
    requires IsRun(cfg, ss, es) && 0 < n < |ss|
    ensures |RecentCalls(ss, es, n)| <= |RecentCalls(ss, es, n - 1)| + if es[n - 1].Fallback? then 1 else 0
  {
    assert Step(cfg, ss[n - 1], es[n - 1], ss[n]);
    ClockStep(cfg, ss[n - 1], es[n - 1]);
    var before, own := RecentCalls(ss, es, n - 1), if es[n - 1].Fallback? then {n - 1} else {};
    assert RecentCalls(ss, es, n) <= before + own;
    SubsetSize(RecentCalls(ss, es, n), before + own);
  }

  lemma {:induction false} CallsStayOk(cfg: Config, ss: seq<State>, es: seq<Event>, n: nat)
    requires ValidConfig(cfg) && cfg.fallbacksPerHour > 0 && cfg.fallbackEnabled && Least(cfg) > 0
    requires IsRun(cfg, ss, es) && n < |ss| && NoDeletion(ss, n)
    ensures CallsOk(cfg, ss[n], |RecentCalls(ss, es, n)|)
    decreases n
  {
    if n == 0 {
      assert RecentCalls(ss, es, 0) == {};
      TimesMonotone(0, cfg.fallbacksPerHour - 1, 3600 / Least(cfg) + 1);
    } else {
      var s, e := ss[n - 1], es[n - 1];
      CallsStayOk(cfg, ss, es, n - 1);
      CallsGrow(cfg, ss, es, n);
      CallsByCount(cfg, ss, es, n - 1);
      assert Step(cfg, s, e, ss[n]);
      CallsOkStep(cfg, s, e, |RecentCalls(ss, es, n - 1)|, |RecentCalls(ss, es, n)|);
    }
  }

  lemma NoneWhenOff(cfg: Config, ss: seq<State>, es: seq<Event>, n: nat)
    requires !cfg.fallbackEnabled && IsRun(cfg, ss, es) && n < |ss|
    ensures RecentCalls(ss, es, n) == {}
  {
    forall i: nat | i < n ensures !es[i].Fallback? {
      assert Step(cfg, ss[i], es[i], ss[i + 1]);
    }
  }

  /**
   * With an hourly cap set, and while no channel is deleted, the calls of any
   * hour number at most one batch more than the cap less one allows at one call
   * an interval.
   */
  lemma HourlyCallsBounded(cfg: Config, ss: seq<State>, es: seq<Event>, n: nat)
    requires ValidConfig(cfg) && cfg.fallbacksPerHour > 0 && IsRun(cfg, ss, es) && n < |ss| && NoDeletion(ss, n)
    ensures Least(cfg) >= 60
    ensures |RecentCalls(ss, es, n)| <= (cfg.fallbacksPerHour - 1) * (3600 / Least(cfg) + 1) + cfg.batchSize
  {
    IntervalAtLeast(map[], "", cfg, 0);
    if cfg.fallbackEnabled {
      CallsStayOk(cfg, ss, es, n);
    } else {
      NoneWhenOff(cfg, ss, es, n);
      TimesMonotone(0, cfg.fallbacksPerHour - 1, 3600 / Least(cfg) + 1);
    }
  }
}
