/**
 * The documented slack of the hourly cap, read as a bound on calls: when it
 * holds, and a run that breaks it in every other case.
 */
module FallbackOvershoot {
  import opened Prelude
  import opened ChannelArchive
  import opened SyncTables
  import opened SyncMachine
  import opened FreshnessSafety
  import opened FallbackCalls

  /** Calls of any hour stay within the cap plus one batch less one, in every run that deletes no channel. */
  ghost predicate KeepsSlack(cfg: Config) {
    forall ss, es, n: nat | IsRun(cfg, ss, es) && n < |ss| && NoDeletion(ss, n) ::
      |RecentCalls(ss, es, n)| <= cfg.fallbacksPerHour + cfg.batchSize - 1
  }

  lemma SlackIsKept(cfg: Config)
    requires ValidConfig(cfg) && cfg.fallbacksPerHour > 0
    requires !cfg.fallbackEnabled || cfg.fallbacksPerHour == 1 || Least(cfg) > 3600
    ensures KeepsSlack(cfg)
  {
    forall ss, es, n: nat | IsRun(cfg, ss, es) && n < |ss| && NoDeletion(ss, n)
      ensures |RecentCalls(ss, es, n)| <= cfg.fallbacksPerHour + cfg.batchSize - 1
    {
      if cfg.fallbackEnabled {
        HourlyCallsBounded(cfg, ss, es, n);
      } else {
        NoneWhenOff(cfg, ss, es, n);
      }
    }
  }

  // ---------------------------------------------------------------------
  // Building a run
  // ---------------------------------------------------------------------

  datatype Trace = Trace(ss: seq<State>, es: seq<Event>) {

    ghost predicate Valid(cfg: Config) {
      IsRun(cfg, ss, es) && NoDeletion(ss, |es|)
    }

    function Last(): State
      requires ss != []
    {
      ss[|ss| - 1]
    }

    /** The calls of the trace from `since` on. */
    function Calls(since: int): nat
      requires |ss| == |es| + 1
    {
      |CallsSince(ss, es, |es|, since)|
    }
  }

  lemma NoCallsYet(cfg: Config, since: int)
    ensures var t := Trace([INIT], []); t.Valid(cfg) && t.Calls(since) == 0
  {
    assert CallsSince([INIT], [], 0, since) == {};
  }

  /** Two states with an event between them, whatever the event does. */
  ghost predicate Follows(cfg: Config, s: State, e: Event, s': State) {
    Step(cfg, s, e, s') && s.db.channels.Keys <= s'.db.channels.Keys
  }

  lemma RunGrows(cfg: Config, ss: seq<State>, es: seq<Event>, e: Event, s': State)
    requires IsRun(cfg, ss, es) && NoDeletion(ss, |es|) && Follows(cfg, ss[|es|], e, s')
    ensures IsRun(cfg, ss + [s'], es + [e]) && NoDeletion(ss + [s'], |es| + 1)
  {
    var ss', es' := ss + [s'], es + [e];
    forall i | 0 <= i < |es'| ensures Follows(cfg, ss'[i], es'[i], ss'[i + 1]) {
      if i < |es| {
        assert Step(cfg, ss[i], es[i], ss[i + 1]);
        assert ss[i].db.channels.Keys <= ss[i + 1].db.channels.Keys;
      }
    }
  }

  lemma SameCalls(ss: seq<State>, es: seq<Event>, ss': seq<State>, es': seq<Event>, n: nat, since: int)
    requires |ss| == |es| + 1 && |ss'| == |es'| + 1 && n <= |es| && n <= |es'|
    requires ss'[..n] == ss[..n] && es'[..n] == es[..n]
    ensures CallsSince(ss', es', n, since) == CallsSince(ss, es, n, since)
  {
    forall i: nat | i < n ensures IsCall(ss'[i], es'[i], since) == IsCall(ss[i], es[i], since) {
      assert ss'[..n][i] == ss[..n][i] && es'[..n][i] == es[..n][i];
    }
  }

  lemma CallsStep(ss: seq<State>, es: seq<Event>, n: nat, since: int)
    requires |ss| == |es| + 1 && n < |es|
    ensures |CallsSince(ss, es, n + 1, since)|
         == |CallsSince(ss, es, n, since)| + if IsCall(ss[n], es[n], since) then 1 else 0
  {
    var before, own := CallsSince(ss, es, n, since), if IsCall(ss[n], es[n], since) then {n} else {};
    assert CallsSince(ss, es, n + 1, since) == before + own;
  }

  /** One more event of a run. */
  lemma Do(cfg: Config, t: Trace, e: Event, since: int) returns (t': Trace)
    requires t.Valid(cfg) && Enabled(cfg, t.Last(), e)
    requires t.Last().db.channels.Keys <= Next(cfg, t.Last(), e).db.channels.Keys
    ensures t'.Valid(cfg) && t'.Last() == Next(cfg, t.Last(), e)
    ensures t'.Calls(since) == t.Calls(since) + if IsCall(t.Last(), e, since) then 1 else 0
  {
    var s' := Next(cfg, t.Last(), e);
    t' := Trace(t.ss + [s'], t.es + [e]);
    RunGrows(cfg, t.ss, t.es, e, s');
    SameCalls(t.ss, t.es, t'.ss, t'.es, |t.es|, since);
    CallsStep(t'.ss, t'.es, |t.es|, since);
  }

  /** What the calls need to know of a channel. */
  datatype Brief = Brief(nextAt: int, lastFallbackAt: Option<int>)

  function BriefOf(c: Channel): Brief {
    Brief(c.feed.nextPollAt, c.lastFallbackAt)
  }

  function Briefs(s: State): map<ChannelId, Brief> {
    map x | x in s.db.channels :: BriefOf(s.db.channels[x])
  }

  /** Between batches, with the given schedule. */
  ghost predicate At(s: State, clock: int, archive: Archive, briefs: map<ChannelId, Brief>) {
    s.refresher.Waiting? && s.clock == clock && s.db.archive == archive && Briefs(s) == briefs
  }

  function Recent(briefs: map<ChannelId, Brief>, now: int): set<ChannelId> {
    set x | x in briefs && briefs[x].lastFallbackAt.Some? && briefs[x].lastFallbackAt.value >= now - 3600
  }

  function DueNow(briefs: map<ChannelId, Brief>, now: int): set<ChannelId> {
    set x | x in briefs && briefs[x].nextAt <= now
  }

  lemma BriefsTell(s: State, now: int)
    ensures Recent(Briefs(s), now) == RecentFallbacks(s.db.channels, now)
    ensures DueNow(Briefs(s), now) == DueSet(s.db.channels, now)
    ensures Briefs(s).Keys == s.db.channels.Keys
  {}

  lemma TickTo(cfg: Config, t: Trace, to: int, archive: Archive, briefs: map<ChannelId, Brief>, since: int)
    returns (t': Trace)
    requires t.Valid(cfg) && t.Last().clock <= to && At(t.Last(), t.Last().clock, archive, briefs)
    ensures t'.Valid(cfg) && At(t'.Last(), to, archive, briefs) && t'.Calls(since) == t.Calls(since)
  {
    t' := Do(cfg, t, Tick(to), since);
  }

  /** A new channel, due at once. */
  lemma AllowNew(
      cfg: Config, t: Trace, y: ChannelId, clock: int, archive: Archive, briefs: map<ChannelId, Brief>, since: int)
    returns (t': Trace)
    requires t.Valid(cfg) && At(t.Last(), clock, archive, briefs) && y !in briefs
    ensures t'.Valid(cfg) && At(t'.Last(), clock, archive, briefs[y := Brief(0, None)])
    ensures t'.Calls(since) == t.Calls(since)
  {
    var e := AllowChannel(0, y, "n");
    BriefsTell(t.Last(), clock);
    assert Next(cfg, t.Last(), e).db.channels == t.Last().db.channels[y := NewChannel(Some("n"))];
    t' := Do(cfg, t, e, since);
    assert Briefs(t'.Last()) == briefs[y := Brief(0, None)];
  }

  function Leased(briefs: map<ChannelId, Brief>, batch: set<ChannelId>, until: int): map<ChannelId, Brief> {
    map x | x in briefs :: if x in batch then Brief(until, briefs[x].lastFallbackAt) else briefs[x]
  }

  /** In the middle of a batch: `queued` are still to be polled, with their rows as the batch was claimed. */
  ghost predicate Amid(
      s: State, clock: int, archive: Archive, briefs: map<ChannelId, Brief>, used: nat, queued: set<ChannelId>) {
    && s.refresher.Batch? && s.clock == clock && s.db.archive == archive && Briefs(s) == briefs
    && s.refresher.used == used
    && forall x | x in queued ::
         && x in briefs && x in s.refresher.tasks && s.refresher.tasks[x].Queued?
         && s.refresher.tasks[x].due.lastFallbackAt == briefs[x].lastFallbackAt
  }

  /** Just claimed: the batch is leased, with its rows as they were. */
  ghost predicate Taken(s: State, clock: int, archive: Archive, briefs: map<ChannelId, Brief>, batch: set<ChannelId>) {
    && s.refresher.Picked? && s.refresher.batch.Keys == batch && s.clock == clock && s.db.archive == archive
    && Briefs(s) == briefs
    && forall x | x in batch :: x in briefs && s.refresher.batch[x].lastFallbackAt == briefs[x].lastFallbackAt
  }

  lemma ClaimDue(cfg: Config, t: Trace, clock: int, archive: Archive, briefs: map<ChannelId, Brief>, since: int)
    returns (t': Trace)
    requires t.Valid(cfg) && At(t.Last(), clock, archive, briefs)
    requires DueNow(briefs, clock) != {} && |DueNow(briefs, clock)| <= cfg.batchSize
    ensures var batch := DueNow(briefs, clock);
      && t'.Valid(cfg) && t'.Calls(since) == t.Calls(since)
      && Taken(t'.Last(), clock, archive, Leased(briefs, batch, clock + POLL_LEASE_SECS), batch)
  {
    var s, batch := t.Last(), DueNow(briefs, clock);
    BriefsTell(s, clock);
    assert IsBatch(s.db.channels, clock, cfg.batchSize, batch);
    ClaimedBriefs(cfg, s, clock, archive, briefs, batch);
    t' := Do(cfg, t, ClaimSources(batch), since);
  }

  lemma ClaimedBriefs(
      cfg: Config, s: State, clock: int, archive: Archive, briefs: map<ChannelId, Brief>, batch: set<ChannelId>)
    requires At(s, clock, archive, briefs) && batch <= briefs.Keys && Enabled(cfg, s, ClaimSources(batch))
    ensures Taken(Next(cfg, s, ClaimSources(batch)), clock, archive, Leased(briefs, batch, clock + POLL_LEASE_SECS),
                  batch)
  {
    var s' := Next(cfg, s, ClaimSources(batch));
    assert Briefs(s') == Leased(briefs, batch, clock + POLL_LEASE_SECS);
    assert s'.refresher.batch.Keys == batch;
  }

  lemma ReadCount(
      cfg: Config, t: Trace, clock: int, archive: Archive, briefs: map<ChannelId, Brief>, batch: set<ChannelId>,
      since: int)
    returns (t': Trace)
    requires cfg.fallbacksPerHour > 0 && cfg.fallbackEnabled
    requires t.Valid(cfg) && Taken(t.Last(), clock, archive, briefs, batch)
    ensures t'.Valid(cfg) && t'.Calls(since) == t.Calls(since)
    ensures Amid(t'.Last(), clock, archive, briefs, |Recent(briefs, clock)|, batch)
  {
    BriefsTell(t.Last(), clock);
    t' := Do(cfg, t, CountFallbacks, since);
  }

  /** Claim all that is due and read the count. */
  lemma Begin(cfg: Config, t: Trace, clock: int, archive: Archive, briefs: map<ChannelId, Brief>, since: int)
    returns (t': Trace)
    requires cfg.fallbacksPerHour > 0 && cfg.fallbackEnabled
    requires t.Valid(cfg) && At(t.Last(), clock, archive, briefs)
    requires DueNow(briefs, clock) != {} && |DueNow(briefs, clock)| <= cfg.batchSize
    ensures var batch := DueNow(briefs, clock);
      && t'.Valid(cfg) && t'.Calls(since) == t.Calls(since)
      && Amid(t'.Last(), clock, archive, Leased(briefs, batch, clock + POLL_LEASE_SECS), |Recent(briefs, clock)|, batch)
  {
    var batch := DueNow(briefs, clock);
    var leased := Leased(briefs, batch, clock + POLL_LEASE_SECS);
    var t1 := ClaimDue(cfg, t, clock, archive, briefs, since);
    t' := ReadCount(cfg, t1, clock, archive, leased, batch, since);
    assert Recent(leased, clock) == Recent(briefs, clock);
  }

  /** Poll and call one channel of the batch. */
  lemma CallQueued(
      cfg: Config, t: Trace, y: ChannelId, clock: int, archive: Archive, briefs: map<ChannelId, Brief>, used: nat,
      queued: set<ChannelId>, since: int)
    returns (t': Trace)
    requires cfg.fallbackEnabled && used < cfg.fallbacksPerHour && since <= clock
    requires t.Valid(cfg) && Amid(t.Last(), clock, archive, briefs, used, queued) && y in queued
    requires briefs[y].lastFallbackAt.Some? ==>
               clock - briefs[y].lastFallbackAt.value >= EffectiveInterval(archive, y, cfg, clock)
    ensures t'.Valid(cfg) && t'.Calls(since) == t.Calls(since) + 1
    ensures Amid(t'.Last(), clock, archive, briefs[y := Brief(briefs[y].nextAt, Some(clock))], used, queued - {y})
  {
    BriefsTell(t.Last(), clock);
    var t1 := Do(cfg, t, StartPoll(y), since);
    t' := Do(cfg, t1, Fallback(y), since);
    assert Briefs(t'.Last()) == briefs[y := Brief(briefs[y].nextAt, Some(clock))];
  }

  lemma Restart(
      cfg: Config, t: Trace, clock: int, archive: Archive, briefs: map<ChannelId, Brief>, used: nat,
      queued: set<ChannelId>, since: int)
    returns (t': Trace)
    requires t.Valid(cfg) && Amid(t.Last(), clock, archive, briefs, used, queued)
    ensures t'.Valid(cfg) && At(t'.Last(), clock, archive, briefs) && t'.Calls(since) == t.Calls(since)
  {
    t' := Do(cfg, t, Crash, since);
  }

  /** The only due channel is claimed and called, and the process restarts. */
  lemma CallDue(
      cfg: Config, t: Trace, y: ChannelId, clock: int, archive: Archive, briefs: map<ChannelId, Brief>, since: int)
    returns (t': Trace)
    requires ValidConfig(cfg) && cfg.fallbackEnabled && |Recent(briefs, clock)| < cfg.fallbacksPerHour && since <= clock
    requires t.Valid(cfg) && At(t.Last(), clock, archive, briefs) && DueNow(briefs, clock) == {y}
    requires briefs[y].lastFallbackAt.Some? ==>
               clock - briefs[y].lastFallbackAt.value >= EffectiveInterval(archive, y, cfg, clock)
    ensures t'.Valid(cfg) && t'.Calls(since) == t.Calls(since) + 1
    ensures At(t'.Last(), clock, archive, briefs[y := Brief(clock + POLL_LEASE_SECS, Some(clock))])
  {
    assert y in DueNow(briefs, clock);
    var leased, used := Leased(briefs, {y}, clock + POLL_LEASE_SECS), |Recent(briefs, clock)|;
    var t1 := Begin(cfg, t, clock, archive, briefs, since);
    var t2 := CallQueued(cfg, t1, y, clock, archive, leased, used, {y}, since);
    var called := leased[y := Brief(clock + POLL_LEASE_SECS, Some(clock))];
    t' := Restart(cfg, t2, clock, archive, called, used, {y} - {y}, since);
    assert called == briefs[y := Brief(clock + POLL_LEASE_SECS, Some(clock))];
  }

  // ---------------------------------------------------------------------
  // Many channels
  // ---------------------------------------------------------------------

  /** Channel names by number. */
  function Name(k: nat): (r: string)
    ensures |r| == k
  {
    if k == 0 then "" else Name(k - 1) + ['c']
  }

  /** Every channel has a number below `k`. */
  ghost predicate Below(briefs: map<ChannelId, Brief>, k: nat) {
    forall x | x in briefs :: |x| < k
  }

  /** Nothing is due. */
  ghost predicate Rests(briefs: map<ChannelId, Brief>, clock: int) {
    forall x | x in briefs :: briefs[x].nextAt > clock
  }

  /** A new channel is the only one due, and once called rests like the others. */
  lemma NewBriefs(briefs: map<ChannelId, Brief>, y: ChannelId, clock: int)
    requires 0 <= clock && Rests(briefs, clock) && y !in briefs
    ensures var (added, called) := (briefs[y := Brief(0, None)],
                                    briefs[y := Brief(clock + POLL_LEASE_SECS, Some(clock))]);
      && DueNow(added, clock) == {y} && Recent(added, clock) == Recent(briefs, clock)
      && Recent(called, clock) == Recent(briefs, clock) + {y} && Rests(called, clock)
      && added[y := Brief(clock + POLL_LEASE_SECS, Some(clock))] == called
  {}

  lemma CallOneNew(
      cfg: Config, t: Trace, k: nat, clock: int, archive: Archive, briefs: map<ChannelId, Brief>, since: int)
    returns (t': Trace, briefs': map<ChannelId, Brief>)
    requires ValidConfig(cfg) && cfg.fallbackEnabled && 0 <= clock && since <= clock
    requires t.Valid(cfg) && At(t.Last(), clock, archive, briefs) && Below(briefs, k) && Rests(briefs, clock)
    requires |Recent(briefs, clock)| < cfg.fallbacksPerHour
    ensures t'.Valid(cfg) && At(t'.Last(), clock, archive, briefs') && Below(briefs', k + 1) && Rests(briefs', clock)
    ensures t'.Calls(since) == t.Calls(since) + 1
    ensures |Recent(briefs', clock)| <= |Recent(briefs, clock)| + 1
  {
    var y := Name(k);
    NewBriefs(briefs, y, clock);
    var t1 := AllowNew(cfg, t, y, clock, archive, briefs, since);
    t' := CallDue(cfg, t1, y, clock, archive, briefs[y := Brief(0, None)], since);
    briefs' := briefs[y := Brief(clock + POLL_LEASE_SECS, Some(clock))];
  }

  /** `count` new channels called one after another. */
  lemma {:induction false} CallNew(
      cfg: Config, t: Trace, k: nat, count: nat, clock: int, archive: Archive, briefs: map<ChannelId, Brief>,
      since: int)
    returns (t': Trace, briefs': map<ChannelId, Brief>)
    requires ValidConfig(cfg) && cfg.fallbackEnabled && 0 <= clock && since <= clock
    requires t.Valid(cfg) && At(t.Last(), clock, archive, briefs) && Below(briefs, k) && Rests(briefs, clock)
    requires |Recent(briefs, clock)| + count <= cfg.fallbacksPerHour
    ensures t'.Valid(cfg) && At(t'.Last(), clock, archive, briefs') && Below(briefs', k + count)
            && Rests(briefs', clock)
    ensures t'.Calls(since) == t.Calls(since) + count
    ensures |Recent(briefs', clock)| <= |Recent(briefs, clock)| + count
    decreases count
  {
    if count == 0 {
      t', briefs' := t, briefs;
    } else {
      var t1, called := CallOneNew(cfg, t, k, clock, archive, briefs, since);
      t', briefs' := CallNew(cfg, t1, k + 1, count - 1, clock, archive, called, since);
    }
  }

  /** What is due has never been called. */
  ghost predicate DueAreNew(briefs: map<ChannelId, Brief>, clock: int) {
    forall x | x in DueNow(briefs, clock) :: briefs[x].lastFallbackAt.None?
  }

  lemma OneMoreDue(briefs: map<ChannelId, Brief>, y: ChannelId, clock: int)
    requires 0 <= clock && y !in briefs && DueAreNew(briefs, clock)
    ensures var added := briefs[y := Brief(0, None)];
      && DueAreNew(added, clock) && Recent(added, clock) == Recent(briefs, clock)
      && |DueNow(added, clock)| == |DueNow(briefs, clock)| + 1
  {
    assert DueNow(briefs[y := Brief(0, None)], clock) == DueNow(briefs, clock) + {y};
  }

  /** `count` new channels, all due at once. */
  lemma {:induction false} AllowMany(
      cfg: Config, t: Trace, k: nat, count: nat, clock: int, archive: Archive, briefs: map<ChannelId, Brief>,
      since: int)
    returns (t': Trace, briefs': map<ChannelId, Brief>)
    requires t.Valid(cfg) && At(t.Last(), clock, archive, briefs) && Below(briefs, k)
    requires 0 <= clock && DueAreNew(briefs, clock)
    ensures t'.Valid(cfg) && At(t'.Last(), clock, archive, briefs') && t'.Calls(since) == t.Calls(since)
    ensures DueAreNew(briefs', clock) && Recent(briefs', clock) == Recent(briefs, clock)
    ensures |DueNow(briefs', clock)| == |DueNow(briefs, clock)| + count
    decreases count
  {
    if count == 0 {
      t', briefs' := t, briefs;
    } else {
      OneMoreDue(briefs, Name(k), clock);
      var t1 := AllowNew(cfg, t, Name(k), clock, archive, briefs, since);
      t', briefs' := AllowMany(cfg, t1, k + 1, count - 1, clock, archive, briefs[Name(k) := Brief(0, None)], since);
    }
  }

  /** Every queued channel of a batch that was let through is called. */
  lemma {:induction false} CallAll(
      cfg: Config, t: Trace, clock: int, archive: Archive, briefs: map<ChannelId, Brief>, used: nat,
      queued: set<ChannelId>, since: int)
    returns (t': Trace)
    requires cfg.fallbackEnabled && used < cfg.fallbacksPerHour && since <= clock
    requires t.Valid(cfg) && Amid(t.Last(), clock, archive, briefs, used, queued)
    requires forall x | x in queued :: x in briefs && briefs[x].lastFallbackAt.None?
    ensures t'.Valid(cfg) && t'.Last().clock == clock
    ensures t'.Calls(since) == t.Calls(since) + |queued|
    decreases queued
  {
    if queued == {} {
      t' := t;
    } else {
      var y :| y in queued;
      var t1 := CallQueued(cfg, t, y, clock, archive, briefs, used, queued, since);
      t' := CallAll(cfg, t1, clock, archive, briefs[y := Brief(briefs[y].nextAt, Some(clock))], used, queued - {y},
                    since);
    }
  }

  // ---------------------------------------------------------------------
  // The channel that is called twice
  // ---------------------------------------------------------------------

  const TWICE: ChannelId := Name(1)

  /** What the channel published decides its interval: nothing, lately, or a while ago. */
  function Published(cfg: Config): Option<int> {
    if Least(cfg) == cfg.archivedInterval then None
    else if Least(cfg) == cfg.activeInterval then Some(0)
    else Some(-(cfg.dormantDays + 1) * 86_400)
  }

  function Uploads(cfg: Config): seq<Item> {
    match Published(cfg)
    case None => []
    case Some(at) => [Item("v", "t", None, None, None, Some(at), None)]
  }

  /** The archive holds at most the channel's one video, with that date. */
  ghost predicate HoldsUpload(cfg: Config, archive: Archive) {
    var k := Key(TWICE, "v");
    match Published(cfg)
    case None => archive == map[]
    case Some(at) => archive.Keys == {k} && archive[k].publishedAt == Some(at) && !archive[k].deleted
  }

  lemma WithinOfUpload(cfg: Config, archive: Archive, now: int, days: nat)
    requires HoldsUpload(cfg, archive)
    ensures PublishedWithin(archive, TWICE, now, days)
       <==> Published(cfg).Some? && Max(now - Published(cfg).value, 0) / 86_400 <= days
  {
    if Published(cfg).Some? {
      assert Key(TWICE, "v") in archive;
    }
  }

  lemma DaysAgo(days: nat, secs: nat)
    requires secs < 86_400
    ensures (days * 86_400 + secs) / 86_400 == days
  {}

  /** So its interval is the least of all for the run's two hours. */
  lemma LeastApplies(cfg: Config, archive: Archive, now: int)
    requires ValidConfig(cfg) && HoldsUpload(cfg, archive) && 0 <= now < 86_400
    ensures EffectiveInterval(archive, TWICE, cfg, now) == Least(cfg)
  {
    WithinOfUpload(cfg, archive, now, cfg.dormantDays);
    WithinOfUpload(cfg, archive, now, cfg.archivedDays);
    DaysAgo(0, now);
    DaysAgo(cfg.dormantDays + 1, now);
  }

  lemma StoredUpload(cfg: Config)
    ensures HoldsUpload(cfg, SightAll(map[], TWICE, OfItems(Uploads(cfg)), 0, Rss))
  {
    var ss := OfItems(Uploads(cfg));
    if ss != [] {
      assert ss[..0] == [];
    } else {
      assert SightAll(map[], TWICE, ss, 0, Rss) == map[];
    }
  }

  /** A table with the one channel. */
  function One(nextAt: int, lastFallbackAt: Option<int>): map<ChannelId, Brief> {
    map[TWICE := Brief(nextAt, lastFallbackAt)]
  }

  lemma FirstAllow(cfg: Config, since: int) returns (t: Trace)
    ensures t.Valid(cfg) && t.Calls(since) == 0 && At(t.Last(), 0, map[], One(0, None))
  {
    NoCallsYet(cfg, since);
    assert Briefs(INIT) == map[];
    t := AllowNew(cfg, Trace([INIT], []), TWICE, 0, map[], map[], since);
    assert map[][TWICE := Brief(0, None)] == One(0, None);
  }

  lemma FirstBatch(cfg: Config, since: int) returns (t: Trace)
    requires ValidConfig(cfg) && cfg.fallbackEnabled && cfg.fallbacksPerHour > 0
    ensures t.Valid(cfg) && t.Calls(since) == 0
    ensures Amid(t.Last(), 0, map[], One(120, None), 0, {TWICE})
  {
    var one := One(0, None);
    assert DueNow(one, 0) == {TWICE} && Recent(one, 0) == {};
    assert Leased(one, {TWICE}, 0 + POLL_LEASE_SECS) == One(120, None);
    var t0 := FirstAllow(cfg, since);
    t := Begin(cfg, t0, 0, map[], one, since);
  }

  /** The channel is allowed, polled once for its uploads, and due again two minutes later. */
  lemma Opening(cfg: Config, since: int) returns (t: Trace, archive: Archive)
    requires ValidConfig(cfg) && cfg.fallbackEnabled && cfg.fallbacksPerHour > 0
    ensures t.Valid(cfg) && HoldsUpload(cfg, archive) && t.Calls(since) == 0
    ensures At(t.Last(), 120, archive, One(120, None))
  {
    var leased := One(120, None);
    var t1 := FirstBatch(cfg, since);
    var t2 := StoreUploads(cfg, t1, Uploads(cfg), leased, since);
    archive := t2.Last().db.archive;
    StoredUpload(cfg);
    var t3 := Do(cfg, t2, Crash, since);
    t := TickTo(cfg, t3, 120, archive, leased, since);
  }

  lemma StoreUploads(cfg: Config, t: Trace, items: seq<Item>, briefs: map<ChannelId, Brief>, since: int)
    returns (t2: Trace)
    requires t.Valid(cfg) && Amid(t.Last(), 0, map[], briefs, 0, {TWICE})
    ensures t2.Valid(cfg) && t2.Calls(since) == t.Calls(since)
    ensures t2.Last().clock == 0 && Briefs(t2.Last()) == briefs
    ensures t2.Last().db.archive == SightAll(map[], TWICE, OfItems(items), 0, Rss)
  {
    BriefsTell(t.Last(), 0);
    var t1 := Do(cfg, t, StartPoll(TWICE), since);
    t2 := Do(cfg, t1, PollUpdated(TWICE, items, None, None, None), since);
    if items == [] {
      assert OfItems(items) == [];
    }
  }

  // ---------------------------------------------------------------------
  // The run
  // ---------------------------------------------------------------------

  /** How long after its first call the channel is called again: its interval, or its lease if that is longer. */
  function Gap(cfg: Config): int {
    Max(Least(cfg), POLL_LEASE_SECS)
  }

  lemma OneIsDue(nextAt: int, lastFallbackAt: Option<int>, clock: int, b: Brief)
    requires nextAt <= clock
    ensures DueNow(One(nextAt, lastFallbackAt), clock) == {TWICE} && |Recent(One(nextAt, lastFallbackAt), clock)| <= 1
    ensures One(nextAt, lastFallbackAt)[TWICE := b] == One(b.nextAt, b.lastFallbackAt)
  {
    SubsetSize(Recent(One(nextAt, lastFallbackAt), clock), {TWICE});
  }

  /** One channel called twice within the hour, and still only one recent channel. */
  lemma CalledTwice(cfg: Config) returns (t: Trace, archive: Archive)
    requires ValidConfig(cfg) && cfg.fallbackEnabled && cfg.fallbacksPerHour >= 2 && Least(cfg) <= 3600
    ensures t.Valid(cfg) && t.Calls(120) == 2
    ensures At(t.Last(), 120 + Gap(cfg), archive, One(240 + Gap(cfg), Some(120 + Gap(cfg))))
  {
    var t1;
    t1, archive := Opening(cfg, 120);
    OneIsDue(120, None, 120, Brief(240, Some(120)));
    var t2 := CallDue(cfg, t1, TWICE, 120, archive, One(120, None), 120);
    var clock := 120 + Gap(cfg);
    var t3 := TickTo(cfg, t2, clock, archive, One(240, Some(120)), 120);
    OneIsDue(240, Some(120), clock, Brief(120 + clock, Some(clock)));
    LeastApplies(cfg, archive, clock);
    t := CallDue(cfg, t3, TWICE, clock, archive, One(240, Some(120)), 120);
  }

  /**
   * A run without deletions in which one hour holds more calls than the cap plus
   * one batch less one: a channel is called twice, then others up to one below
   * the cap, then a whole batch of new ones.
   */
  lemma SlackIsBroken(cfg: Config) returns (t: Trace)
    requires ValidConfig(cfg) && cfg.fallbackEnabled && cfg.fallbacksPerHour >= 2 && Least(cfg) <= 3600
    ensures t.Valid(cfg) && |RecentCalls(t.ss, t.es, |t.es|)| >= cfg.fallbacksPerHour + cfg.batchSize
  {
    var t1, archive := CalledTwice(cfg);
    var clock := 120 + Gap(cfg);
    var one := One(240 + Gap(cfg), Some(clock));
    assert Recent(one, clock) == {TWICE};
    var t2, briefs := CallNew(cfg, t1, 2, cfg.fallbacksPerHour - 2, clock, archive, one, 120);
    t := CallBatch(cfg, t2, cfg.fallbacksPerHour, clock, archive, briefs, 120);
    SinceIsRecent(t, 120);
  }

  /** A batch of new channels, claimed together and all called. */
  lemma CallBatch(
      cfg: Config, t: Trace, k: nat, clock: int, archive: Archive, briefs: map<ChannelId, Brief>, since: int)
    returns (t': Trace)
    requires ValidConfig(cfg) && cfg.fallbackEnabled && 0 <= clock && since <= clock
    requires t.Valid(cfg) && At(t.Last(), clock, archive, briefs) && Below(briefs, k) && Rests(briefs, clock)
    requires |Recent(briefs, clock)| < cfg.fallbacksPerHour
    ensures t'.Valid(cfg) && t'.Last().clock == clock && t'.Calls(since) == t.Calls(since) + cfg.batchSize
  {
    assert DueNow(briefs, clock) == {};
    var t1, full := AllowMany(cfg, t, k, cfg.batchSize, clock, archive, briefs, since);
    var batch := DueNow(full, clock);
    var leased := Leased(full, batch, clock + POLL_LEASE_SECS);
    var t2 := Begin(cfg, t1, clock, archive, full, since);
    t' := CallAll(cfg, t2, clock, archive, leased, |Recent(full, clock)|, batch, since);
  }

  lemma SinceIsRecent(t: Trace, since: int)
    requires |t.ss| == |t.es| + 1 && t.Last().clock - 3600 <= since
    ensures t.Calls(since) <= |RecentCalls(t.ss, t.es, |t.es|)|
  {
    SubsetSize(CallsSince(t.ss, t.es, |t.es|, since), RecentCalls(t.ss, t.es, |t.es|));
  }

  /**
   * The documented slack holds for calls exactly when fallbacks are off, the cap
   * is one, or every interval a channel can have is longer than the hour.
   */
  lemma SlackExactly(cfg: Config)
    requires ValidConfig(cfg) && cfg.fallbacksPerHour > 0
    ensures KeepsSlack(cfg) <==> !cfg.fallbackEnabled || cfg.fallbacksPerHour == 1 || Least(cfg) > 3600
  {
    if !cfg.fallbackEnabled || cfg.fallbacksPerHour == 1 || Least(cfg) > 3600 {
      SlackIsKept(cfg);
    } else {
      var t := SlackIsBroken(cfg);
      assert IsRun(cfg, t.ss, t.es) && |t.es| < |t.ss| && NoDeletion(t.ss, |t.es|);
    }
  }
}
