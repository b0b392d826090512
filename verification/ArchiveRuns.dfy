/**
 * The archive of a running system is the archive of its committed changes, so
 * what holds of every history holds of every interleaving of the two loops.
 */
module ArchiveRuns {
  import opened Prelude
  import opened ChannelArchive
  import opened SyncTables
  import opened SyncMachine
  import BackfillSafety

  /** The change one step commits to the archive, if any. */
  function Committed(s: State, e: Event): seq<Change> {
    if e.CommitListing? && s.worker.Extracting? then
      if CanStore(s.db, s.worker.channel, |e.entries|)
      then [Listing(s.worker.channel, s.worker.startedAt, OfEntries(e.entries))] else []
    else if e.PollUpdated? && IsPolling(s, e.channel) then
      if e.channel in s.db.channels
      then [Feed(e.channel, s.refresher.tasks[e.channel].now, Rss, OfItems(e.items))]
      else []
    else if e.FallbackItems? && IsFallingBack(s, e.channel) then
      if e.channel in s.db.channels
      then [Feed(e.channel, s.refresher.tasks[e.channel].now, Sidecar, OfItems(e.items))]
      else []
    else if e.DisallowChannel? then
      if e.channel in Allowed(s.db.allowlist - {(e.child, e.channel)}) then [] else [Drop({e.channel})]
    else if e.RunGc? || e.RunReconcile? then [Drop(s.db.channels.Keys - Allowed(s.db.allowlist))]
    else []
  }

  /** The committed changes of the first `n` steps, in order. */
  function History(ss: seq<State>, es: seq<Event>, n: nat): seq<Change>
    requires |ss| == |es| + 1 && n < |ss|
  {
    if n == 0 then [] else History(ss, es, n - 1) + Committed(ss[n - 1], es[n - 1])
  }

  function ApplyAll(t: Archive, cs: seq<Change>): Archive
    requires |cs| <= 1
  {
    if cs == [] then t else Apply(t, cs[0])
  }

  lemma NothingStored(t: Archive, ch: ChannelId, at: int, source: Source)
    ensures SightAll(t, ch, [], at, source) == t
  {}

  lemma StoreIsFeed(s: State, ch: ChannelId, items: seq<Item>, now: int, source: Source)
    requires ch in s.db.channels
    ensures StoreItems(s.db, ch, items, now, source).archive
         == Apply(s.db.archive, Feed(ch, now, source, OfItems(items)))
  {
    if items == [] {
      assert OfItems(items) == [];
      NothingStored(s.db.archive, ch, now, source);
    }
  }

  lemma KeepIsDrop(db: Db, keep: set<ChannelId>)
    requires KeysHold(db)
    ensures KeepOnly(db.archive, keep) == Apply(db.archive, Drop(db.channels.Keys - keep))
  {
    forall k: Key ensures k in KeepOnly(db.archive, keep) <==> k in Apply(db.archive, Drop(db.channels.Keys - keep)) {}
  }

  lemma ForgetIsDrop(db: Db, child: int, ch: ChannelId)
    requires ch !in Allowed(db.allowlist - {(child, ch)})
    ensures Disallow(db, child, ch).archive == Apply(db.archive, Drop({ch}))
  {
    forall k: Key ensures k in Disallow(db, child, ch).archive <==> k in Apply(db.archive, Drop({ch})) {}
  }

  lemma PollCommits(cfg: Config, s: State, e: Event)
    requires Enabled(cfg, s, e) && OfPoll(e)
    ensures |Committed(s, e)| <= 1
    ensures PollStep(cfg, s, e).db.archive == ApplyAll(s.db.archive, Committed(s, e))
  {
    if e.PollUpdated? || e.FallbackItems? {
      if e.channel in s.db.channels {
        StoreIsFeed(s, e.channel, e.items, s.refresher.tasks[e.channel].now, if e.PollUpdated? then Rss else Sidecar);
      }
    } else {
      BackfillSafety.RecordingKeeps(cfg, s, e);
    }
  }

  lemma RouteCommits(s: State, e: Event)
    requires OfRoute(e) && KeysHold(s.db)
    ensures |Committed(s, e)| <= 1
    ensures RouteStep(s.db, e).archive == ApplyAll(s.db.archive, Committed(s, e))
  {
    if e.RunGc? || e.RunReconcile? {
      KeepIsDrop(s.db, Allowed(s.db.allowlist));
    } else if e.DisallowChannel? && e.channel !in Allowed(s.db.allowlist - {(e.child, e.channel)}) {
      ForgetIsDrop(s.db, e.child, e.channel);
    }
  }

  lemma StepCommits(cfg: Config, s: State, e: Event)
    requires Enabled(cfg, s, e) && KeysHold(s.db)
    ensures |Committed(s, e)| <= 1
    ensures Next(cfg, s, e).db.archive == ApplyAll(s.db.archive, Committed(s, e))
  {
    if OfPoll(e) {
      PollCommits(cfg, s, e);
    } else if OfRoute(e) {
      RouteCommits(s, e);
    }
  }

  /** `cs` is what leads from `t` to `t'`. */
  ghost predicate Leads(t: Archive, cs: seq<Change>, t': Archive) {
    |cs| <= 1 && t' == ApplyAll(t, cs)
  }

  lemma RunCommits(cfg: Config, ss: seq<State>, es: seq<Event>, m: nat)
    requires ValidConfig(cfg) && IsRun(cfg, ss, es) && m < |es|
    ensures Leads(ss[m].db.archive, Committed(ss[m], es[m]), ss[m + 1].db.archive)
  {
    BackfillSafety.RunsAreSafe(cfg, ss, es, m);
    assert Step(cfg, ss[m], es[m], ss[m + 1]);
    StepCommits(cfg, ss[m], es[m]);
  }

  function Flat(css: seq<seq<Change>>): seq<Change> {
    if css == [] then [] else Flat(css[..|css| - 1]) + css[|css| - 1]
  }

  lemma {:induction false} FlatLeads(ts: seq<Archive>, css: seq<seq<Change>>)
    requires |ts| == |css| + 1 && ts[0] == map[]
    requires forall m | 0 <= m < |css| :: Leads(ts[m], css[m], ts[m + 1])
    ensures ts[|css|] == Run(Flat(css))
    decreases |css|
  {
    if css != [] {
      var n := |css| - 1;
      FlatLeads(ts[..n + 1], css[..n]);
      assert Leads(ts[n], css[n], ts[n + 1]);
      RunAppends(ts[n], ts[n + 1], Flat(css[..n]), css[n]);
    }
  }

  lemma {:induction false} HistoryIsFlat(ss: seq<State>, es: seq<Event>, css: seq<seq<Change>>)
    requires |ss| == |es| + 1 && |css| <= |es|
    requires forall m | 0 <= m < |css| :: css[m] == Committed(ss[m], es[m])
    ensures History(ss, es, |css|) == Flat(css)
    decreases |css|
  {
    if css != [] {
      HistoryIsFlat(ss, es, css[..|css| - 1]);
    }
  }

  /** The archive of every reachable state is what its committed changes leave. */
  lemma ArchiveIsHistory(cfg: Config, ss: seq<State>, es: seq<Event>, n: nat)
    requires ValidConfig(cfg) && IsRun(cfg, ss, es) && n < |ss|
    ensures ss[n].db.archive == Run(History(ss, es, n))
  {
    var ts := seq(n + 1, m requires 0 <= m <= n => ss[m].db.archive);
    var css := seq(n, m requires 0 <= m < n => Committed(ss[m], es[m]));
    forall m | 0 <= m < n ensures Leads(ts[m], css[m], ts[m + 1]) {
      RunCommits(cfg, ss, es, m);
    }
    FlatLeads(ts, css);
    HistoryIsFlat(ss, es, css);
  }

  lemma RunAppends(t: Archive, t': Archive, h: seq<Change>, cs: seq<Change>)
    requires t == Run(h) && Leads(t, cs, t')
    ensures t' == Run(h + cs)
  {
    if cs == [] {
      assert h + cs == h;
    } else {
      assert (h + cs)[..|h|] == h;
    }
  }

  /**
   * Over every interleaving of the two loops, the routes and crashes: a row is
   * there exactly when some committed change inserted it and none dropped it
   * since; and it is tombstoned exactly when a later listing of its channel,
   * begun after the row's first-seen time, missed it and nothing sighted it since.
   */
  lemma TombstonesInRuns(cfg: Config, ss: seq<State>, es: seq<Event>, n: nat, k: Key)
    requires ValidConfig(cfg) && IsRun(cfg, ss, es) && n < |ss|
    ensures var h := History(ss, es, n);
            && (k in ss[n].db.archive <==> exists i :: Inserts(h, k, i))
            && (forall i :: Inserts(h, k, i) ==>
                  && ss[n].db.archive[k].firstSeenAt == TimeOf(h[i])
                  && (ss[n].db.archive[k].deleted <==> exists j :: LeftMissing(h, k, i, j)))
  {
    var h := History(ss, es, n);
    ArchiveIsHistory(cfg, ss, es, n);
    PresentIffInserted(h, k);
    forall i | Inserts(h, k, i)
      ensures Run(h)[k].firstSeenAt == TimeOf(h[i]) && (Run(h)[k].deleted <==> exists j :: LeftMissing(h, k, i, j))
    {
      TombstonedExactly(h, k, i);
    }
  }

  /**
   * When a listing commits, a live row of the channel it did not show survives
   * exactly when it was first seen at or after the listing's start. So a row the
   * freshness loop inserts while the listing is running survives exactly when
   * that poll read the clock no earlier than the listing did.
   */
  lemma SurvivesCommit(cfg: Config, s: State, entries: seq<Entry>, k: Key)
    requires Enabled(cfg, s, CommitListing(entries)) && CanStore(s.db, s.worker.channel, |entries|)
    requires k in s.db.archive && !s.db.archive[k].deleted
    ensures var t' := Next(cfg, s, CommitListing(entries)).db.archive;
            && k in t'
            && (!t'[k].deleted <==>
                  k.channel != s.worker.channel || k.video in Listed(OfEntries(entries))
                  || s.db.archive[k].firstSeenAt >= s.worker.startedAt)
  {
    ApplyListingAt(s.db.archive, s.worker.channel, s.worker.startedAt, OfEntries(entries), k);
  }

  /**
   * A step moves a row's last-seen time back exactly when it commits a sighting
   * of the row that carries an earlier time than the one stored.
   */
  lemma LastSeenMovesBack(cfg: Config, s: State, e: Event, k: Key)
    requires Enabled(cfg, s, e) && KeysHold(s.db) && k in s.db.archive && k in Next(cfg, s, e).db.archive
    ensures Next(cfg, s, e).db.archive[k].lastSeenAt < s.db.archive[k].lastSeenAt
       <==> && Committed(s, e) != []
            && Sees(Committed(s, e)[0], k)
            && TimeOf(Committed(s, e)[0]) < s.db.archive[k].lastSeenAt
  {
    StepCommits(cfg, s, e);
    if Committed(s, e) != [] {
      LastSeenAfter(s.db.archive, Committed(s, e)[0], k);
    }
  }
}
