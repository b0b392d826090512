/**
 * Two runs of the loops in which a listing and a poll overlap: one tombstones a
 * row stored while the listing was running, the other moves a last-seen time back.
 */
module ArchiveWitnesses {
  import opened Prelude
  import opened ChannelArchive
  import opened SyncTables
  import opened SyncMachine
  import ArchiveRuns

  const CH: ChannelId := "c"
  const FRESH := Item("v", "t", None, None, None, None, None)
  const LISTED := Entry("v", None, None, None, None, None)
  const ROW := Key(CH, "v")
  const ADDED := NewChannel(Some("n"))

  function OnlyChannel(c: Channel): Db {
    Db(map[CH := c], map[], map[], {(0, CH)})
  }

  function OneTask(task: Task): Refresher {
    Batch(0, 1, map[CH := task])
  }

  // ---------------------------------------------------------------------
  // Stretches of a run
  // ---------------------------------------------------------------------

  ghost predicate Steps(cfg: Config, ss: seq<State>, es: seq<Event>) {
    |ss| == |es| + 1 && forall i | 0 <= i < |es| :: Step(cfg, ss[i], es[i], ss[i + 1])
  }

  /** Two stretches that meet make one. */
  lemma JoinSteps(cfg: Config, ss: seq<State>, es: seq<Event>, ts: seq<State>, fs: seq<Event>)
    requires Steps(cfg, ss, es) && Steps(cfg, ts, fs) && ss[|es|] == ts[0]
    ensures Steps(cfg, ss + ts[1..], es + fs)
  {
    var all, events := ss + ts[1..], es + fs;
    forall i | 0 <= i < |events| ensures Step(cfg, all[i], events[i], all[i + 1]) {
      if i < |es| {
        assert Step(cfg, ss[i], es[i], ss[i + 1]);
      } else {
        assert Step(cfg, ts[i - |es|], fs[i - |es|], ts[i - |es| + 1]);
      }
    }
  }

  lemma AddStep(cfg: Config, ss: seq<State>, es: seq<Event>, e: Event, s': State)
    requires Steps(cfg, ss, es) && Step(cfg, ss[|es|], e, s')
    ensures Steps(cfg, ss + [s'], es + [e])
  {
    JoinSteps(cfg, ss, es, [ss[|es|], s'], [e]);
    assert [ss[|es|], s'][1..] == [s'];
  }

  function PollEvents(): seq<Event> {
    [ClaimSources({CH}), CountFallbacks, StartPoll(CH)]
  }

  /** The only channel is claimed, counted and its poll started. */
  function PollStates(c: Channel, clock: int, w: Worker): seq<State> {
    var db, due := OnlyChannel(MarkLeased(c, clock + POLL_LEASE_SECS)), DueOf(c);
    [State(OnlyChannel(c), clock, w, Waiting),
     State(db, clock, w, Picked(map[CH := due])),
     State(db, clock, w, OneTask(Queued(due))),
     State(db, clock, w, OneTask(Polling(due, clock)))]
  }

  lemma OnlyBatch(cfg: Config, channels: map<ChannelId, Channel>, c: Channel, clock: int)
    requires ValidConfig(cfg) && channels == map[CH := c] && PollDue(c, clock)
    ensures IsBatch(channels, clock, cfg.batchSize, {CH})
    ensures Lease(channels, {CH}, clock + POLL_LEASE_SECS) == map[CH := MarkLeased(c, clock + POLL_LEASE_SECS)]
  {
    assert DueSet(channels, clock) == {CH};
  }

  lemma ClaimOnly(cfg: Config, c: Channel, clock: int, w: Worker)
    requires ValidConfig(cfg) && PollDue(c, clock)
    ensures Step(cfg, PollStates(c, clock, w)[0], ClaimSources({CH}), PollStates(c, clock, w)[1])
  {
    var s := PollStates(c, clock, w)[0];
    OnlyBatch(cfg, s.db.channels, c, clock);
    var next := Next(cfg, s, ClaimSources({CH}));
    assert next.refresher.batch == map[CH := DueOf(c)];
  }

  /** The channel does not count against the hourly cap. */
  predicate IsRested(c: Channel, clock: int) {
    c.lastFallbackAt.None? || c.lastFallbackAt.value < clock - 3600
  }

  lemma CountNone(cfg: Config, c: Channel, clock: int, w: Worker)
    requires IsRested(c, clock)
    ensures Step(cfg, PollStates(c, clock, w)[1], CountFallbacks, PollStates(c, clock, w)[2])
  {
    var s, picked := PollStates(c, clock, w)[1], map[CH := DueOf(c)];
    assert RecentFallbacks(s.db.channels, clock) == {};
    assert |picked| == 1;
    assert (map x | x in picked :: Queued(picked[x])) == map[CH := Queued(DueOf(c))];
  }

  lemma StartOnly(cfg: Config, c: Channel, clock: int, w: Worker)
    ensures Step(cfg, PollStates(c, clock, w)[2], StartPoll(CH), PollStates(c, clock, w)[3])
  {
    var s, s' := PollStates(c, clock, w)[2], PollStates(c, clock, w)[3];
    assert s.refresher.tasks[CH := Polling(DueOf(c), clock)] == s'.refresher.tasks;
  }

  lemma PollBegins(cfg: Config, c: Channel, clock: int, w: Worker)
    requires ValidConfig(cfg) && PollDue(c, clock) && IsRested(c, clock)
    ensures Steps(cfg, PollStates(c, clock, w), PollEvents())
  {
    ClaimOnly(cfg, c, clock, w);
    CountNone(cfg, c, clock, w);
    StartOnly(cfg, c, clock, w);
  }

  function ListingEvents(): seq<Event> {
    [ClaimBackfill(CH), StartListing]
  }

  /** The only channel is claimed for a backfill and its listing begun. */
  function ListingStates(c: Channel, clock: int, r: Refresher): seq<State> {
    var db := OnlyChannel(MarkClaimed(c, clock));
    [State(OnlyChannel(c), clock, Resting, r),
     State(db, clock, Claimed(CH), r),
     State(db, clock, Extracting(CH, clock), r)]
  }

  lemma ListingBegins(cfg: Config, c: Channel, clock: int, r: Refresher)
    requires Claimable(c, clock)
    ensures Steps(cfg, ListingStates(c, clock, r), ListingEvents())
  {
    var ss := ListingStates(c, clock, r);
    assert IsNextDue(ss[0].db.channels, CH, clock);
    assert ss[0].db.channels[CH := MarkClaimed(c, clock)] == ss[1].db.channels;
  }

  /** The channel is allowlisted, which is where both runs begin. */
  lemma AllowFirst(cfg: Config)
    ensures Steps(cfg, [INIT, State(OnlyChannel(ADDED), 0, Resting, Waiting)], [AllowChannel(0, CH, "n")])
  {}

  // ---------------------------------------------------------------------
  // The store and the commit
  // ---------------------------------------------------------------------

  const STORE := PollUpdated(CH, [FRESH], None, None, None)

  lemma OneSighting(x: Sighting, at: int)
    ensures var t := SightAll(map[], CH, [x], at, Rss); var k := Key(CH, x.video);
            k in t && t[k].firstSeenAt == at == t[k].lastSeenAt && !t[k].deleted
  {
    assert [x][..0] == [];
  }

  /** The poll's store inserts the row with the poll's own clock reading. */
  lemma StoreFresh(cfg: Config, s: State)
    requires IsPolling(s, CH) && CH in s.db.channels && s.db.archive == map[]
    ensures Enabled(cfg, s, STORE)
    ensures var s' := Next(cfg, s, STORE);
            && s'.worker == s.worker && CH in s'.db.channels && ROW in s'.db.archive
            && s'.db.archive[ROW].firstSeenAt == s.refresher.tasks[CH].now == s'.db.archive[ROW].lastSeenAt
            && !s'.db.archive[ROW].deleted
  {
    var ss := OfItems([FRESH]);
    ArchiveRuns.StoreIsFeed(s, CH, [FRESH], s.refresher.tasks[CH].now, Rss);
    OneSighting(ss[0], s.refresher.tasks[CH].now);
    assert ss == [ss[0]];
  }

  lemma CommitEmpty(cfg: Config, s: State)
    requires s.worker == Extracting(CH, 1)
    requires ROW in s.db.archive && s.db.archive[ROW].firstSeenAt == 0 && !s.db.archive[ROW].deleted
    ensures Enabled(cfg, s, CommitListing([]))
    ensures ROW in Next(cfg, s, CommitListing([])).db.archive && Next(cfg, s, CommitListing([])).db.archive[ROW].deleted
  {
    ArchiveRuns.SurvivesCommit(cfg, s, [], ROW);
    assert OfEntries([]) == [];
  }

  lemma CommitListed(cfg: Config, s: State)
    requires s.worker == Extracting(CH, 0) && CH in s.db.channels && ROW in s.db.archive
    ensures Enabled(cfg, s, CommitListing([LISTED]))
    ensures ROW in Next(cfg, s, CommitListing([LISTED])).db.archive
    ensures Next(cfg, s, CommitListing([LISTED])).db.archive[ROW].lastSeenAt == 0
  {
    var ss := OfEntries([LISTED]);
    assert ss[0].video == "v";
    ApplyListingAt(s.db.archive, CH, 0, ss, ROW);
    LastSeenAfter(s.db.archive, Listing(CH, 0, ss), ROW);
  }

  // ---------------------------------------------------------------------
  // The runs
  // ---------------------------------------------------------------------

  /** A store and a commit end a run of seven steps. */
  lemma StoreAndCommit(cfg: Config, ss: seq<State>, es: seq<Event>, s8: State, commit: Event, s9: State)
    requires Steps(cfg, ss, es) && |es| == 7 && ss[0] == INIT
    requires Step(cfg, ss[7], STORE, s8) && Step(cfg, s8, commit, s9)
    ensures IsRun(cfg, ss + [s8] + [s9], es + [STORE] + [commit])
  {
    AddStep(cfg, ss, es, STORE, s8);
    AddStep(cfg, ss + [s8], es + [STORE], commit, s9);
  }

  /** A poll reads the clock, and a listing begins a second later. */
  function StaleStart(): seq<Event> {
    [AllowChannel(0, CH, "n")] + PollEvents() + [Tick(1)] + ListingEvents()
  }

  lemma StaleStarts(cfg: Config) returns (ss: seq<State>)
    requires ValidConfig(cfg)
    ensures Steps(cfg, ss, StaleStart()) && |ss| == 8 && ss[0] == INIT
    ensures ss[7].worker == Extracting(CH, 1) && ss[7].refresher == OneTask(Polling(DueOf(ADDED), 0))
    ensures CH in ss[7].db.channels && ss[7].db.archive == map[]
  {
    var leased := MarkLeased(ADDED, POLL_LEASE_SECS);
    var polling := OneTask(Polling(DueOf(ADDED), 0));
    var s5 := State(OnlyChannel(leased), 1, Resting, polling);
    AllowFirst(cfg);
    PollBegins(cfg, ADDED, 0, Resting);
    ListingBegins(cfg, leased, 1, polling);
    var polls, lists := PollStates(ADDED, 0, Resting), ListingStates(leased, 1, polling);
    var upTo1 := [INIT, polls[0]];
    JoinSteps(cfg, upTo1, [AllowChannel(0, CH, "n")], polls, PollEvents());
    var upTo4 := upTo1 + polls[1..];
    AddStep(cfg, upTo4, [AllowChannel(0, CH, "n")] + PollEvents(), Tick(1), s5);
    JoinSteps(cfg, upTo4 + [s5], [AllowChannel(0, CH, "n")] + PollEvents() + [Tick(1)], lists, ListingEvents());
    ss := upTo4 + [s5] + lists[1..];
  }

  /** The poll stores its item before the listing commits. */
  function StaleEvents(): seq<Event> {
    StaleStart() + [STORE] + [CommitListing([])]
  }

  /**
   * The tombstone guard does not cover every row inserted while a listing is
   * running: in this run the poll stores its row after the listing has begun,
   * and the listing still tombstones it.
   */
  lemma StalePollIsTombstoned(cfg: Config) returns (ss: seq<State>)
    requires ValidConfig(cfg)
    ensures IsRun(cfg, ss, StaleEvents())
    ensures ss[7].worker.Extracting? && ROW !in ss[7].db.archive
    ensures ROW in ss[8].db.archive && !ss[8].db.archive[ROW].deleted
    ensures ROW in ss[9].db.archive && ss[9].db.archive[ROW].deleted
  {
    var upTo7 := StaleStarts(cfg);
    StoreFresh(cfg, upTo7[7]);
    var s8 := Next(cfg, upTo7[7], STORE);
    CommitEmpty(cfg, s8);
    var s9 := Next(cfg, s8, CommitListing([]));
    StoreAndCommit(cfg, upTo7, StaleStart(), s8, CommitListing([]), s9);
    ss := upTo7 + [s8] + [s9];
  }

  /** A listing begins, and a poll reads the clock a second later. */
  function RewindStart(): seq<Event> {
    [AllowChannel(0, CH, "n")] + ListingEvents() + [Tick(1)] + PollEvents()
  }

  lemma RewindStarts(cfg: Config) returns (ss: seq<State>)
    requires ValidConfig(cfg)
    ensures Steps(cfg, ss, RewindStart()) && |ss| == 8 && ss[0] == INIT
    ensures ss[7].worker == Extracting(CH, 0)
    ensures ss[7].refresher == OneTask(Polling(DueOf(MarkClaimed(ADDED, 0)), 1))
    ensures CH in ss[7].db.channels && ss[7].db.archive == map[]
  {
    var claimed, w := MarkClaimed(ADDED, 0), Extracting(CH, 0);
    AllowFirst(cfg);
    ListingBegins(cfg, ADDED, 0, Waiting);
    PollBegins(cfg, claimed, 1, w);
    var lists, polls := ListingStates(ADDED, 0, Waiting), PollStates(claimed, 1, w);
    var upTo1 := [INIT, lists[0]];
    JoinSteps(cfg, upTo1, [AllowChannel(0, CH, "n")], lists, ListingEvents());
    var upTo3 := upTo1 + lists[1..];
    AddStep(cfg, upTo3, [AllowChannel(0, CH, "n")] + ListingEvents(), Tick(1), polls[0]);
    JoinSteps(cfg, upTo3 + [polls[0]], [AllowChannel(0, CH, "n")] + ListingEvents() + [Tick(1)], polls, PollEvents());
    ss := upTo3 + [polls[0]] + polls[1..];
  }

  /** The poll stores a video, and the listing that shows it commits after that. */
  function RewindEvents(): seq<Event> {
    RewindStart() + [STORE] + [CommitListing([LISTED])]
  }

  /** In this run the row's last-seen time goes from 1 back to 0. */
  lemma LastSeenRewinds(cfg: Config) returns (ss: seq<State>)
    requires ValidConfig(cfg)
    ensures IsRun(cfg, ss, RewindEvents())
    ensures ROW in ss[8].db.archive && ss[8].db.archive[ROW].lastSeenAt == 1
    ensures ROW in ss[9].db.archive && ss[9].db.archive[ROW].lastSeenAt == 0
  {
    var upTo7 := RewindStarts(cfg);
    StoreFresh(cfg, upTo7[7]);
    var s8 := Next(cfg, upTo7[7], STORE);
    CommitListed(cfg, s8);
    var s9 := Next(cfg, s8, CommitListing([LISTED]));
    StoreAndCommit(cfg, upTo7, RewindStart(), s8, CommitListing([LISTED]), s9);
    ss := upTo7 + [s8] + [s9];
  }
}
