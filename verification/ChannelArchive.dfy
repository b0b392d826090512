/**
 * The `channel_videos` table: how listings and feed items merge into it, how a
 * listing tombstones what it did not see, and what a history of such events
 * leaves behind.
 */
module ChannelArchive {
  import opened Prelude

  datatype Source = Rss | Sidecar | Backfill

  /** Primary key of `channel_videos`. */
  datatype Key = Key(channel: ChannelId, video: VideoId)

  datatype Row = Row(
    publishedAt: Option<int>,
    publishedRaw: Option<string>,
    viewCount: Option<int>,
    firstSeenAt: int,
    lastSeenAt: int,
    source: Source,
    deleted: bool)

  type Archive = map<Key, Row>

  /** What one observation of a video says about it. */
  datatype Sighting = Sighting(
    video: VideoId,
    publishedAt: Option<int>,
    publishedRaw: Option<string>,
    viewCount: Option<int>)

  // ---------------------------------------------------------------------
  // One transaction
  // ---------------------------------------------------------------------

  /** The row an upsert leaves, given the row (if any) it found. */
  function Merge(found: Option<Row>, s: Sighting, at: int, source: Source): Row {
    match found
    case None => Row(s.publishedAt, s.publishedRaw, s.viewCount, at, at, source, false)
    case Some(r) =>
      Row(r.publishedAt.OrElse(s.publishedAt), r.publishedRaw.OrElse(s.publishedRaw),
          s.viewCount.OrElse(r.viewCount), r.firstSeenAt, at, source, false)
  }

  function SightOne(t: Archive, ch: ChannelId, s: Sighting, at: int, source: Source): Archive {
    var k := Key(ch, s.video);
    t[k := Merge(Lookup(t, k), s, at, source)]
  }

  /** The upserts of a whole batch, in order. */
  function SightAll(t: Archive, ch: ChannelId, ss: seq<Sighting>, at: int, source: Source): Archive {
    if ss == [] then t
    else SightOne(SightAll(t, ch, ss[..|ss| - 1], at, source), ch, ss[|ss| - 1], at, source)
  }

  function Listed(ss: seq<Sighting>): set<VideoId> {
    set i | 0 <= i < |ss| :: ss[i].video
  }

  /** The rows a listing that began at `startedAt` and saw `observed` tombstones. */
  function Unobserved(t: Archive, ch: ChannelId, startedAt: int, observed: set<VideoId>): set<Key> {
    set k | k in t && k.channel == ch && !t[k].deleted && t[k].firstSeenAt < startedAt && k.video !in observed
  }

  function Tombstone(t: Archive, gone: set<Key>): Archive {
    map k | k in t :: if k in gone then t[k].(deleted := true) else t[k]
  }

  /** A whole committed backfill listing: upserts, then tombstones. */
  function ApplyListing(t: Archive, ch: ChannelId, startedAt: int, ss: seq<Sighting>): Archive {
    var seen := SightAll(t, ch, ss, startedAt, Backfill);
    Tombstone(seen, Unobserved(seen, ch, startedAt, Listed(ss)))
  }

  /** The ids reported as new: those absent before the transaction, in listing order. */
  function NewIds(t: Archive, ch: ChannelId, ss: seq<Sighting>): seq<VideoId> {
    if ss == [] then []
    else
      var v := ss[|ss| - 1].video;
      NewIds(t, ch, ss[..|ss| - 1]) + if Key(ch, v) in t then [] else [v]
  }

  /** The listed ids whose row was tombstoned before the transaction, in listing order. */
  function RevivedIds(t: Archive, ch: ChannelId, ss: seq<Sighting>): seq<VideoId> {
    if ss == [] then []
    else
      var k := Key(ch, ss[|ss| - 1].video);
      RevivedIds(t, ch, ss[..|ss| - 1]) + if k in t && t[k].deleted then [k.video] else []
  }

  /** The sightings of one video within a batch, in order. */
  function Hits(ss: seq<Sighting>, v: VideoId): seq<Sighting> {
    if ss == [] then []
    else Hits(ss[..|ss| - 1], v) + if ss[|ss| - 1].video == v then [ss[|ss| - 1]] else []
  }

  function FirstPublished(ss: seq<Sighting>): Option<int> {
    if ss == [] then None else FirstPublished(ss[..|ss| - 1]).OrElse(ss[|ss| - 1].publishedAt)
  }

  function FirstRaw(ss: seq<Sighting>): Option<string> {
    if ss == [] then None else FirstRaw(ss[..|ss| - 1]).OrElse(ss[|ss| - 1].publishedRaw)
  }

  function LastViews(ss: seq<Sighting>): Option<int> {
    if ss == [] then None else ss[|ss| - 1].viewCount.OrElse(LastViews(ss[..|ss| - 1]))
  }

  /** The row a batch leaves for a key it lists, given the row (if any) before. */
  function MergeAll(found: Option<Row>, hits: seq<Sighting>, at: int, source: Source): Option<Row> {
    if hits == [] then found
    else Some(Merge(MergeAll(found, hits[..|hits| - 1], at, source), hits[|hits| - 1], at, source))
  }

  lemma {:induction false} ListedHits(ss: seq<Sighting>, v: VideoId)
    ensures v in Listed(ss) <==> Hits(ss, v) != []
    decreases |ss|
  {
    if ss != [] {
      var init := ss[..|ss| - 1];
      ListedHits(init, v);
      assert Listed(ss) == Listed(init) + {ss[|ss| - 1].video} by {
        assert forall i | 0 <= i < |init| :: ss[i] == init[i];
      }
    }
  }

  /** A batch changes a key exactly by the sightings of that key it carries. */
  lemma {:induction false} SightAllAt(t: Archive, ch: ChannelId, ss: seq<Sighting>, at: int, source: Source, k: Key)
    ensures Lookup(SightAll(t, ch, ss, at, source), k)
         == if k.channel == ch then MergeAll(Lookup(t, k), Hits(ss, k.video), at, source) else Lookup(t, k)
    decreases |ss|
  {
    if ss != [] {
      var init, last := ss[..|ss| - 1], ss[|ss| - 1];
      SightAllAt(t, ch, init, at, source, k);
      var before, hits := SightAll(t, ch, init, at, source), Hits(init, k.video);
      if k == Key(ch, last.video) {
        assert Lookup(SightOne(before, ch, last, at, source), k) == Some(Merge(Lookup(before, k), last, at, source));
        assert (hits + [last])[..|hits|] == hits;
      } else {
        assert Lookup(SightOne(before, ch, last, at, source), k) == Lookup(before, k);
        assert k.channel == ch ==> Hits(ss, k.video) == hits;
      }
    }
  }

  /** Merging a run of sightings: dates keep the first value known, views the last. */
  lemma {:induction false} MergeAllIs(found: Option<Row>, hits: seq<Sighting>, at: int, source: Source)
    requires hits != []
    ensures MergeAll(found, hits, at, source) == Some(Row(
      (if found.Some? then found.value.publishedAt else None).OrElse(FirstPublished(hits)),
      (if found.Some? then found.value.publishedRaw else None).OrElse(FirstRaw(hits)),
      LastViews(hits).OrElse(if found.Some? then found.value.viewCount else None),
      if found.Some? then found.value.firstSeenAt else at, at, source, false))
    decreases |hits|
  {
    var init := hits[..|hits| - 1];
    if init != [] {
      MergeAllIs(found, init, at, source);
    } else {
      assert MergeAll(found, init, at, source) == found;
    }
  }

  lemma {:induction false} SightAllKeys(t: Archive, ch: ChannelId, ss: seq<Sighting>, at: int, source: Source)
    ensures SightAll(t, ch, ss, at, source).Keys == t.Keys + (set v | v in Listed(ss) :: Key(ch, v))
  {
    var t' := SightAll(t, ch, ss, at, source);
    forall k: Key ensures k in t' <==> k in t || (k.channel == ch && k.video in Listed(ss)) {
      SightAllAt(t, ch, ss, at, source, k);
      ListedHits(ss, k.video);
    }
    assert forall k | k in t'.Keys && k !in t :: k == Key(ch, k.video);
  }

  /** What a committed listing does to one key. */
  lemma ApplyListingAt(t: Archive, ch: ChannelId, startedAt: int, ss: seq<Sighting>, k: Key)
    ensures var t' := ApplyListing(t, ch, startedAt, ss);
            && (k.channel != ch ==> Lookup(t', k) == Lookup(t, k))
            && (k.channel == ch && k.video in Listed(ss) ==>
                 && k in t' && !t'[k].deleted
                 && Hits(ss, k.video) != []
                 && Lookup(t', k) == MergeAll(Lookup(t, k), Hits(ss, k.video), startedAt, Backfill))
            && (k.channel == ch && k.video !in Listed(ss) ==>
                 && (k in t' <==> k in t)
                 && (k in t ==> t'[k] == t[k].(deleted := t[k].deleted || t[k].firstSeenAt < startedAt)))
  {
    SightAllAt(t, ch, ss, startedAt, Backfill, k);
    ListedHits(ss, k.video);
    if Hits(ss, k.video) != [] {
      MergeAllIs(Lookup(t, k), Hits(ss, k.video), startedAt, Backfill);
    }
  }

  // ---------------------------------------------------------------------
  // Accounting for one committed listing
  // ---------------------------------------------------------------------

  function Live(t: Archive): set<Key> {
    set k | k in t && !t[k].deleted
  }

  /** The listed ids in `keep`, in listing order and with their repeats. */
  function Kept(ss: seq<Sighting>, keep: set<VideoId>): seq<VideoId> {
    if ss == [] then []
    else
      var v := ss[|ss| - 1].video;
      Kept(ss[..|ss| - 1], keep) + if v in keep then [v] else []
  }

  /** No id in `keep` is listed twice. */
  ghost predicate NoRepeat(ss: seq<Sighting>, keep: set<VideoId>) {
    forall i, j | 0 <= i < j < |ss| && ss[i].video in keep :: ss[i].video != ss[j].video
  }

  lemma ListedSnoc(ss: seq<Sighting>)
    requires ss != []
    ensures Listed(ss) == Listed(ss[..|ss| - 1]) + {ss[|ss| - 1].video}
  {
    var init := ss[..|ss| - 1];
    assert forall i | 0 <= i < |init| :: ss[i] == init[i];
  }

  lemma {:induction false} KeptAre(ss: seq<Sighting>, keep: set<VideoId>)
    ensures Elements(Kept(ss, keep)) == Listed(ss) * keep
    decreases |ss|
  {
    if ss != [] {
      var init, v := ss[..|ss| - 1], ss[|ss| - 1].video;
      KeptAre(init, keep);
      ListedSnoc(ss);
      var more := if v in keep then [v] else [];
      ElementsJoin(Kept(init, keep), more);
      assert v in keep ==> more[0] in Elements(more);
      assert Elements(more) == {v} * keep;
    }
  }

  lemma NoRepeatSnoc(ss: seq<Sighting>, keep: set<VideoId>)
    requires ss != []
    ensures var init, v := ss[..|ss| - 1], ss[|ss| - 1].video;
            NoRepeat(ss, keep) <==> NoRepeat(init, keep) && v !in Listed(init) * keep
  {
    var init, v := ss[..|ss| - 1], ss[|ss| - 1].video;
    assert forall i | 0 <= i < |init| :: init[i] == ss[i];
    if NoRepeat(ss, keep) {
      forall i, j | 0 <= i < j < |init| && init[i].video in keep ensures init[i].video != init[j].video {
        assert ss[i].video != ss[j].video;
      }
      forall i | 0 <= i < |init| && init[i].video in keep ensures init[i].video != v {
        assert ss[i].video != ss[|ss| - 1].video;
      }
    }
    if NoRepeat(init, keep) && v !in Listed(init) * keep {
      forall i, j | 0 <= i < j < |ss| && ss[i].video in keep ensures ss[i].video != ss[j].video {
        assert init[i].video in Listed(init);
        if j < |init| { assert init[i].video != init[j].video; }
      }
    }
  }

  lemma {:induction false} KeptDistinct(ss: seq<Sighting>, keep: set<VideoId>)
    ensures Distinct(Kept(ss, keep)) <==> NoRepeat(ss, keep)
    decreases |ss|
  {
    if ss != [] {
      var init, v := ss[..|ss| - 1], ss[|ss| - 1].video;
      KeptDistinct(init, keep);
      KeptAre(init, keep);
      NoRepeatSnoc(ss, keep);
      assert v in Kept(init, keep) <==> v in Elements(Kept(init, keep));
      if v in keep {
        DistinctSnoc(Kept(init, keep), v);
      } else {
        assert Kept(ss, keep) == Kept(init, keep);
      }
    }
  }

  /** The listed ids that have no row yet. */
  function Absent(t: Archive, ch: ChannelId, ss: seq<Sighting>): set<VideoId> {
    set v | v in Listed(ss) && Key(ch, v) !in t
  }

  /** The listed ids whose row is tombstoned. */
  function Tombstoned(t: Archive, ch: ChannelId, ss: seq<Sighting>): set<VideoId> {
    set v | v in Listed(ss) && Key(ch, v) in t && t[Key(ch, v)].deleted
  }

  lemma {:induction false} NewIdsAreKept(t: Archive, ch: ChannelId, ss: seq<Sighting>, keep: set<VideoId>)
    requires forall v | v in Listed(ss) :: v in keep <==> Key(ch, v) !in t
    ensures NewIds(t, ch, ss) == Kept(ss, keep)
    decreases |ss|
  {
    if ss != [] {
      ListedSnoc(ss);
      NewIdsAreKept(t, ch, ss[..|ss| - 1], keep);
      assert ss[|ss| - 1].video in Listed(ss);
    }
  }

  lemma {:induction false} RevivedIdsAreKept(t: Archive, ch: ChannelId, ss: seq<Sighting>, keep: set<VideoId>)
    requires forall v | v in Listed(ss) :: v in keep <==> Key(ch, v) in t && t[Key(ch, v)].deleted
    ensures RevivedIds(t, ch, ss) == Kept(ss, keep)
    decreases |ss|
  {
    if ss != [] {
      ListedSnoc(ss);
      RevivedIdsAreKept(t, ch, ss[..|ss| - 1], keep);
      assert ss[|ss| - 1].video in Listed(ss);
    }
  }

  /** The reported new ids are the listed ids without a row, and distinct exactly when none of those repeats. */
  lemma NewIdsAre(t: Archive, ch: ChannelId, ss: seq<Sighting>)
    ensures Elements(NewIds(t, ch, ss)) == Absent(t, ch, ss)
    ensures Distinct(NewIds(t, ch, ss)) <==> NoRepeat(ss, Absent(t, ch, ss))
  {
    var keep := Absent(t, ch, ss);
    NewIdsAreKept(t, ch, ss, keep);
    KeptAre(ss, keep);
    KeptDistinct(ss, keep);
  }

  /** The reported untombstoned ids are the listed ids with a tombstone. */
  lemma RevivedIdsAre(t: Archive, ch: ChannelId, ss: seq<Sighting>)
    ensures Elements(RevivedIds(t, ch, ss)) == Tombstoned(t, ch, ss)
    ensures Distinct(RevivedIds(t, ch, ss)) <==> NoRepeat(ss, Tombstoned(t, ch, ss))
  {
    var keep := Tombstoned(t, ch, ss);
    RevivedIdsAreKept(t, ch, ss, keep);
    KeptAre(ss, keep);
    KeptDistinct(ss, keep);
  }

  function Added(t: Archive, t': Archive): set<Key> {
    t'.Keys - t.Keys
  }

  function Revived(t: Archive, t': Archive): set<Key> {
    set k | k in t && t[k].deleted && k in t' && !t'[k].deleted
  }

  function Removed(t: Archive, t': Archive): set<Key> {
    set k | k in t && !t[k].deleted && k in t' && t'[k].deleted
  }

  lemma BalanceSizes<T>(live: set<T>, added: set<T>, revived: set<T>, removed: set<T>)
    requires removed <= live && live !! added && live !! revived && added !! revived
    ensures |live - removed + added + revived| == |live| + |added| + |revived| - |removed|
  {
    var kept := live - removed;
    assert |kept| == |live| - |removed|;
    assert |kept + added| == |kept| + |added|;
    assert |kept + added + revived| == |kept + added| + |revived|;
  }

  lemma SameSet<T>(all: set<T>, live: set<T>, added: set<T>, revived: set<T>, removed: set<T>)
    requires forall k :: k in all <==> (k in live && k !in removed) || k in added || k in revived
    ensures all == live - removed + added + revived
  {}

  lemma LiveAfter(t: Archive, t': Archive, k: Key)
    requires t.Keys <= t'.Keys
    requires forall k | k in Added(t, t') :: !t'[k].deleted
    ensures k in Live(t') <==> (k in Live(t) && k !in Removed(t, t')) || k in Added(t, t') || k in Revived(t, t')
  {
    assert k in t ==> k in t.Keys;
    assert k in t' && k !in t ==> k in Added(t, t');
  }

  lemma LiveBalance(t: Archive, t': Archive)
    requires t.Keys <= t'.Keys
    requires forall k | k in Added(t, t') :: !t'[k].deleted
    ensures |Live(t')| == |Live(t)| + |Added(t, t')| + |Revived(t, t')| - |Removed(t, t')|
  {
    var live, added, revived, removed := Live(t), Added(t, t'), Revived(t, t'), Removed(t, t');
    forall k: Key ensures k in Live(t') <==> (k in live && k !in removed) || k in added || k in revived {
      LiveAfter(t, t', k);
    }
    SameSet(Live(t'), live, added, revived, removed);
    assert removed <= live && live !! added && live !! revived && added !! revived;
    BalanceSizes(live, added, revived, removed);
  }

  lemma ListingKeys(t: Archive, ch: ChannelId, startedAt: int, ss: seq<Sighting>)
    ensures var t' := ApplyListing(t, ch, startedAt, ss);
            && t.Keys <= t'.Keys
            && Added(t, t') == (set v | v in NewIds(t, ch, ss) :: Key(ch, v))
            && (forall k | k in Added(t, t') :: !t'[k].deleted)
  {
    var t' := ApplyListing(t, ch, startedAt, ss);
    NewIdsAre(t, ch, ss);
    assert forall v :: v in NewIds(t, ch, ss) <==> v in Elements(NewIds(t, ch, ss));
    forall k: Key
      ensures k in t ==> k in t'
      ensures k in Added(t, t') <==> k.channel == ch && k.video in NewIds(t, ch, ss)
      ensures k in Added(t, t') ==> !t'[k].deleted
    {
      ApplyListingAt(t, ch, startedAt, ss, k);
    }
    assert forall k | k in Added(t, t') :: k == Key(ch, k.video);
  }

  lemma ListingFlips(t: Archive, ch: ChannelId, startedAt: int, ss: seq<Sighting>)
    ensures var t' := ApplyListing(t, ch, startedAt, ss);
            && Removed(t, t') == Unobserved(SightAll(t, ch, ss, startedAt, Backfill), ch, startedAt, Listed(ss))
            && (forall k | k in Revived(t, t') :: k.channel == ch && k.video in Listed(ss))
  {
    var t' := ApplyListing(t, ch, startedAt, ss);
    var gone := Unobserved(SightAll(t, ch, ss, startedAt, Backfill), ch, startedAt, Listed(ss));
    forall k: Key
      ensures k in gone <==> k in Removed(t, t')
      ensures k in Revived(t, t') ==> k.channel == ch && k.video in Listed(ss)
    {
      ApplyListingAt(t, ch, startedAt, ss, k);
      SightAllAt(t, ch, ss, startedAt, Backfill, k);
      ListedHits(ss, k.video);
    }
  }

  /**
   * A committed listing is fully accounted for: rows only appear, the reported
   * new ids are exactly the added keys, the rows counted as removed are exactly
   * those that went from live to tombstoned, and the live counts balance.
   */
  lemma ArchiveAccounting(t: Archive, ch: ChannelId, startedAt: int, ss: seq<Sighting>)
    ensures var t' := ApplyListing(t, ch, startedAt, ss);
            && t.Keys <= t'.Keys
            && Added(t, t') == (set v | v in NewIds(t, ch, ss) :: Key(ch, v))
            && Removed(t, t') == Unobserved(SightAll(t, ch, ss, startedAt, Backfill), ch, startedAt, Listed(ss))
            && |Live(t')| == |Live(t)| + |Added(t, t')| + |Revived(t, t')| - |Removed(t, t')|
  {
    ListingKeys(t, ch, startedAt, ss);
    ListingFlips(t, ch, startedAt, ss);
    LiveBalance(t, ApplyListing(t, ch, startedAt, ss));
  }

  /**
   * The reported number of new videos is the number of added rows exactly when
   * no video absent from the archive is listed twice.
   */
  lemma NewCountExact(t: Archive, ch: ChannelId, startedAt: int, ss: seq<Sighting>)
    ensures |Added(t, ApplyListing(t, ch, startedAt, ss))| <= |NewIds(t, ch, ss)|
    ensures |Added(t, ApplyListing(t, ch, startedAt, ss))| == |NewIds(t, ch, ss)|
       <==> NoRepeat(ss, Absent(t, ch, ss))
  {
    ListingKeys(t, ch, startedAt, ss);
    KeyCount(ch, NewIds(t, ch, ss));
    NewIdsAre(t, ch, ss);
  }

  lemma FeedKeys(t: Archive, ch: ChannelId, ss: seq<Sighting>, at: int, source: Source)
    ensures var t' := SightAll(t, ch, ss, at, source);
            && Added(t, t') == (set v | v in Absent(t, ch, ss) :: Key(ch, v))
            && Revived(t, t') == (set v | v in Tombstoned(t, ch, ss) :: Key(ch, v))
  {
    var t' := SightAll(t, ch, ss, at, source);
    forall k: Key
      ensures k in Added(t, t') <==> k.channel == ch && k.video in Absent(t, ch, ss)
      ensures k in Revived(t, t') <==> k.channel == ch && k.video in Tombstoned(t, ch, ss)
    {
      SightAllAt(t, ch, ss, at, source, k);
      ListedHits(ss, k.video);
      if Hits(ss, k.video) != [] { MergeAllIs(Lookup(t, k), Hits(ss, k.video), at, source); }
    }
    assert forall k | k in Added(t, t') + Revived(t, t') :: k == Key(ch, k.video);
  }

  /**
   * A feed batch reports at least as many inserted and untombstoned items as
   * rows appear and come back, and exactly as many if and only if no item of
   * that kind repeats in the batch.
   */
  lemma FeedCountsExact(t: Archive, ch: ChannelId, ss: seq<Sighting>, at: int, source: Source)
    ensures var t' := SightAll(t, ch, ss, at, source);
            && |Added(t, t')| <= |NewIds(t, ch, ss)|
            && (|Added(t, t')| == |NewIds(t, ch, ss)| <==> NoRepeat(ss, Absent(t, ch, ss)))
            && |Revived(t, t')| <= |RevivedIds(t, ch, ss)|
            && (|Revived(t, t')| == |RevivedIds(t, ch, ss)| <==> NoRepeat(ss, Tombstoned(t, ch, ss)))
  {
    FeedKeys(t, ch, ss, at, source);
    NewIdsAre(t, ch, ss);
    RevivedIdsAre(t, ch, ss);
    KeyCount(ch, NewIds(t, ch, ss));
    KeyCount(ch, RevivedIds(t, ch, ss));
    KeysOfElements(ch, NewIds(t, ch, ss));
    KeysOfElements(ch, RevivedIds(t, ch, ss));
  }

  /** One absent id listed twice is counted twice and adds one row. */
  lemma RepeatedIdIsCountedTwice(ch: ChannelId, startedAt: int, s: Sighting)
    ensures |NewIds(map[], ch, [s, s])| == 2 && |Added(map[], ApplyListing(map[], ch, startedAt, [s, s]))| == 1
  {
    var once, twice := [s], [s, s];
    assert once[..0] == [] && twice[..1] == once;
    assert NewIds(map[], ch, once) == NewIds(map[], ch, []) + [s.video];
    ListingKeys(map[], ch, startedAt, twice);
    assert NewIds(map[], ch, twice) == [s.video, s.video];
    assert Added(map[], ApplyListing(map[], ch, startedAt, twice)) == {Key(ch, s.video)};
  }

  lemma KeyCount(ch: ChannelId, ids: seq<VideoId>)
    ensures |set v | v in ids :: Key(ch, v)| <= |ids|
    ensures |set v | v in ids :: Key(ch, v)| == |ids| <==> Distinct(ids)
  {
    KeysOfIds(ch, Elements(ids));
    KeysOfElements(ch, ids);
    DistinctSize(ids);
  }

  lemma KeysOfElements(ch: ChannelId, ids: seq<VideoId>)
    ensures (set v | v in ids :: Key(ch, v)) == (set v | v in Elements(ids) :: Key(ch, v))
  {}

  lemma {:induction false} KeysOfIds(ch: ChannelId, ids: set<VideoId>)
    ensures |set v | v in ids :: Key(ch, v)| == |ids|
    decreases ids
  {
    if ids != {} {
      var x :| x in ids;
      KeysOfIds(ch, ids - {x});
      assert (set v | v in ids :: Key(ch, v)) == (set v | v in ids - {x} :: Key(ch, v)) + {Key(ch, x)};
    } else {
      assert (set v | v in ids :: Key(ch, v)) == {};
    }
  }

  // ---------------------------------------------------------------------
  // Histories
  // ---------------------------------------------------------------------

  /** A committed change to the archive, as either loop or a deletion makes it. */
  datatype Change =
    | Listing(channel: ChannelId, startedAt: int, entries: seq<Sighting>)
    | Feed(channel: ChannelId, now: int, source: Source, items: seq<Sighting>)
    | Drop(channels: set<ChannelId>)

  function Apply(t: Archive, e: Change): Archive {
    match e
    case Listing(ch, startedAt, entries) => ApplyListing(t, ch, startedAt, entries)
    case Feed(ch, now, source, items) => SightAll(t, ch, items, now, source)
    case Drop(chs) => map k | k in t && k.channel !in chs :: t[k]
  }

  /** The archive a history leaves, starting from the empty table. */
  function Run(h: seq<Change>): Archive {
    if h == [] then map[] else Apply(Run(h[..|h| - 1]), h[|h| - 1])
  }

  function Carried(e: Change): seq<Sighting> {
    match e
    case Listing(_, _, entries) => entries
    case Feed(_, _, _, items) => items
    case Drop(_) => []
  }

  predicate Sees(e: Change, k: Key) {
    !e.Drop? && e.channel == k.channel && k.video in Listed(Carried(e))
  }

  predicate Drops(e: Change, k: Key) {
    e.Drop? && k.channel in e.channels
  }

  /** The time stamp the event writes. */
  function TimeOf(e: Change): int {
    match e
    case Listing(_, startedAt, _) => startedAt
    case Feed(_, now, _, _) => now
    case Drop(_) => 0
  }

  function SourceOf(e: Change): Source {
    match e
    case Feed(_, _, source, _) => source
    case _ => Backfill
  }

  /** A listing of the channel that began after `firstSeenAt` and did not show the video. */
  predicate Misses(e: Change, k: Key, firstSeenAt: int) {
    e.Listing? && e.channel == k.channel && k.video !in Listed(e.entries) && firstSeenAt < e.startedAt
  }

  /** Event `i` is the first sighting of `k` since its row was last dropped (or ever). */
  ghost predicate Inserts(h: seq<Change>, k: Key, i: int) {
    && 0 <= i < |h|
    && Sees(h[i], k)
    && (forall j | i < j < |h| :: !Drops(h[j], k))
    && (forall j | 0 <= j < i && Sees(h[j], k) :: exists d :: j < d < i && Drops(h[d], k))
  }

  /** Event `j` missed the video after its insertion and nothing has sighted it since. */
  ghost predicate LeftMissing(h: seq<Change>, k: Key, i: int, j: int)
    requires 0 <= i < |h|
  {
    && i < j < |h|
    && Misses(h[j], k, TimeOf(h[i]))
    && forall m | j < m < |h| :: !Sees(h[m], k)
  }

  /** One event's effect on one key, whatever the event. */
  lemma ApplyAt(t: Archive, e: Change, k: Key)
    ensures var t' := Apply(t, e);
            && (Drops(e, k) ==> k !in t')
            && (Sees(e, k) ==>
                 && Hits(Carried(e), k.video) != []
                 && Lookup(t', k) == MergeAll(Lookup(t, k), Hits(Carried(e), k.video), TimeOf(e), SourceOf(e))
                 && k in t' && !t'[k].deleted
                 && t'[k].firstSeenAt == if k in t then t[k].firstSeenAt else TimeOf(e))
            && (!Sees(e, k) && !Drops(e, k) ==>
                 && (k in t' <==> k in t)
                 && (k in t ==> t'[k] == t[k].(deleted := t[k].deleted || Misses(e, k, t[k].firstSeenAt))))
  {
    match e
    case Listing(ch, startedAt, entries) =>
      ApplyListingAt(t, ch, startedAt, entries, k);
      if Sees(e, k) { MergeAllIs(Lookup(t, k), Hits(entries, k.video), startedAt, Backfill); }
    case Feed(ch, now, source, items) =>
      SightAllAt(t, ch, items, now, source, k);
      ListedHits(items, k.video);
      if Sees(e, k) { MergeAllIs(Lookup(t, k), Hits(items, k.video), now, source); }
    case Drop(_) =>
  }

  lemma InsertsPrefix(h: seq<Change>, k: Key, i: int)
    requires h != [] && i < |h| - 1
    ensures Inserts(h, k, i) <==> Inserts(h[..|h| - 1], k, i) && !Drops(h[|h| - 1], k)
  {
    var n := |h| - 1;
    var init := h[..n];
    assert forall j | 0 <= j < n :: init[j] == h[j];
    if Inserts(h, k, i) {
      forall j | i < j < n ensures !Drops(init[j], k) { assert !Drops(h[j], k); }
      forall j | 0 <= j < i && Sees(init[j], k) ensures exists d :: j < d < i && Drops(init[d], k) {
        assert Sees(h[j], k);
        var d :| j < d < i && Drops(h[d], k);
        assert Drops(init[d], k);
      }
    }
    if Inserts(init, k, i) && !Drops(h[n], k) {
      forall j | i < j < |h| ensures !Drops(h[j], k) { assert j < n ==> !Drops(init[j], k); }
      forall j | 0 <= j < i && Sees(h[j], k) ensures exists d :: j < d < i && Drops(h[d], k) {
        assert Sees(init[j], k);
        var d :| j < d < i && Drops(init[d], k);
        assert Drops(h[d], k);
      }
    }
  }

  /** If no row is left, every sighting was followed by a drop. */
  lemma {:induction false} NotPresentMeansDropped(h: seq<Change>, k: Key)
    requires k !in Run(h)
    ensures forall j | 0 <= j < |h| && Sees(h[j], k) :: exists d :: j < d < |h| && Drops(h[d], k)
    decreases |h|
  {
    if h != [] {
      var n := |h| - 1;
      var init, e := h[..n], h[n];
      ApplyAt(Run(init), e, k);
      assert forall j | 0 <= j < n :: init[j] == h[j];
      if !Drops(e, k) {
        NotPresentMeansDropped(init, k);
        forall j | 0 <= j < |h| && Sees(h[j], k) ensures exists d :: j < d < |h| && Drops(h[d], k) {
          var d :| j < d < n && Drops(init[d], k);
          assert Drops(h[d], k);
        }
      } else {
        forall j | 0 <= j < |h| && Sees(h[j], k) ensures exists d :: j < d < |h| && Drops(h[d], k) {
          assert j < n && Drops(h[n], k);
        }
      }
    }
  }

  /** A row exists exactly when some event inserted it and none dropped it since. */
  lemma {:induction false} PresentIffInserted(h: seq<Change>, k: Key)
    ensures k in Run(h) <==> exists i :: Inserts(h, k, i)
    decreases |h|
  {
    if h != [] {
      var n := |h| - 1;
      var init, e := h[..n], h[n];
      PresentIffInserted(init, k);
      ApplyAt(Run(init), e, k);
      if k in Run(init) && !Drops(e, k) {
        var i :| Inserts(init, k, i);
        InsertsPrefix(h, k, i);
      } else if Sees(e, k) {
        NotPresentMeansDropped(init, k);
        assert Inserts(h, k, n);
      } else if i :| Inserts(h, k, i) {
        InsertsPrefix(h, k, i);
        assert false;
      }
    }
  }

  lemma MissingPrefix(h: seq<Change>, k: Key, i: int)
    requires 0 <= i < |h| - 1
    ensures (exists j :: LeftMissing(h, k, i, j))
       <==> !Sees(h[|h| - 1], k) && (Misses(h[|h| - 1], k, TimeOf(h[i]))
                                     || var init := h[..|h| - 1]; exists j :: LeftMissing(init, k, i, j))
  {
    var n := |h| - 1;
    var init := h[..n];
    assert forall j | 0 <= j < n :: init[j] == h[j];
    if j :| LeftMissing(h, k, i, j) {
      if j < n {
        assert !Sees(h[n], k);
        assert LeftMissing(init, k, i, j);
      }
    }
    if !Sees(h[n], k) {
      if Misses(h[n], k, TimeOf(h[i])) {
        assert LeftMissing(h, k, i, n);
      } else if j :| LeftMissing(init, k, i, j) {
        assert LeftMissing(h, k, i, j);
      }
    }
  }

  /** An insertion finds no row. */
  lemma InsertionFindsNothing(h: seq<Change>, k: Key)
    requires h != [] && Inserts(h, k, |h| - 1)
    ensures k !in Run(h[..|h| - 1])
  {
    var n := |h| - 1;
    var init := h[..n];
    PresentIffInserted(init, k);
    if i :| Inserts(init, k, i) {
      assert false;
    }
  }

  /**
   * A row carries the time of the event that inserted it, and it is tombstoned
   * exactly when some listing of its channel that began after that time missed
   * it and no later event sighted it.
   */
  lemma {:induction false} TombstonedExactly(h: seq<Change>, k: Key, i: int)
    requires Inserts(h, k, i)
    ensures k in Run(h)
    ensures Run(h)[k].firstSeenAt == TimeOf(h[i])
    ensures Run(h)[k].deleted <==> exists j :: LeftMissing(h, k, i, j)
    decreases |h|
  {
    var n := |h| - 1;
    ApplyAt(Run(h[..n]), h[n], k);
    if i == n {
      InsertionFindsNothing(h, k);
    } else {
      InsertsPrefix(h, k, i);
      TombstonedExactly(h[..n], k, i);
      MissingPrefix(h, k, i);
    }
  }

  /** All sightings of `k` from event `i` on, in order. */
  function Trail(h: seq<Change>, k: Key, i: nat): seq<Sighting> {
    if |h| <= i then []
    else Trail(h[..|h| - 1], k, i) + if Sees(h[|h| - 1], k) then Hits(Carried(h[|h| - 1]), k.video) else []
  }

  /** Event `i` is the latest to sight `k`. */
  ghost predicate LastSees(h: seq<Change>, k: Key, i: int) {
    0 <= i < |h| && Sees(h[i], k) && forall j | i < j < |h| :: !Sees(h[j], k)
  }

  lemma {:induction false} JoinFirsts(a: seq<Sighting>, b: seq<Sighting>)
    ensures FirstPublished(a + b) == FirstPublished(a).OrElse(FirstPublished(b))
    ensures FirstRaw(a + b) == FirstRaw(a).OrElse(FirstRaw(b))
    ensures LastViews(a + b) == LastViews(b).OrElse(LastViews(a))
    decreases |b|
  {
    if b == [] {
      assert a + b == a;
    } else {
      var init := b[..|b| - 1];
      JoinFirsts(a, init);
      assert (a + b)[..|a + b| - 1] == a + init;
    }
  }

  /**
   * The other columns of a row: the first publish date and raw text any
   * sighting since the insertion carried, and the last view count.
   */
  lemma {:induction false} RowContents(h: seq<Change>, k: Key, i: int)
    requires Inserts(h, k, i)
    ensures k in Run(h)
    ensures Run(h)[k].publishedAt == FirstPublished(Trail(h, k, i))
    ensures Run(h)[k].publishedRaw == FirstRaw(Trail(h, k, i))
    ensures Run(h)[k].viewCount == LastViews(Trail(h, k, i))
    decreases |h|
  {
    var n := |h| - 1;
    var init, e := h[..n], h[n];
    var t := Run(init);
    var hits := Hits(Carried(e), k.video);
    ApplyAt(t, e, k);
    if Sees(e, k) {
      MergeAllIs(Lookup(t, k), hits, TimeOf(e), SourceOf(e));
    }
    if i == n {
      InsertionFindsNothing(h, k);
      assert Trail(init, k, i) == [];
      assert Trail(h, k, i) == hits;
    } else {
      InsertsPrefix(h, k, i);
      RowContents(init, k, i);
      var more := if Sees(e, k) then hits else [];
      JoinFirsts(Trail(init, k, i), more);
      assert Trail(h, k, i) == Trail(init, k, i) + more;
    }
  }

  /** What a change leaves as a row's last-seen time. */
  lemma LastSeenAfter(t: Archive, e: Change, k: Key)
    requires k in t && k in Apply(t, e)
    ensures Apply(t, e)[k].lastSeenAt == if Sees(e, k) then TimeOf(e) else t[k].lastSeenAt
  {
    ApplyAt(t, e, k);
    if Sees(e, k) {
      MergeAllIs(Lookup(t, k), Hits(Carried(e), k.video), TimeOf(e), SourceOf(e));
    }
  }

  /** A row's last-seen time and source are those of the latest sighting, even when that listing began earlier. */
  lemma {:induction false} LatestSighting(h: seq<Change>, k: Key, j: int)
    requires LastSees(h, k, j) && k in Run(h)
    ensures Run(h)[k].lastSeenAt == TimeOf(h[j]) && Run(h)[k].source == SourceOf(h[j])
    decreases |h|
  {
    var n := |h| - 1;
    var init, e := h[..n], h[n];
    ApplyAt(Run(init), e, k);
    if j == n {
      MergeAllIs(Lookup(Run(init), k), Hits(Carried(e), k.video), TimeOf(e), SourceOf(e));
    } else {
      assert LastSees(init, k, j) by {
        assert forall m | 0 <= m < n :: init[m] == h[m];
      }
      LatestSighting(init, k, j);
    }
  }
}
