/**
 * The SQLite tables as one mutable object. Each method is one service function
 * that loops, chooses or spans statements, and leaves the tables as SyncTables says.
 */
module Database {
  import opened Prelude
  import opened ChannelArchive
  import opened SyncTables

  /** Most bind parameters one statement uses. */
  const MAX_BIND_PARAMS := 900

  lemma SightAllSnoc(t: Archive, ch: ChannelId, ss: seq<Sighting>, s: Sighting, at: int, source: Source)
    ensures SightAll(t, ch, ss + [s], at, source) == SightOne(SightAll(t, ch, ss, at, source), ch, s, at, source)
    ensures NewIds(t, ch, ss + [s]) == NewIds(t, ch, ss) + if Key(ch, s.video) in t then [] else [s.video]
    ensures RevivedIds(t, ch, ss + [s])
         == RevivedIds(t, ch, ss) + if Key(ch, s.video) in t && t[Key(ch, s.video)].deleted then [s.video] else []
    ensures Listed(ss + [s]) == Listed(ss) + {s.video}
  {
    assert (ss + [s])[..|ss|] == ss;
    forall v ensures v in Listed(ss + [s]) <==> v in Listed(ss) + {s.video} {
      if v in Listed(ss) {
        var i :| 0 <= i < |ss| && ss[i].video == v;
        assert (ss + [s])[i].video == v;
      }
      assert (ss + [s])[|ss|] == s;
    }
  }

  lemma UpsertVideosSnoc(videos: map<VideoId, Video>, ms: seq<(VideoId, Meta)>, m: (VideoId, Meta))
    ensures UpsertVideos(videos, ms + [m]) == UpsertVideo(UpsertVideos(videos, ms), m.0, m.1)
  {
    assert (ms + [m])[..|ms|] == ms;
  }

  /** One more entry of a listing. */
  lemma ListingStep(t: Archive, videos: map<VideoId, Video>, ch: ChannelId, es: seq<Entry>, i: nat, at: int)
    requires i < |es|
    ensures var (e, done, next) := (es[i], OfEntries(es[..i]), OfEntries(es[..i + 1]));
            && SightAll(t, ch, next, at, Backfill)
                 == SightOne(SightAll(t, ch, done, at, Backfill), ch, OfEntry(e), at, Backfill)
            && UpsertVideos(videos, EntryMetas(ch, es[..i + 1]))
               == UpsertVideo(UpsertVideos(videos, EntryMetas(ch, es[..i])), e.video, EntryMeta(ch, e).1)
            && NewIds(t, ch, next) == NewIds(t, ch, done) + (if Key(ch, e.video) in t then [] else [e.video])
            && Listed(next) == Listed(done) + {e.video}
  {
    assert OfEntries(es[..i + 1]) == OfEntries(es[..i]) + [OfEntry(es[i])];
    assert EntryMetas(ch, es[..i + 1]) == EntryMetas(ch, es[..i]) + [EntryMeta(ch, es[i])];
    SightAllSnoc(t, ch, OfEntries(es[..i]), OfEntry(es[i]), at, Backfill);
    UpsertVideosSnoc(videos, EntryMetas(ch, es[..i]), EntryMeta(ch, es[i]));
  }

  /** One more item of a feed. */
  lemma FeedStep(
      t: Archive, videos: map<VideoId, Video>, ch: ChannelId, items: seq<Item>, i: nat, at: int, source: Source)
    requires i < |items|
    ensures var (it, done, next) := (items[i], OfItems(items[..i]), OfItems(items[..i + 1]));
            var found := Lookup(t, Key(ch, it.video));
            && SightAll(t, ch, next, at, source)
                 == SightOne(SightAll(t, ch, done, at, source), ch, OfItem(it), at, source)
            && UpsertVideos(videos, ItemMetas(ch, items[..i + 1]))
               == UpsertVideo(UpsertVideos(videos, ItemMetas(ch, items[..i])), it.video, ItemMeta(ch, it).1)
            && |NewIds(t, ch, next)| == |NewIds(t, ch, done)| + (if found.None? then 1 else 0)
            && |RevivedIds(t, ch, next)|
                 == |RevivedIds(t, ch, done)| + (if found.Some? && found.value.deleted then 1 else 0)
  {
    assert OfItems(items[..i + 1]) == OfItems(items[..i]) + [OfItem(items[i])];
    assert ItemMetas(ch, items[..i + 1]) == ItemMetas(ch, items[..i]) + [ItemMeta(ch, items[i])];
    SightAllSnoc(t, ch, OfItems(items[..i]), OfItem(items[i]), at, source);
    UpsertVideosSnoc(videos, ItemMetas(ch, items[..i]), ItemMeta(ch, items[i]));
  }

  /** Some element of a non-empty finite set of channels has the least key. */
  lemma {:induction false} LeastExists(s: set<ChannelId>, key: map<ChannelId, int>)
    requires s != {} && s <= key.Keys
    ensures exists x :: x in s && forall y | y in s :: key[x] <= key[y]
    decreases s
  {
    var x :| x in s;
    if s - {x} != {} {
      LeastExists(s - {x}, key);
      var y :| y in s - {x} && forall z | z in s - {x} :: key[y] <= key[z];
      var m := if key[x] <= key[y] then x else y;
      assert m in s && forall z | z in s :: key[m] <= key[z];
    } else {
      assert s == {x};
    }
  }

  class Database {
    var channels: map<ChannelId, Channel>
    var archive: Archive
    var videos: map<VideoId, Video>
    var allowlist: set<(int, ChannelId)>

    function Snapshot(): Db
      reads this
    {
      Db(channels, archive, videos, allowlist)
    }

    constructor ()
      ensures Snapshot() == Db(map[], map[], map[], {})
    {
      channels, archive, videos, allowlist := map[], map[], map[], {};
    }

    // -------------------------------------------------------------------
    // Backfill loop
    // -------------------------------------------------------------------

    /** Claim the longest-due claimable channel, if any. */
    method ClaimOneDue(now: int) returns (claimed: Option<ChannelId>)
      modifies this`channels
      ensures claimed.None? <==> forall x | x in old(channels) :: !Claimable(old(channels)[x], now)
      ensures claimed.None? ==> channels == old(channels)
      ensures claimed.Some? ==>
                && IsNextDue(old(channels), claimed.value, now)
                && channels == old(channels)[claimed.value := MarkClaimed(old(channels)[claimed.value], now)]
    {
      var due := set x | x in channels && Claimable(channels[x], now);
      assert forall x | x in channels && Claimable(channels[x], now) :: x in due;
      if due == {} {
        return None;
      }
      LeastExists(due, map x | x in channels :: channels[x].backfill.nextAt);
      var ch :| ch in due && forall y | y in due :: channels[ch].backfill.nextAt <= channels[y].backfill.nextAt;
      channels := channels[ch := MarkClaimed(channels[ch], now)];
      claimed := Some(ch);
    }

    /** The per-entry loop of a listing, on the transaction's view of the tables. */
    method UpsertEntries(ch: ChannelId, startedAt: int, entries: seq<Entry>)
      returns (ok: bool, txArchive: Archive, txVideos: map<VideoId, Video>, newIds: seq<VideoId>,
               observed: seq<VideoId>)
      ensures ok <==> CanStore(Snapshot(), ch, |entries|)
      ensures ok ==>
                && txArchive == SightAll(archive, ch, OfEntries(entries), startedAt, Backfill)
                && txVideos == UpsertVideos(videos, EntryMetas(ch, entries))
                && newIds == NewIds(archive, ch, OfEntries(entries))
                && Elements(observed) == Listed(OfEntries(entries))
    {
      var existing := set k | k in archive && k.channel == ch :: k.video;
      assert forall v :: v in existing <==> Key(ch, v) in archive by {
        forall v | Key(ch, v) in archive ensures v in existing { assert Key(ch, v).video == v; }
      }
      txArchive, txVideos, newIds, observed := archive, videos, [], [];
      for i := 0 to |entries|
        invariant txArchive == SightAll(archive, ch, OfEntries(entries[..i]), startedAt, Backfill)
        invariant txVideos == UpsertVideos(videos, EntryMetas(ch, entries[..i]))
        invariant newIds == NewIds(archive, ch, OfEntries(entries[..i]))
        invariant Elements(observed) == Listed(OfEntries(entries[..i]))
        invariant i > 0 ==> ch in channels
      {
        var e := entries[i];
        ListingStep(archive, videos, ch, entries, i, startedAt);
        if e.video !in existing {
          newIds := newIds + [e.video];
        }
        txVideos := UpsertVideo(txVideos, e.video, EntryMeta(ch, e).1);
        if ch !in channels {
          return false, archive, videos, [], [];
        }
        txArchive := SightOne(txArchive, ch, OfEntry(e), startedAt, Backfill);
        ElementsJoin(observed, [e.video]);
        assert Elements([e.video]) == {e.video} by { assert [e.video][0] == e.video; }
        observed := observed + [e.video];
      }
      assert entries[..|entries|] == entries;
      ok := true;
    }

    /**
     * The transaction of one successful listing: upsert every entry, stage the
     * observed ids in chunks, tombstone what was not observed. Nothing changes
     * when the foreign key fails.
     */
    method CommitListing(ch: ChannelId, startedAt: int, entries: seq<Entry>)
      returns (ok: bool, newIds: seq<VideoId>, removedCount: nat)
      modifies this`archive, this`videos
      ensures ok <==> CanStore(old(Snapshot()), ch, |entries|)
      ensures Snapshot() == StoreListing(old(Snapshot()), ch, startedAt, entries)
      ensures ok ==> newIds == NewIds(old(archive), ch, OfEntries(entries))
                     && removedCount == |Removed(old(archive), archive)|
    {
      var txArchive, txVideos, observed;
      ok, txArchive, txVideos, newIds, observed := UpsertEntries(ch, startedAt, entries);
      removedCount := 0;
      if ok {
        var staged := Stage(observed, MAX_BIND_PARAMS);
        var gone := Unobserved(txArchive, ch, startedAt, staged);
        ArchiveAccounting(archive, ch, startedAt, OfEntries(entries));
        archive, videos := Tombstone(txArchive, gone), txVideos;
        removedCount := |gone|;
      }
    }

    /** Multi-row inserts of at most `chunkSize` ids each stage exactly the given ids. */
    method Stage(ids: seq<VideoId>, chunkSize: nat) returns (staged: set<VideoId>)
      requires chunkSize > 0
      ensures staged == Elements(ids)
    {
      staged := {};
      var from := 0;
      while from < |ids|
        invariant 0 <= from <= |ids|
        invariant staged == Elements(ids[..from])
      {
        var to := Min(from + chunkSize, |ids|);
        ElementsJoin(ids[..from], ids[from..to]);
        assert ids[..from] + ids[from..to] == ids[..to];
        staged := staged + Elements(ids[from..to]);
        from := to;
      }
      assert ids[..|ids|] == ids;
    }

    /** The status write that follows a committed listing. */
    method FinishListing(ch: ChannelId, now: int, nextAt: int, observed: int, added: int, removed: int)
      modifies this`channels
      ensures Snapshot() == if ch in old(channels)
                            then SetChannel(old(Snapshot()), ch,
                                            MarkFinished(old(channels)[ch], now, nextAt, observed, added, removed))
                            else old(Snapshot())
    {
      if ch in channels {
        channels := channels[ch := MarkFinished(channels[ch], now, nextAt, observed, added, removed)];
      }
    }

    /** A whole successful run: commit the listing, then release the channel. */
    method ApplyBackfillEntries(ch: ChannelId, startedAt: int, entries: seq<Entry>, now: int, delay: int)
      returns (r: Result<seq<VideoId>>)
      modifies this
      ensures r.Ok? <==> CanStore(old(Snapshot()), ch, |entries|)
      ensures r.Err? ==> Snapshot() == old(Snapshot())
      ensures r.Ok? ==> r.value == NewIds(old(archive), ch, OfEntries(entries))
      ensures r.Ok? ==>
                var stored := StoreListing(old(Snapshot()), ch, startedAt, entries);
                Snapshot() == if ch in stored.channels
                              then SetChannel(stored, ch, MarkFinished(stored.channels[ch], now, now + delay, |entries|,
                                              |NewIds(old(archive), ch, OfEntries(entries))|,
                                              |Removed(old(archive), stored.archive)|))
                              else stored
    {
      var ok, newIds, removedCount := CommitListing(ch, startedAt, entries);
      if !ok {
        return Err;
      }
      FinishListing(ch, now, now + delay, |entries|, |newIds|, removedCount);
      r := Ok(newIds);
    }

    // -------------------------------------------------------------------
    // Freshness loop
    // -------------------------------------------------------------------

    /** The `limit` candidates with the earliest times. */
    method PickEarliest(candidates: set<ChannelId>, times: map<ChannelId, int>, limit: nat)
      returns (batch: set<ChannelId>)
      requires candidates <= times.Keys
      ensures batch <= candidates
      ensures |batch| == Min(limit, |candidates|)
      ensures forall x, y | x in batch && y in candidates - batch :: times[x] <= times[y]
    {
      var rest := candidates;
      batch := {};
      while |batch| < limit && rest != {}
        invariant rest <= candidates && batch == candidates - rest
        invariant |batch| <= limit
        invariant forall x, y | x in batch && y in rest :: times[x] <= times[y]
        decreases rest
      {
        LeastExists(rest, times);
        var x :| x in rest && forall y | y in rest :: times[x] <= times[y];
        batch, rest := batch + {x}, rest - {x};
      }
      assert candidates - batch == rest;
      SubsetSize(batch, candidates);
    }

    /** Claim and lease the `limit` longest-due channels. */
    method ClaimDueSources(now: int, limit: nat, leaseSecs: int) returns (due: map<ChannelId, Due>)
      modifies this`channels
      ensures IsBatch(old(channels), now, limit, due.Keys)
      ensures forall x | x in due :: due[x] == DueOf(old(channels)[x])
      ensures channels == Lease(old(channels), due.Keys, now + leaseSecs)
    {
      var batch := PickEarliest(DueSet(channels, now), map x | x in channels :: channels[x].feed.nextPollAt, limit);
      due := map x | x in batch :: DueOf(channels[x]);
      assert due.Keys == batch;
      channels := Lease(channels, batch, now + leaseSecs);
    }

    /** The per-item loop of a feed upsert, with its counts by the archive as it was before. */
    method UpsertFeedItems(ch: ChannelId, items: seq<Item>, now: int, source: Source)
      returns (ok: bool, txArchive: Archive, txVideos: map<VideoId, Video>, inserted: nat, updated: nat,
               untombstoned: nat)
      ensures ok <==> CanStore(Snapshot(), ch, |items|)
      ensures ok ==>
                && txArchive == SightAll(archive, ch, OfItems(items), now, source)
                && txVideos == UpsertVideos(videos, ItemMetas(ch, items))
                && inserted == |NewIds(archive, ch, OfItems(items))|
                && untombstoned == |RevivedIds(archive, ch, OfItems(items))|
                && inserted + updated + untombstoned == |items|
    {
      txArchive, txVideos := archive, videos;
      inserted, updated, untombstoned := 0, 0, 0;
      for i := 0 to |items|
        invariant txArchive == SightAll(archive, ch, OfItems(items[..i]), now, source)
        invariant txVideos == UpsertVideos(videos, ItemMetas(ch, items[..i]))
        invariant inserted == |NewIds(archive, ch, OfItems(items[..i]))|
        invariant untombstoned == |RevivedIds(archive, ch, OfItems(items[..i]))|
        invariant inserted + updated + untombstoned == i
        invariant i > 0 ==> ch in channels
      {
        var it := items[i];
        FeedStep(archive, videos, ch, items, i, now, source);
        txVideos := UpsertVideo(txVideos, it.video, ItemMeta(ch, it).1);
        if ch !in channels {
          return false, archive, videos, 0, 0, 0;
        }
        txArchive := SightOne(txArchive, ch, OfItem(it), now, source);
        match Lookup(archive, Key(ch, it.video)) {
          case None => inserted := inserted + 1;
          case Some(row) => if row.deleted { untombstoned := untombstoned + 1; } else { updated := updated + 1; }
        }
      }
      assert items[..|items|] == items;
      ok := true;
    }

    /** Upsert a batch of feed items and pass the feed's channel title on. */
    method UpsertChannelVideos(ch: ChannelId, items: seq<Item>, now: int, source: Source)
      returns (ok: bool, inserted: nat, updated: nat, untombstoned: nat)
      modifies this
      ensures ok <==> CanStore(old(Snapshot()), ch, |items|)
      ensures Snapshot() == StoreItems(old(Snapshot()), ch, items, now, source)
      ensures ok ==> inserted == |NewIds(old(archive), ch, OfItems(items))|
                     && untombstoned == |RevivedIds(old(archive), ch, OfItems(items))|
                     && inserted + updated + untombstoned == |items|
    {
      var txArchive, txVideos;
      ok, txArchive, txVideos, inserted, updated, untombstoned := UpsertFeedItems(ch, items, now, source);
      if ok && items != [] {
        var title := FeedTitle(items);
        if title.Some? {
          channels := channels[ch := channels[ch].(title := title)];
        } else {
          assert channels == channels[ch := channels[ch].(title := channels[ch].title)];
        }
        archive, videos := txArchive, txVideos;
      }
    }

    /** The channel's latest live publish date decides its fallback interval. */
    method EffectiveSidecarMinInterval(ch: ChannelId, cfg: Config, now: int) returns (secs: nat)
      ensures secs == EffectiveInterval(archive, ch, cfg, now)
    {
      var rows := set k | k in archive && k.channel == ch && !archive[k].deleted && archive[k].publishedAt.Some?;
      var rest, best := rows, None;
      while rest != {}
        invariant rest <= rows
        invariant best.None? ==> rest == rows
        invariant best.Some? ==> exists k :: k in rows && archive[k].publishedAt == best
        invariant forall k | k in rows - rest :: best.Some? && archive[k].publishedAt.value <= best.value
        decreases rest
      {
        var k :| k in rest;
        var at := archive[k].publishedAt;
        if best.None? || at.value > best.value {
          best := at;
        }
        rest := rest - {k};
      }
      if best.None? {
        assert forall k | k in archive && k.channel == ch && !archive[k].deleted
               && archive[k].publishedAt.Some? :: k in rows;
        return cfg.archivedInterval;
      }
      var days := Max(now - best.value, 0) / 86_400;
      LatestDecides(archive, ch, now, cfg.dormantDays, best.value, days);
      LatestDecides(archive, ch, now, cfg.archivedDays, best.value, days);
      secs := if days <= cfg.dormantDays then cfg.activeInterval
              else if days <= cfg.archivedDays then cfg.dormantInterval
              else cfg.archivedInterval;
    }

    // -------------------------------------------------------------------
    // The allowlist
    // -------------------------------------------------------------------

    /** Remove one child's allowlist entry and, if it was the last, the channel and its archive. */
    method DeleteChannel(child: int, ch: ChannelId)
      modifies this
      ensures Snapshot() == Disallow(old(Snapshot()), child, ch)
    {
      allowlist := allowlist - {(child, ch)};
      var stillUsed := |set p | p in allowlist && p.1 == ch|;
      assert stillUsed == 0 <==> ch !in Allowed(allowlist) by {
        var ps := set p | p in allowlist && p.1 == ch;
        if ch in Allowed(allowlist) {
          var p :| p in allowlist && p.1 == ch;
          assert p in ps;
        }
        if ps != {} {
          var p :| p in ps;
          assert p.1 in Allowed(allowlist);
        }
      }
      if stillUsed == 0 {
        archive := map k | k in archive && k.channel != ch :: archive[k];
        channels := channels - {ch};
      }
    }

    /** Seed a row for every allowlisted channel, then delete the others. */
    method ReconcileWithAllowlist()
      modifies this
      ensures Snapshot() == Reconcile(old(Snapshot()))
    {
      var keep := Allowed(allowlist);
      var seeded := map x | x in channels.Keys + keep :: if x in channels then channels[x] else NewChannel(None);
      archive := KeepOnly(archive, keep);
      channels := map x | x in seeded && x in keep :: seeded[x];
      assert channels == map x | x in keep :: if x in old(channels) then old(channels)[x] else NewChannel(None);
    }
  }

  /** The latest publish date is within `days` exactly when some publish date is. */
  lemma LatestDecides(archive: Archive, ch: ChannelId, now: int, days: nat, latest: int, age: int)
    requires exists k ::
               k in archive && k.channel == ch && !archive[k].deleted && archive[k].publishedAt == Some(latest)
    requires forall k | k in archive && k.channel == ch && !archive[k].deleted && archive[k].publishedAt.Some? ::
               archive[k].publishedAt.value <= latest
    requires age == Max(now - latest, 0) / 86_400
    ensures PublishedWithin(archive, ch, now, days) <==> age <= days
  {
    var l :| l in archive && l.channel == ch && !archive[l].deleted && archive[l].publishedAt == Some(latest);
    if k :| k in archive && k.channel == ch && !archive[k].deleted && archive[k].publishedAt.Some?
            && Max(now - archive[k].publishedAt.value, 0) / 86_400 <= days {
      assert Max(now - archive[k].publishedAt.value, 0) >= Max(now - latest, 0);
    }
  }
}
