/** The query behind a child's feed of new videos. */
module NewVideos {
  import opened Prelude
  import opened Access

  /** A row of the `candidates` table as its joins build it up. */
  datatype Candidate = Candidate(
    row: ArchiveRow,
    video: Option<VideoRow>,
    channel: Option<ChannelRow>,
    allowed: Option<ChildChannel>)

  predicate OnVideo(c: Candidate, r: VideoRow) { r.video == c.row.video }
  predicate OnChannel(c: Candidate, r: ChannelRow) { r.channel == c.row.channel }
  predicate OnAllowed(c: Candidate, r: ChildChannel) { r.channel == c.row.channel }
  predicate IsOwned(child: ChildId, r: ChildChannel) { r.child == child }

  function PutVideo(c: Candidate, r: Option<VideoRow>): Candidate { c.(video := r) }
  function PutChannel(c: Candidate, r: Option<ChannelRow>): Candidate { c.(channel := r) }
  function PutAllowed(c: Candidate, r: Option<ChildChannel>): Candidate { c.(allowed := r) }

  function Bare(archive: seq<ArchiveRow>): (r: seq<Candidate>)
    ensures |r| == |archive|
  {
    if archive == [] then [] else [Candidate(archive[0], None, None, None)] + Bare(archive[1..])
  }

  /** The WHERE clause. */
  predicate Passes(db: Tables, child: ChildId, c: Candidate) {
    && !c.row.deleted
    && CountVideo(db.blocked, child, c.row.video) == 0
    && CountVideo(db.hidden, child, c.row.video) == 0
  }

  function Passing(db: Tables, child: ChildId, cs: seq<Candidate>): seq<Candidate> {
    if cs == [] then []
    else if Passes(db, child, cs[0]) then [cs[0]] + Passing(db, child, cs[1..])
    else Passing(db, child, cs[1..])
  }

  function Candidates(db: Tables, child: ChildId): seq<Candidate> {
    var withVideo := InnerJoin(Bare(db.archive), db.videos, OnVideo, PutVideo);
    var withChannel := LeftJoin(withVideo, db.channels, OnChannel, PutChannel);
    var allowed := Matches(child, db.allowedChannels, IsOwned);
    Passing(db, child, InnerJoin(withChannel, allowed, OnAllowed, PutAllowed))
  }

  // ---------------------------------------------------------------------
  // Order and row numbers
  // ---------------------------------------------------------------------

  /** COALESCE(published_at, last_seen_at). */
  function Date(r: ArchiveRow): int {
    r.publishedAt.GetOr(r.lastSeenAt)
  }

  /** `p` sorts strictly ahead of `q`: newer, or as new and seen later. */
  predicate Ahead(p: ArchiveRow, q: ArchiveRow) {
    Date(p) > Date(q) || (Date(p) == Date(q) && p.lastSeenAt > q.lastSeenAt)
  }

  ghost predicate HasNumber(cs: seq<Candidate>, rn: seq<nat>, video: VideoId, n: nat) {
    exists j :: 0 <= j < |cs| && j < |rn| && cs[j].row.video == video && rn[j] == n
  }

  /**
   * `rn` numbers the candidates of each video from 1 in the order of
   * `Ahead`; rows that tie may be numbered either way.
   */
  ghost predicate IsRowNumbering(cs: seq<Candidate>, rn: seq<nat>) {
    && |rn| == |cs|
    && (forall i | 0 <= i < |cs| :: rn[i] > 0)
    && (forall i, j | 0 <= i < j < |cs| && cs[i].row.video == cs[j].row.video :: rn[i] != rn[j])
    && (forall i, j | 0 <= i < |cs| && 0 <= j < |cs| && cs[i].row.video == cs[j].row.video
            && Ahead(cs[i].row, cs[j].row) :: rn[i] < rn[j])
    && (forall i | 0 <= i < |cs| && rn[i] > 1 :: HasNumber(cs, rn, cs[i].row.video, rn[i] - 1))
  }

  /** WHERE rn = 1. */
  function Heads(cs: seq<Candidate>, rn: seq<nat>): seq<Candidate>
    requires |rn| == |cs|
  {
    if cs == [] then []
    else if rn[0] == 1 then [cs[0]] + Heads(cs[1..], rn[1..])
    else Heads(cs[1..], rn[1..])
  }

  ghost predicate IsOrdered(cs: seq<Candidate>) {
    forall i, j | 0 <= i < j < |cs| :: !Ahead(cs[j].row, cs[i].row)
  }

  /** An answer the query may give: some numbering, some order among ties, cut at the limit. */
  ghost predicate IsAnswer(
      db: Tables, child: ChildId, limit: nat, rn: seq<nat>, ordered: seq<Candidate>, out: seq<Candidate>) {
    && IsRowNumbering(Candidates(db, child), rn)
    && multiset(ordered) == multiset(Heads(Candidates(db, child), rn))
    && IsOrdered(ordered)
    && out == ordered[..Min(limit, |ordered|)]
  }

  // ---------------------------------------------------------------------
  // What the candidates are
  // ---------------------------------------------------------------------

  /** A live row of an allowlisted channel whose video the child may view through that channel. */
  ghost predicate Eligible(db: Tables, child: ChildId, a: ArchiveRow) {
    && a in db.archive && !a.deleted
    && ListsChannel(db.allowedChannels, child, a.channel)
    && CanChildView(db, child, a.video, Some(a.channel))
  }

  ghost predicate HasRow(cs: seq<Candidate>, a: ArchiveRow) {
    exists c :: c in cs && c.row == a
  }

  lemma {:induction false} BareHas(archive: seq<ArchiveRow>, c: Candidate)
    ensures c in Bare(archive) <==> c.row in archive && c == Candidate(c.row, None, None, None)
    decreases |archive|
  {
    if archive != [] {
      BareHas(archive[1..], c);
      assert c.row in archive <==> c.row == archive[0] || c.row in archive[1..];
    }
  }

  lemma {:induction false} PassingHas(db: Tables, child: ChildId, cs: seq<Candidate>, c: Candidate)
    ensures c in Passing(db, child, cs) <==> c in cs && Passes(db, child, c)
    decreases |cs|
  {
    if cs != [] {
      PassingHas(db, child, cs[1..], c);
    }
  }

  /** The LEFT JOIN with the channels drops no row and invents none. */
  lemma {:induction false} LeftJoinRows(cs: seq<Candidate>, table: seq<ChannelRow>, a: ArchiveRow)
    ensures HasRow(LeftJoin(cs, table, OnChannel, PutChannel), a) <==> HasRow(cs, a)
    decreases |cs|
  {
    if cs != [] {
      var out, rest := LeftJoin(cs, table, OnChannel, PutChannel), LeftJoin(cs[1..], table, OnChannel, PutChannel);
      var found := Matches(cs[0], table, OnChannel);
      var first := if found == [] then [PutChannel(cs[0], None)] else PutEach(cs[0], found, PutChannel);
      LeftJoinRows(cs[1..], table, a);
      forall c | c in first ensures c.row == cs[0].row {
        PutEachHas(cs[0], found, PutChannel, c);
      }
      assert first[0] in out && first[0].row == cs[0].row;
      assert HasRow(out, a) <==> cs[0].row == a || HasRow(rest, a) by {
        assert forall c :: c in out <==> c in first || c in rest;
      }
      assert HasRow(cs, a) <==> cs[0].row == a || HasRow(cs[1..], a) by {
        assert forall c :: c in cs <==> c == cs[0] || c in cs[1..];
      }
    }
  }

  lemma VideoJoinRows(db: Tables, a: ArchiveRow)
    requires Valid(db)
    ensures HasRow(InnerJoin(Bare(db.archive), db.videos, OnVideo, PutVideo), a) <==> a in db.archive
  {
    var bare := Bare(db.archive);
    var out := InnerJoin(bare, db.videos, OnVideo, PutVideo);
    if a in db.archive {
      var v :| v in db.videos && v.video == a.video;
      var c := Candidate(a, None, None, None);
      BareHas(db.archive, c);
      InnerJoinHas(bare, db.videos, OnVideo, PutVideo, PutVideo(c, Some(v)));
      assert IsPair(c, db.videos, OnVideo, PutVideo, PutVideo(c, Some(v)));
    }
    if HasRow(out, a) {
      var x :| x in out && x.row == a;
      InnerJoinHas(bare, db.videos, OnVideo, PutVideo, x);
      var c :| c in bare && IsPair(c, db.videos, OnVideo, PutVideo, x);
      BareHas(db.archive, c);
    }
  }

  lemma AllowedJoinRows(cs: seq<Candidate>, db: Tables, child: ChildId, a: ArchiveRow)
    ensures HasRow(InnerJoin(cs, Matches(child, db.allowedChannels, IsOwned), OnAllowed, PutAllowed), a)
       <==> HasRow(cs, a) && ListsChannel(db.allowedChannels, child, a.channel)
  {
    var allowed := Matches(child, db.allowedChannels, IsOwned);
    var out := InnerJoin(cs, allowed, OnAllowed, PutAllowed);
    if HasRow(cs, a) && ListsChannel(db.allowedChannels, child, a.channel) {
      var c :| c in cs && c.row == a;
      var r :| r in db.allowedChannels && r.child == child && r.channel == a.channel;
      MatchesAre(child, db.allowedChannels, IsOwned, r);
      assert r in allowed && OnAllowed(c, r);
      InnerJoinHas(cs, allowed, OnAllowed, PutAllowed, PutAllowed(c, Some(r)));
      assert IsPair(c, allowed, OnAllowed, PutAllowed, PutAllowed(c, Some(r)));
    }
    if HasRow(out, a) {
      var x :| x in out && x.row == a;
      InnerJoinHas(cs, allowed, OnAllowed, PutAllowed, x);
      var c :| c in cs && IsPair(c, allowed, OnAllowed, PutAllowed, x);
      var r :| r in allowed && OnAllowed(c, r) && x == PutAllowed(c, Some(r));
      MatchesAre(child, db.allowedChannels, IsOwned, r);
    }
  }

  /** The joins and the WHERE clause let through exactly the rows the access rule does. */
  lemma CandidatesAreEligible(db: Tables, child: ChildId, a: ArchiveRow)
    requires Valid(db)
    ensures HasRow(Candidates(db, child), a) <==> Eligible(db, child, a)
  {
    var withVideo := InnerJoin(Bare(db.archive), db.videos, OnVideo, PutVideo);
    var withChannel := LeftJoin(withVideo, db.channels, OnChannel, PutChannel);
    var joined := InnerJoin(withChannel, Matches(child, db.allowedChannels, IsOwned), OnAllowed, PutAllowed);
    VideoJoinRows(db, a);
    LeftJoinRows(withVideo, db.channels, a);
    AllowedJoinRows(withChannel, db, child, a);
    CountVideoDecides(db.blocked, child, a.video);
    CountVideoDecides(db.hidden, child, a.video);
    RuleIs(db, child, a.video, Some(a.channel));
    if HasRow(joined, a) {
      var c :| c in joined && c.row == a;
      PassingHas(db, child, joined, c);
    }
    if HasRow(Passing(db, child, joined), a) {
      var c :| c in Passing(db, child, joined) && c.row == a;
      PassingHas(db, child, joined, c);
    }
  }

  /** What was joined to a candidate belongs to its row: the video, the channel if known, the allowlist entry. */
  ghost predicate CarriesItsOwn(db: Tables, child: ChildId, c: Candidate) {
    && c.video.Some? && c.video.value in db.videos && c.video.value.video == c.row.video
    && (if exists r :: r in db.channels && r.channel == c.row.channel
        then c.channel.Some? && c.channel.value in db.channels && c.channel.value.channel == c.row.channel
        else c.channel.None?)
    && c.allowed.Some? && c.allowed.value in db.allowedChannels
    && c.allowed.value.child == child && c.allowed.value.channel == c.row.channel
  }

  lemma {:induction false} LeftJoinHas(cs: seq<Candidate>, table: seq<ChannelRow>, x: Candidate)
    requires x in LeftJoin(cs, table, OnChannel, PutChannel)
    ensures exists c :: c in cs && (IsPair(c, table, OnChannel, PutChannel, x)
                                    || (x == c.(channel := None) && forall r | r in table :: !OnChannel(c, r)))
    decreases |cs|
  {
    var found := Matches(cs[0], table, OnChannel);
    if x in LeftJoin(cs[1..], table, OnChannel, PutChannel) {
      LeftJoinHas(cs[1..], table, x);
    } else if found == [] {
      forall r | r in table ensures !OnChannel(cs[0], r) { MatchesAre(cs[0], table, OnChannel, r); }
    } else {
      PairsAre(cs[0], table, OnChannel, PutChannel, x);
    }
  }

  /** A candidate shows the title of its own video and of its own channel. */
  lemma CandidatesCarryTheirOwn(db: Tables, child: ChildId, x: Candidate)
    requires x in Candidates(db, child)
    ensures CarriesItsOwn(db, child, x)
  {
    var withVideo := InnerJoin(Bare(db.archive), db.videos, OnVideo, PutVideo);
    var withChannel := LeftJoin(withVideo, db.channels, OnChannel, PutChannel);
    var allowed := Matches(child, db.allowedChannels, IsOwned);
    PassingHas(db, child, InnerJoin(withChannel, allowed, OnAllowed, PutAllowed), x);
    InnerJoinHas(withChannel, allowed, OnAllowed, PutAllowed, x);
    var c :| c in withChannel && IsPair(c, allowed, OnAllowed, PutAllowed, x);
    var r :| r in allowed && OnAllowed(c, r) && x == PutAllowed(c, Some(r));
    MatchesAre(child, db.allowedChannels, IsOwned, r);
    LeftJoinHas(withVideo, db.channels, c);
    var b :| b in withVideo && (IsPair(b, db.channels, OnChannel, PutChannel, c)
                                || (c == b.(channel := None) && forall r | r in db.channels :: !OnChannel(b, r)));
    InnerJoinHas(Bare(db.archive), db.videos, OnVideo, PutVideo, b);
  }

  // ---------------------------------------------------------------------
  // What the row numbers pick
  // ---------------------------------------------------------------------

  function VideoOf(c: Candidate): VideoId { c.row.video }

  lemma {:induction false} HeadsAre(cs: seq<Candidate>, rn: seq<nat>, h: Candidate)
    requires |rn| == |cs|
    ensures h in Heads(cs, rn) <==> exists i :: 0 <= i < |cs| && cs[i] == h && rn[i] == 1
    decreases |cs|
  {
    if cs != [] {
      HeadsAre(cs[1..], rn[1..], h);
      if i :| 0 <= i < |cs| && cs[i] == h && rn[i] == 1 {
        if i > 0 {
          assert cs[1..][i - 1] == h && rn[1..][i - 1] == 1;
        }
      }
      if i :| 0 <= i < |cs| - 1 && cs[1..][i] == h && rn[1..][i] == 1 {
        assert cs[i + 1] == h && rn[i + 1] == 1;
      }
    }
  }

  ghost predicate OnePerVideo(cs: seq<Candidate>, rn: seq<nat>) {
    |rn| == |cs| && forall i, j | 0 <= i < j < |cs| && cs[i].row.video == cs[j].row.video :: rn[i] != rn[j]
  }

  /** No video has two rows numbered 1. */
  lemma {:induction false} HeadsAreDistinct(cs: seq<Candidate>, rn: seq<nat>)
    requires OnePerVideo(cs, rn)
    ensures Unique(Heads(cs, rn), VideoOf)
    decreases |cs|
  {
    if cs != [] {
      var rest := Heads(cs[1..], rn[1..]);
      HeadsAreDistinct(cs[1..], rn[1..]);
      if rn[0] == 1 {
        forall j | 0 <= j < |rest| ensures VideoOf(rest[j]) != VideoOf(cs[0]) {
          HeadsAre(cs[1..], rn[1..], rest[j]);
          var i :| 0 <= i < |cs| - 1 && cs[1..][i] == rest[j] && rn[1..][i] == 1;
          assert cs[i + 1] == rest[j] && rn[i + 1] == 1;
        }
      }
    }
  }

  /** Every video with a candidate has one numbered 1. */
  lemma {:induction false} HeadExists(cs: seq<Candidate>, rn: seq<nat>, i: nat) returns (h: nat)
    requires IsRowNumbering(cs, rn) && i < |cs|
    ensures h < |cs| && cs[h].row.video == cs[i].row.video && rn[h] == 1
    decreases rn[i]
  {
    if rn[i] == 1 {
      h := i;
    } else {
      assert HasNumber(cs, rn, cs[i].row.video, rn[i] - 1);
      var j :| 0 <= j < |cs| && cs[j].row.video == cs[i].row.video && rn[j] == rn[i] - 1;
      h := HeadExists(cs, rn, j);
    }
  }

  lemma {:induction false} CountedOnce(s: seq<Candidate>, x: Candidate)
    requires Unique(s, VideoOf)
    ensures multiset(s)[x] <= 1
    decreases |s|
  {
    if s != [] {
      assert s == [s[0]] + s[1..];
      CountedOnce(s[1..], x);
      forall j | 0 <= j < |s| - 1 ensures s[1..][j] != s[0] {
        assert VideoOf(s[j + 1]) != VideoOf(s[0]);
      }
    }
  }

  /** Reordering keeps videos apart. */
  lemma ReorderedStaysDistinct(a: seq<Candidate>, b: seq<Candidate>)
    requires Unique(a, VideoOf) && multiset(a) == multiset(b)
    ensures Unique(b, VideoOf)
  {
    forall i, j | 0 <= i < j < |b| ensures VideoOf(b[i]) != VideoOf(b[j]) {
      assert b[i] in multiset(a) && b[j] in multiset(a);
      if b[i] == b[j] {
        assert b == b[..j] + b[j..] && b[i] in b[..j] && b[j] in b[j..];
        CountedOnce(a, b[i]);
      }
    }
  }

  // ---------------------------------------------------------------------
  // The answer
  // ---------------------------------------------------------------------

  ghost predicate Offers(out: seq<Candidate>, video: VideoId) {
    exists i :: 0 <= i < |out| && out[i].row.video == video
  }

  /** No eligible row of the same video is strictly ahead. */
  ghost predicate IsNewest(db: Tables, child: ChildId, r: ArchiveRow) {
    && Eligible(db, child, r)
    && forall a | Eligible(db, child, a) && a.video == r.video :: !Ahead(a, r)
  }

  /** A row numbered 1 is not behind another row of its video. */
  lemma FirstIsUnbeaten(cs: seq<Candidate>, rn: seq<nat>, i: nat, c: Candidate)
    requires IsRowNumbering(cs, rn) && i < |cs| && rn[i] == 1
    requires c in cs && c.row.video == cs[i].row.video
    ensures !Ahead(c.row, cs[i].row)
  {
    var j :| 0 <= j < |cs| && cs[j] == c;
    assert !(rn[j] < rn[i]);
  }

  lemma HeadIsNewest(db: Tables, child: ChildId, rn: seq<nat>, h: Candidate)
    requires Valid(db) && IsRowNumbering(Candidates(db, child), rn)
    requires h in Heads(Candidates(db, child), rn)
    ensures IsNewest(db, child, h.row)
  {
    var cs := Candidates(db, child);
    HeadsAre(cs, rn, h);
    var i :| 0 <= i < |cs| && cs[i] == h && rn[i] == 1;
    CandidatesAreEligible(db, child, h.row);
    forall a | Eligible(db, child, a) && a.video == h.row.video ensures !Ahead(a, h.row) {
      CandidatesAreEligible(db, child, a);
      var c :| c in cs && c.row == a;
      FirstIsUnbeaten(cs, rn, i, c);
    }
  }

  lemma HeadOfRow(cs: seq<Candidate>, rn: seq<nat>, a: ArchiveRow) returns (h: Candidate)
    requires IsRowNumbering(cs, rn) && HasRow(cs, a)
    ensures h in Heads(cs, rn) && h.row.video == a.video
  {
    var c :| c in cs && c.row == a;
    var i :| 0 <= i < |cs| && cs[i] == c;
    var k := HeadExists(cs, rn, i);
    h := cs[k];
    HeadsAre(cs, rn, h);
  }

  lemma EligibleHasHead(db: Tables, child: ChildId, rn: seq<nat>, a: ArchiveRow) returns (h: Candidate)
    requires Valid(db) && IsRowNumbering(Candidates(db, child), rn) && Eligible(db, child, a)
    ensures h in Heads(Candidates(db, child), rn) && h.row.video == a.video
  {
    CandidatesAreEligible(db, child, a);
    h := HeadOfRow(Candidates(db, child), rn, a);
  }

  /**
   * The feed names each video once and newest first, by COALESCE(published_at,
   * last_seen_at) and then last_seen_at, each by an eligible row that no other
   * eligible row of the video is newer than.
   */
  lemma FeedRowsAreNewest(
      db: Tables, child: ChildId, limit: nat, rn: seq<nat>, ordered: seq<Candidate>, out: seq<Candidate>)
    requires Valid(db) && IsAnswer(db, child, limit, rn, ordered, out)
    ensures Unique(out, VideoOf)
    ensures forall i | 0 <= i < |out| :: Eligible(db, child, out[i].row) && CarriesItsOwn(db, child, out[i])
    ensures forall i, j | 0 <= i < j < |out| ::
              var (p, q) := (out[i].row, out[j].row);
              var (d, d') := (p.publishedAt.GetOr(p.lastSeenAt), q.publishedAt.GetOr(q.lastSeenAt));
              d > d' || (d == d' && p.lastSeenAt >= q.lastSeenAt)
    ensures forall i, a | 0 <= i < |out| && Eligible(db, child, a) && a.video == out[i].row.video ::
              var p := out[i].row;
              var (d, d') := (p.publishedAt.GetOr(p.lastSeenAt), a.publishedAt.GetOr(a.lastSeenAt));
              d > d' || (d == d' && p.lastSeenAt >= a.lastSeenAt)
  {
    var cs := Candidates(db, child);
    HeadsAreDistinct(cs, rn);
    ReorderedStaysDistinct(Heads(cs, rn), ordered);
    forall i | 0 <= i < |out| ensures IsNewest(db, child, out[i].row) && CarriesItsOwn(db, child, out[i]) {
      assert ordered[i] in multiset(Heads(cs, rn));
      HeadIsNewest(db, child, rn, out[i]);
      HeadsAre(cs, rn, out[i]);
      CandidatesCarryTheirOwn(db, child, out[i]);
    }
    assert IsOrdered(out);
  }

  lemma KeptOrCut(ordered: seq<Candidate>, limit: nat, p: nat)
    requires p < |ordered|
    ensures limit <= p || Offers(ordered[..Min(limit, |ordered|)], ordered[p].row.video)
  {
    if p < limit {
      assert ordered[..Min(limit, |ordered|)][p] == ordered[p];
    }
  }

  /** Only the limit keeps an eligible video out, and then nothing older is in. */
  lemma FeedOmitsOnlyOlder(
      db: Tables, child: ChildId, limit: nat, rn: seq<nat>, ordered: seq<Candidate>, out: seq<Candidate>, a: ArchiveRow)
    requires Valid(db) && IsAnswer(db, child, limit, rn, ordered, out)
    requires Eligible(db, child, a) && !Offers(out, a.video)
    ensures |out| == limit
    ensures forall i | 0 <= i < |out| ::
              var p := out[i].row;
              var (d, d') := (p.publishedAt.GetOr(p.lastSeenAt), a.publishedAt.GetOr(a.lastSeenAt));
              d > d' || (d == d' && p.lastSeenAt >= a.lastSeenAt)
  {
    var h := EligibleHasHead(db, child, rn, a);
    HeadIsNewest(db, child, rn, h);
    assert h in multiset(ordered);
    var p :| 0 <= p < |ordered| && ordered[p] == h;
    KeptOrCut(ordered, limit, p);
    forall i | 0 <= i < |out| ensures !Ahead(a, out[i].row) {
      assert !Ahead(ordered[p].row, ordered[i].row);
    }
  }

  // ---------------------------------------------------------------------
  // There always is an answer
  // ---------------------------------------------------------------------

  /** One way to break ties: by position. */
  predicate Precedes(cs: seq<Candidate>, j: nat, i: nat)
    requires j < |cs| && i < |cs|
  {
    Ahead(cs[j].row, cs[i].row) || (!Ahead(cs[i].row, cs[j].row) && j < i)
  }

  function Earlier(cs: seq<Candidate>, i: nat): set<nat>
    requires i < |cs|
  {
    set j: nat | j < |cs| && cs[j].row.video == cs[i].row.video && Precedes(cs, j, i)
  }

  function Numbering(cs: seq<Candidate>): (rn: seq<nat>)
    ensures |rn| == |cs|
  {
    seq(|cs|, i requires 0 <= i < |cs| => |Earlier(cs, i)| + 1)
  }

  lemma EarlierGrows(cs: seq<Candidate>, j: nat, i: nat)
    requires j < |cs| && i < |cs| && j in Earlier(cs, i)
    ensures Earlier(cs, j) + {j} <= Earlier(cs, i) && Numbering(cs)[j] < Numbering(cs)[i]
  {
    assert j !in Earlier(cs, j);
    SubsetSize(Earlier(cs, j) + {j}, Earlier(cs, i));
  }

  /** Some index of a non-empty set is preceded by all the others. */
  lemma {:induction false} LastIndex(cs: seq<Candidate>, s: set<nat>) returns (m: nat)
    requires s != {} && forall j | j in s :: j < |cs|
    ensures m in s && forall j | j in s && j != m :: Precedes(cs, j, m)
    decreases s
  {
    var x :| x in s;
    if s == {x} {
      m := x;
    } else {
      var y := LastIndex(cs, s - {x});
      m := if Precedes(cs, x, y) then y else x;
      forall j | j in s && j != m ensures Precedes(cs, j, m) {
        assert j != x ==> j in s - {x};
        assert j != x && j != y ==> Precedes(cs, j, y);
      }
    }
  }

  lemma NumberBefore(cs: seq<Candidate>, i: nat)
    requires i < |cs| && Numbering(cs)[i] > 1
    ensures HasNumber(cs, Numbering(cs), cs[i].row.video, Numbering(cs)[i] - 1)
  {
    var m := LastIndex(cs, Earlier(cs, i));
    EarlierGrows(cs, m, i);
    assert Earlier(cs, i) == Earlier(cs, m) + {m};
    assert Numbering(cs)[m] == Numbering(cs)[i] - 1;
  }

  lemma PairIsNumbered(cs: seq<Candidate>, rn: seq<nat>, i: nat, j: nat)
    requires rn == Numbering(cs) && i < |cs| && j < |cs| && i != j && cs[i].row.video == cs[j].row.video
    ensures rn[i] != rn[j] && (Ahead(cs[i].row, cs[j].row) ==> rn[i] < rn[j])
  {
    if Precedes(cs, i, j) {
      EarlierGrows(cs, i, j);
    } else {
      EarlierGrows(cs, j, i);
    }
  }

  lemma NumberingStartsAtOne(cs: seq<Candidate>, rn: seq<nat>)
    requires rn == Numbering(cs)
    ensures forall i | 0 <= i < |cs| :: rn[i] > 0
    ensures forall i | 0 <= i < |cs| && rn[i] > 1 :: HasNumber(cs, rn, cs[i].row.video, rn[i] - 1)
  {
    forall i | 0 <= i < |cs| && rn[i] > 1 ensures HasNumber(cs, rn, cs[i].row.video, rn[i] - 1) {
      NumberBefore(cs, i);
    }
  }

  lemma NumberingFollowsOrder(cs: seq<Candidate>, rn: seq<nat>)
    requires rn == Numbering(cs)
    ensures forall i, j | 0 <= i < j < |cs| && cs[i].row.video == cs[j].row.video :: rn[i] != rn[j]
    ensures forall i, j | 0 <= i < |cs| && 0 <= j < |cs| && cs[i].row.video == cs[j].row.video
                && Ahead(cs[i].row, cs[j].row) :: rn[i] < rn[j]
  {
    forall i, j | 0 <= i < j < |cs| && cs[i].row.video == cs[j].row.video ensures rn[i] != rn[j] {
      PairIsNumbered(cs, rn, i, j);
    }
    forall i, j | 0 <= i < |cs| && 0 <= j < |cs| && cs[i].row.video == cs[j].row.video
                  && Ahead(cs[i].row, cs[j].row)
      ensures rn[i] < rn[j]
    {
      PairIsNumbered(cs, rn, i, j);
    }
  }

  lemma NumberingIsOne(cs: seq<Candidate>, rn: seq<nat>)
    requires rn == Numbering(cs)
    ensures IsRowNumbering(cs, rn)
  {
    NumberingStartsAtOne(cs, rn);
    NumberingFollowsOrder(cs, rn);
  }

  lemma {:induction false} InsertOrdered(c: Candidate, t: seq<Candidate>) returns (r: seq<Candidate>)
    requires IsOrdered(t)
    ensures IsOrdered(r) && multiset(r) == multiset(t) + multiset{c}
    decreases |t|
  {
    if t == [] || !Ahead(t[0].row, c.row) {
      r := [c] + t;
    } else {
      var rest := InsertOrdered(c, t[1..]);
      r := [t[0]] + rest;
      assert t == [t[0]] + t[1..];
      forall j | 0 <= j < |rest| ensures !Ahead(rest[j].row, t[0].row) {
        assert rest[j] in multiset(rest);
        assert rest[j] == c || rest[j] in multiset(t[1..]);
      }
    }
  }

  lemma {:induction false} CanBeOrdered(s: seq<Candidate>) returns (t: seq<Candidate>)
    ensures IsOrdered(t) && multiset(t) == multiset(s)
    decreases |s|
  {
    if s == [] {
      t := [];
    } else {
      var rest := CanBeOrdered(s[1..]);
      t := InsertOrdered(s[0], rest);
      assert s == [s[0]] + s[1..];
    }
  }

  /** Every database has an answer for every child and limit. */
  lemma AnswerExists(db: Tables, child: ChildId, limit: nat)
    returns (rn: seq<nat>, ordered: seq<Candidate>, out: seq<Candidate>)
    ensures IsAnswer(db, child, limit, rn, ordered, out)
  {
    var cs := Candidates(db, child);
    rn := Numbering(cs);
    NumberingIsOne(cs, rn);
    ordered := CanBeOrdered(Heads(cs, rn));
    out := ordered[..Min(limit, |ordered|)];
  }
}
