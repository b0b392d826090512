/** Heartbeats of the video player, coalesced into usage sessions per child. */
module UsageLog {
  import opened Prelude

  /** A longer silence starts a new session. */
  const NEW_ROW_GAP_SECONDS := 60

  datatype LogRow = LogRow(child: int, video: string, startedAt: int, endedAt: Option<int>, duration: Option<int>)

  /** One heartbeat as it arrives. */
  datatype Beat = Beat(child: int, video: string, elapsed: Option<int>, at: int)

  function Clamped(b: Beat): int {
    Max(1, Min(b.elapsed.GetOr(30), 90))
  }

  /** The index of the child's latest row. */
  function LastOf(rows: seq<LogRow>, child: int): (i: Option<nat>)
    ensures i.Some? ==> i.value < |rows| && rows[i.value].child == child
    ensures forall j | (if i.Some? then i.value + 1 else 0) <= j < |rows| :: rows[j].child != child
  {
    if rows == [] then None
    else if rows[|rows| - 1].child == child then Some(|rows| - 1)
    else LastOf(rows[..|rows| - 1], child)
  }

  function NewRow(b: Beat): LogRow {
    LogRow(b.child, b.video, b.at, Some(b.at), Some(Clamped(b)))
  }

  /** The heartbeat belongs to the row's session. */
  predicate Continues(row: LogRow, b: Beat) {
    row.video == b.video && b.at - row.endedAt.GetOr(b.at - Clamped(b)) <= NEW_ROW_GAP_SECONDS
  }

  function Extend(row: LogRow, b: Beat): LogRow {
    row.(endedAt := Some(b.at), duration := Some(row.duration.GetOr(0) + Clamped(b)))
  }

  /** The table after one heartbeat. */
  function Record(rows: seq<LogRow>, b: Beat): seq<LogRow> {
    var i := LastOf(rows, b.child);
    if i.Some? && Continues(rows[i.value], b) then rows[i.value := Extend(rows[i.value], b)]
    else rows + [NewRow(b)]
  }

  class UsageLog {
    var rows: seq<LogRow>

    constructor ()
      ensures rows == []
    {
      rows := [];
    }

    /** ORDER BY id DESC LIMIT 1. */
    method MostRecentRow(child: int) returns (i: Option<nat>)
      ensures i == LastOf(rows, child)
    {
      var n := |rows|;
      while n > 0
        invariant 0 <= n <= |rows|
        invariant LastOf(rows, child) == LastOf(rows[..n], child)
      {
        assert rows[..n][..n - 1] == rows[..n - 1];
        if rows[n - 1].child == child {
          return Some(n - 1);
        }
        n := n - 1;
      }
      i := None;
    }

    /** Extend the child's latest session, or start a new one. */
    method Heartbeat(b: Beat)
      modifies this
      ensures rows == Record(old(rows), b)
    {
      var elapsed := Clamped(b);
      var i := MostRecentRow(b.child);
      if i.Some? {
        var row := rows[i.value];
        var lastEnded := row.endedAt.GetOr(b.at - elapsed);
        if row.video == b.video && b.at - lastEnded <= NEW_ROW_GAP_SECONDS {
          rows := rows[i.value := row.(endedAt := Some(b.at), duration := Some(row.duration.GetOr(0) + elapsed))];
          return;
        }
      }
      rows := rows + [LogRow(b.child, b.video, b.at, Some(b.at), Some(elapsed))];
    }
  }

  function Run(beats: seq<Beat>): seq<LogRow> {
    if beats == [] then [] else Record(Run(beats[..|beats| - 1]), beats[|beats| - 1])
  }

  // ---------------------------------------------------------------------
  // Sessions
  // ---------------------------------------------------------------------

  /** A session ends between these two consecutive heartbeats of a child. */
  predicate Breaks(a: Beat, b: Beat) {
    a.video != b.video || b.at - a.at > NEW_ROW_GAP_SECONDS
  }

  /** The length of the first session. */
  function RunLength(bs: seq<Beat>): (n: nat)
    requires bs != []
    ensures 0 < n <= |bs|
  {
    if |bs| == 1 || Breaks(bs[0], bs[1]) then 1 else 1 + RunLength(bs[1..])
  }

  /** What the heartbeats report: 30 seconds where nothing is said, and no less than 1 nor more than 90 each. */
  function Seconds(bs: seq<Beat>): int {
    if bs == [] then 0
    else
      var e := bs[0].elapsed.GetOr(30);
      (if e < 1 then 1 else if e > 90 then 90 else e) + Seconds(bs[1..])
  }

  /** The row of one session: first and last heartbeat, and the clamped seconds of all. */
  function SessionRow(run: seq<Beat>): LogRow
    requires run != []
  {
    LogRow(run[0].child, run[0].video, run[0].at, Some(run[|run| - 1].at), Some(Seconds(run)))
  }

  /** One child's heartbeats cut into sessions, front to back. */
  function Sessions(bs: seq<Beat>): seq<LogRow> {
    if bs == [] then []
    else
      var n := RunLength(bs);
      [SessionRow(bs[..n])] + Sessions(bs[n..])
  }

  /**
   * A session is a maximal run: within it the video stays the same and no gap is
   * over 60 seconds, and after it the video changes or the gap is over 60 seconds.
   */
  lemma {:induction false} RunIsMaximal(bs: seq<Beat>)
    requires bs != []
    ensures forall i | 0 < i < RunLength(bs) :: bs[i - 1].video == bs[i].video && bs[i].at - bs[i - 1].at <= 60
    ensures RunLength(bs) < |bs| ==>
              var (last, next) := (bs[RunLength(bs) - 1], bs[RunLength(bs)]);
              last.video != next.video || next.at - last.at > 60
    decreases |bs|
  {
    if |bs| > 1 && !Breaks(bs[0], bs[1]) {
      RunIsMaximal(bs[1..]);
      var n := RunLength(bs);
      forall i | 0 < i < n ensures bs[i - 1].video == bs[i].video && bs[i].at - bs[i - 1].at <= 60 {
        if i > 1 { assert bs[1..][i - 1 - 1] == bs[i - 1] && bs[1..][i - 1] == bs[i]; }
      }
    }
  }

  lemma {:induction false} SecondsSnoc(bs: seq<Beat>, b: Beat)
    ensures Seconds(bs + [b]) == Seconds(bs) + Clamped(b)
    decreases |bs|
  {
    if bs != [] {
      SecondsSnoc(bs[1..], b);
      assert (bs + [b])[1..] == bs[1..] + [b];
    } else {
      assert bs + [b] == [b] && [b][1..] == [];
    }
  }

  lemma {:induction false} RunLengthSnoc(bs: seq<Beat>, b: Beat)
    requires bs != []
    ensures RunLength(bs + [b])
         == if RunLength(bs) == |bs| && !Breaks(bs[|bs| - 1], b) then |bs| + 1 else RunLength(bs)
    decreases |bs|
  {
    var all := bs + [b];
    if |bs| > 1 {
      assert all[1..] == bs[1..] + [b];
      if !Breaks(bs[0], bs[1]) {
        RunLengthSnoc(bs[1..], b);
      }
    } else {
      assert all[1..] == [b];
    }
  }

  /** The last session ends with the last heartbeat. */
  lemma {:induction false} LastSession(bs: seq<Beat>)
    requires bs != []
    ensures Sessions(bs) != []
    ensures var (last, b) := (Sessions(bs)[|Sessions(bs)| - 1], bs[|bs| - 1]);
            last.endedAt == Some(b.at) && last.video == b.video && last.duration.Some?
    decreases |bs|
  {
    var n := RunLength(bs);
    RunIsMaximal(bs);
    SameVideo(bs, n);
    if n < |bs| {
      LastSession(bs[n..]);
    } else {
      assert bs[..n] == bs && bs[n..] == [];
    }
  }

  /** A beat that does not break the last session lengthens its row. */
  lemma ExtendSession(run: seq<Beat>, b: Beat)
    requires run != []
    ensures SessionRow(run + [b]) == Extend(SessionRow(run), b)
  {
    SecondsSnoc(run, b);
  }

  lemma OneBeat(b: Beat)
    ensures Sessions([b]) == [NewRow(b)]
  {
    assert [b][..1] == [b] && [b][1..] == [] && Sessions([]) == [];
    assert Seconds([b]) == Clamped(b) + Seconds([]);
  }

  /** The table's own rule, applied to a list of one child's sessions. */
  function Append(ss: seq<LogRow>, b: Beat): seq<LogRow> {
    if ss != [] && Continues(ss[|ss| - 1], b) then ss[..|ss| - 1] + [Extend(ss[|ss| - 1], b)] else ss + [NewRow(b)]
  }

  lemma AppendAfter(first: LogRow, rest: seq<LogRow>, b: Beat)
    requires rest != []
    ensures Append([first] + rest, b) == [first] + Append(rest, b)
  {}

  lemma OneSession(bs: seq<Beat>)
    requires bs != [] && RunLength(bs) == |bs|
    ensures Sessions(bs) == [SessionRow(bs)]
  {
    assert bs[..|bs|] == bs && bs[|bs|..] == [];
  }

  lemma TwoSessions(bs: seq<Beat>, b: Beat)
    requires bs != [] && RunLength(bs + [b]) == |bs|
    ensures Sessions(bs + [b]) == [SessionRow(bs), NewRow(b)]
  {
    OneBeat(b);
    var all, n := bs + [b], |bs|;
    var first, rest := all[..n], all[n..];
    assert Sessions(all) == [SessionRow(first)] + Sessions(rest);
    assert first == bs;
    assert rest == [b];
  }

  lemma AppendToOne(row: LogRow, b: Beat)
    ensures Append([row], b) == if Continues(row, b) then [Extend(row, b)] else [row, NewRow(b)]
  {}

  /** A heartbeat continues the row of a session exactly when it does not break it. */
  lemma ContinuesSession(bs: seq<Beat>, b: Beat)
    requires bs != [] && RunLength(bs) == |bs|
    ensures Continues(SessionRow(bs), b) <==> !Breaks(bs[|bs| - 1], b)
  {
    RunIsMaximal(bs);
    SameVideo(bs, |bs|);
  }

  /** The first session is the last: the heartbeat extends it or starts the next. */
  lemma SnocToOne(bs: seq<Beat>, b: Beat)
    requires bs != [] && RunLength(bs) == |bs|
    ensures Sessions(bs + [b]) == Append(Sessions(bs), b)
  {
    RunLengthSnoc(bs, b);
    OneSession(bs);
    ContinuesSession(bs, b);
    AppendToOne(SessionRow(bs), b);
    if Breaks(bs[|bs| - 1], b) {
      TwoSessions(bs, b);
    } else {
      OneSession(bs + [b]);
      ExtendSession(bs, b);
    }
  }

  /** One more heartbeat changes a child's sessions as it changes the child's rows. */
  lemma {:induction false} SessionsSnoc(bs: seq<Beat>, b: Beat)
    ensures Sessions(bs + [b]) == Append(Sessions(bs), b)
    decreases |bs|
  {
    if bs == [] {
      assert bs + [b] == [b];
      OneBeat(b);
    } else if RunLength(bs) == |bs| {
      SnocToOne(bs, b);
    } else {
      var n := RunLength(bs);
      RunLengthSnoc(bs, b);
      assert (bs + [b])[..n] == bs[..n] && (bs + [b])[n..] == bs[n..] + [b];
      SessionsSnoc(bs[n..], b);
      LastSession(bs[n..]);
      AppendAfter(SessionRow(bs[..n]), Sessions(bs[n..]), b);
    }
  }

  lemma {:induction false} SameVideo(bs: seq<Beat>, n: nat)
    requires 0 < n <= |bs| && forall i | 0 < i < n :: !Breaks(bs[i - 1], bs[i])
    ensures bs[n - 1].video == bs[0].video
    decreases n
  {
    if n > 1 {
      SameVideo(bs, n - 1);
      assert !Breaks(bs[n - 1 - 1], bs[n - 1]);
    }
  }

  // ---------------------------------------------------------------------
  // Children do not mix
  // ---------------------------------------------------------------------

  function RowsOf(rows: seq<LogRow>, child: int): seq<LogRow> {
    if rows == [] then []
    else RowsOf(rows[..|rows| - 1], child) + if rows[|rows| - 1].child == child then [rows[|rows| - 1]] else []
  }

  function BeatsOf(beats: seq<Beat>, child: int): seq<Beat> {
    if beats == [] then []
    else BeatsOf(beats[..|beats| - 1], child) + if beats[|beats| - 1].child == child then [beats[|beats| - 1]] else []
  }

  /** The child's latest row is the last of the child's rows, and replacing it replaces just that. */
  lemma {:induction false} LastRow(rows: seq<LogRow>, child: int, row: LogRow)
    requires row.child == child
    ensures LastOf(rows, child).None? <==> RowsOf(rows, child) == []
    ensures LastOf(rows, child).Some? ==>
              var (own, i) := (RowsOf(rows, child), LastOf(rows, child).value);
              && own[|own| - 1] == rows[i]
              && RowsOf(rows[i := row], child) == own[..|own| - 1] + [row]
    ensures forall other | other != child && LastOf(rows, child).Some? ::
              RowsOf(rows[LastOf(rows, child).value := row], other) == RowsOf(rows, other)
    decreases |rows|
  {
    if rows != [] {
      var n := |rows| - 1;
      var i := LastOf(rows, child);
      if i.Some? {
        if i.value == n {
          assert rows[n := row][..n] == rows[..n];
        } else {
          LastRow(rows[..n], child, row);
          assert rows[i.value := row][..n] == rows[..n][i.value := row];
        }
      } else {
        LastRow(rows[..n], child, row);
      }
    }
  }

  lemma AppendRow(rows: seq<LogRow>, row: LogRow, child: int)
    ensures RowsOf(rows + [row], child) == RowsOf(rows, child) + if row.child == child then [row] else []
  {
    assert (rows + [row])[..|rows|] == rows;
  }

  /** One heartbeat changes one child's rows only, and among them the last or none. */
  lemma RecordRows(rows: seq<LogRow>, b: Beat, child: int)
    ensures RowsOf(Record(rows, b), child)
         == if child == b.child then Append(RowsOf(rows, child), b) else RowsOf(rows, child)
  {
    var i := LastOf(rows, b.child);
    LastRow(rows, b.child, if i.Some? then Extend(rows[i.value], b) else NewRow(b));
    AppendRow(rows, NewRow(b), child);
  }

  /**
   * However the children's heartbeats interleave, each child's rows are exactly
   * that child's own heartbeats cut into maximal sessions.
   */
  lemma {:induction false} LogIsSessions(beats: seq<Beat>, child: int)
    ensures RowsOf(Run(beats), child) == Sessions(BeatsOf(beats, child))
    decreases |beats|
  {
    if beats != [] {
      var init, b := beats[..|beats| - 1], beats[|beats| - 1];
      var own := BeatsOf(init, child);
      LogIsSessions(init, child);
      RecordRows(Run(init), b, child);
      if b.child == child {
        assert BeatsOf(beats, child) == own + [b];
        SessionsSnoc(own, b);
      } else {
        assert BeatsOf(beats, child) == own;
      }
    }
  }

  function TotalDuration(rows: seq<LogRow>): int {
    if rows == [] then 0 else rows[0].duration.GetOr(0) + TotalDuration(rows[1..])
  }

  lemma {:induction false} SessionsConserve(bs: seq<Beat>)
    ensures TotalDuration(Sessions(bs)) == Seconds(bs)
    decreases |bs|
  {
    if bs != [] {
      var n := RunLength(bs);
      SessionsConserve(bs[n..]);
      SecondsSplit(bs, n);
      assert Sessions(bs)[1..] == Sessions(bs[n..]);
    }
  }

  lemma {:induction false} SecondsSplit(bs: seq<Beat>, n: nat)
    requires n <= |bs|
    ensures Seconds(bs) == Seconds(bs[..n]) + Seconds(bs[n..])
    decreases n
  {
    if n > 0 {
      SecondsSplit(bs[1..], n - 1);
      assert bs[1..][..n - 1] == bs[..n][1..] && bs[1..][n - 1..] == bs[n..];
    } else {
      assert bs[0..] == bs;
    }
  }

  /** No second is lost or counted twice: a child's logged time is the sum of its clamped heartbeats. */
  lemma ScreenTimeConserved(beats: seq<Beat>, child: int)
    ensures TotalDuration(RowsOf(Run(beats), child)) == Seconds(BeatsOf(beats, child))
  {
    LogIsSessions(beats, child);
    SessionsConserve(BeatsOf(beats, child));
  }
}
