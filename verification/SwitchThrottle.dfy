/** The per-address throttle on failed profile switches. Times are seconds. */
module SwitchThrottle {
  import opened Prelude

  const MAX_FAILURES := 5
  const WINDOW: real := 60.0

  type Ip = string

  /** `t` is still within the window at `now`. */
  predicate Recent(now: real, t: real) {
    now - t < WINDOW
  }

  /** The times still within the window, in order. */
  function Retain(times: seq<real>, now: real): seq<real> {
    if times == [] then []
    else Retain(times[..|times| - 1], now) + if Recent(now, times[|times| - 1]) then [times[|times| - 1]] else []
  }

  /** Prune one address's list; the answer and the map after it. */
  function Check(m: map<Ip, seq<real>>, ip: Ip, now: real): (map<Ip, seq<real>>, bool) {
    if ip !in m then (m, false)
    else
      var times := Retain(m[ip], now);
      if times == [] then (m - {ip}, false) else (m[ip := times], |times| >= MAX_FAILURES)
  }

  function Fail(m: map<Ip, seq<real>>, ip: Ip, now: real): map<Ip, seq<real>> {
    m[ip := Retain(Lookup(m, ip).GetOr([]), now) + [now]]
  }

  class Throttle {
    var failures: map<Ip, seq<real>>

    constructor ()
      ensures failures == map[]
    {
      failures := map[];
    }

    /** Drop the stale times of a list. */
    static method RetainRecent(times: seq<real>, now: real) returns (kept: seq<real>)
      ensures kept == Retain(times, now)
    {
      kept := [];
      for i := 0 to |times|
        invariant kept == Retain(times[..i], now)
      {
        assert times[..i + 1][..i] == times[..i];
        if Recent(now, times[i]) {
          kept := kept + [times[i]];
        }
      }
      assert times[..|times|] == times;
    }

    method IsBlocked(ip: Ip, now: real) returns (blocked: bool)
      modifies this
      ensures (failures, blocked) == Check(old(failures), ip, now)
    {
      if ip in failures {
        var times := RetainRecent(failures[ip], now);
        if times == [] {
          failures := failures - {ip};
          return false;
        }
        failures := failures[ip := times];
        return |times| >= MAX_FAILURES;
      }
      blocked := false;
    }

    method RecordFailure(ip: Ip, now: real)
      modifies this
      ensures failures == Fail(old(failures), ip, now)
    {
      var times := RetainRecent(if ip in failures then failures[ip] else [], now);
      failures := failures[ip := times + [now]];
    }
  }

  // ---------------------------------------------------------------------
  // The pruned log answers like the full one
  // ---------------------------------------------------------------------

  datatype Op = Ask(ip: Ip, at: real) | Wrong(ip: Ip, at: real)

  ghost predicate InTime(ops: seq<Op>) {
    forall i, j | 0 <= i <= j < |ops| :: ops[i].at <= ops[j].at
  }

  function After(ops: seq<Op>): map<Ip, seq<real>> {
    if ops == [] then map[]
    else
      var m, last := After(ops[..|ops| - 1]), ops[|ops| - 1];
      if last.Ask? then Check(m, last.ip, last.at).0 else Fail(m, last.ip, last.at)
  }

  /** Every failure of an address ever recorded. */
  function Log(ops: seq<Op>, ip: Ip): seq<real> {
    if ops == [] then []
    else Log(ops[..|ops| - 1], ip) + if ops[|ops| - 1] == Wrong(ip, ops[|ops| - 1].at) then [ops[|ops| - 1].at] else []
  }

  lemma {:induction false} RetainJoin(a: seq<real>, b: seq<real>, now: real)
    ensures Retain(a + b, now) == Retain(a, now) + Retain(b, now)
    decreases |b|
  {
    if b == [] {
      assert a + b == a;
    } else {
      RetainJoin(a, b[..|b| - 1], now);
      assert (a + b)[..|a + b| - 1] == a + b[..|b| - 1];
    }
  }

  /** What is stale stays stale, so pruning early loses nothing. */
  lemma {:induction false} RetainTwice(times: seq<real>, t: real, now: real)
    requires t <= now
    ensures Retain(Retain(times, t), now) == Retain(times, now)
    decreases |times|
  {
    if times != [] {
      var init, last := times[..|times| - 1], times[|times| - 1];
      RetainTwice(init, t, now);
      RetainJoin(Retain(init, t), if Recent(t, last) then [last] else [], now);
      if Recent(t, last) {
        assert [last][..0] == [];
        assert Retain([last], now) == Retain([], now) + if Recent(now, last) then [last] else [];
      } else {
        assert !Recent(now, last);
        assert Retain(init, t) + [] == Retain(init, t);
      }
    }
  }

  /** At any later time the stored list and the full log have the same recent failures. */
  lemma {:induction false} PrunedLikeFull(ops: seq<Op>, ip: Ip, now: real)
    requires InTime(ops) && (ops != [] ==> ops[|ops| - 1].at <= now)
    ensures Retain(Lookup(After(ops), ip).GetOr([]), now) == Retain(Log(ops, ip), now)
    decreases |ops|
  {
    if ops != [] {
      var n := |ops| - 1;
      var init, last := ops[..n], ops[n];
      assert InTime(init) by { assert forall i | 0 <= i < n :: init[i] == ops[i]; }
      assert init != [] ==> init[|init| - 1].at <= last.at by { assert init != [] ==> init[n - 1] == ops[n - 1]; }
      PrunedLikeFull(init, ip, now);
      var before := Lookup(After(init), ip).GetOr([]);
      if last.ip == ip {
        var kept := Retain(before, last.at);
        RetainTwice(before, last.at, now);
        if last.Wrong? {
          assert Lookup(After(ops), ip) == Some(kept + [last.at]);
          assert Log(ops, ip) == Log(init, ip) + [last.at];
          RetainJoin(kept, [last.at], now);
          RetainJoin(Log(init, ip), [last.at], now);
        } else {
          assert Lookup(After(ops), ip).GetOr([]) == kept;
          assert Log(ops, ip) == Log(init, ip);
        }
      } else {
        assert Log(ops, ip) == Log(init, ip);
      }
    }
  }

  lemma AnswerIsPruned(ops: seq<Op>, ip: Ip, now: real)
    requires InTime(ops) && (ops != [] ==> ops[|ops| - 1].at <= now)
    ensures Check(After(ops), ip, now).1 <==> |Retain(Log(ops, ip), now)| >= MAX_FAILURES
  {
    PrunedLikeFull(ops, ip, now);
  }

  /** The entries less than a minute old. */
  function Fresh(times: seq<real>, now: real): set<nat> {
    set j: nat | j < |times| && now - times[j] < 60.0
  }

  lemma {:induction false} RetainedCount(times: seq<real>, now: real)
    ensures |Retain(times, now)| == |Fresh(times, now)|
    decreases |times|
  {
    if times != [] {
      var n := |times| - 1;
      RetainedCount(times[..n], now);
      assert Fresh(times, now) == Fresh(times[..n], now) + if now - times[n] < 60.0 then {n} else {};
    }
  }

  /** The throttle's answer is the full log's: blocked exactly when it holds five failures of the last minute. */
  lemma AnswerIsFullHistory(ops: seq<Op>, ip: Ip, now: real)
    requires InTime(ops) && (ops != [] ==> ops[|ops| - 1].at <= now)
    ensures Check(After(ops), ip, now).1 <==> |Fresh(Log(ops, ip), now)| >= 5
  {
    AnswerIsPruned(ops, ip, now);
    RetainedCount(Log(ops, ip), now);
  }

  // ---------------------------------------------------------------------
  // At most five failures a minute
  // ---------------------------------------------------------------------

  /** Failure `p` was let through: the address's latest earlier operation is a check that did not block. */
  ghost predicate LetThrough(ops: seq<Op>, p: int, q: int)
    requires 0 <= p < |ops|
  {
    && 0 <= q < p && ops[q].Ask? && ops[q].ip == ops[p].ip
    && !Check(After(ops[..q]), ops[q].ip, ops[q].at).1
    && forall r | q < r < p :: ops[r].ip != ops[p].ip
  }

  /** Each request's check and record run in order, requests of one address one after another. */
  ghost predicate CheckedFirst(ops: seq<Op>) {
    forall p | 0 <= p < |ops| && ops[p].Wrong? :: exists q :: LetThrough(ops, p, q)
  }

  lemma {:induction false} LogSkips(ops: seq<Op>, q: nat, p: nat, ip: Ip)
    requires q <= p <= |ops| && forall r | q <= r < p :: ops[r].ip != ip || ops[r].Ask?
    ensures Log(ops[..p], ip) == Log(ops[..q], ip)
    decreases p
  {
    if q < p {
      LogSkips(ops, q, p - 1, ip);
      assert ops[..p][..p - 1] == ops[..p - 1];
    }
  }

  lemma {:induction false} LogSorted(ops: seq<Op>, ip: Ip)
    requires InTime(ops)
    ensures forall i, j | 0 <= i <= j < |Log(ops, ip)| :: Log(ops, ip)[i] <= Log(ops, ip)[j]
    ensures ops != [] ==> forall t | t in Log(ops, ip) :: t <= ops[|ops| - 1].at
    decreases |ops|
  {
    if ops != [] {
      var init := ops[..|ops| - 1];
      assert InTime(init) by { assert forall i | 0 <= i < |init| :: init[i] == ops[i]; }
      LogSorted(init, ip);
      var log, last := Log(init, ip), ops[|ops| - 1];
      assert init != [] ==> init[|init| - 1].at <= last.at by {
        assert init != [] ==> init[|init| - 1] == ops[|ops| - 2];
      }
      if last == Wrong(ip, last.at) {
        assert Log(ops, ip) == log + [last.at];
        assert forall i | 0 <= i < |log| :: log[i] in log;
      } else {
        assert Log(ops, ip) == log + [];
      }
    }
  }

  /** If the five latest of a sorted list are recent, the window holds at least five. */
  lemma {:induction false} RecentTail(times: seq<real>, now: real, k: nat)
    requires k <= |times| && forall i | |times| - k <= i < |times| :: Recent(now, times[i])
    ensures |Retain(times, now)| >= k
    decreases |times|
  {
    if k > 0 {
      RecentTail(times[..|times| - 1], now, k - 1);
    }
  }

  /**
   * When checks and records run in order, any six consecutive failures of an
   * address span at least the window, so no window of 60 seconds holds more than five.
   */
  lemma {:induction false} FiveAMinute(ops: seq<Op>, ip: Ip, i: nat)
    requires InTime(ops) && CheckedFirst(ops) && i + 5 < |Log(ops, ip)|
    ensures Log(ops, ip)[i + 5] - Log(ops, ip)[i] >= 60.0
    decreases |ops|
  {
    var n := |ops| - 1;
    var init, last := ops[..n], ops[n];
    assert InTime(init) by { assert forall j | 0 <= j < n :: init[j] == ops[j]; }
    if i + 5 < |Log(init, ip)| {
      CheckedPrefix(ops);
      FiveAMinute(init, ip, i);
    } else {
      assert last == Wrong(ip, last.at);
      var q :| LetThrough(ops, n, q);
      LogSkips(ops, q + 1, n, ip);
      assert ops[..q + 1][..q] == ops[..q];
      var log := Log(ops[..q], ip);
      assert Log(init, ip) == log;
      var asked := ops[q].at;
      assert InTime(ops[..q]) by { assert forall j | 0 <= j < q :: ops[..q][j] == ops[j]; }
      assert q > 0 ==> ops[..q][q - 1] == ops[q - 1];
      AnswerIsPruned(ops[..q], ip, asked);
      LogSorted(ops[..q], ip);
      if Recent(asked, log[i]) {
        RecentTail(log, asked, MAX_FAILURES);
      }
    }
  }

  lemma CheckedPrefix(ops: seq<Op>)
    requires ops != [] && CheckedFirst(ops)
    ensures CheckedFirst(ops[..|ops| - 1])
  {
    var init := ops[..|ops| - 1];
    forall p | 0 <= p < |init| && init[p].Wrong? ensures exists q :: LetThrough(init, p, q) {
      assert ops[p].Wrong?;
      var q :| LetThrough(ops, p, q);
      assert init[..q] == ops[..q];
      assert LetThrough(init, p, q);
    }
  }

  // ---------------------------------------------------------------------
  // Racing requests
  // ---------------------------------------------------------------------

  /** Where the failures of an address were recorded. */
  function Positions(ops: seq<Op>, ip: Ip): seq<nat> {
    if ops == [] then []
    else
      var n := |ops| - 1;
      Positions(ops[..n], ip) + if ops[n] == Wrong(ip, ops[n].at) then [n] else []
  }

  /** `at` says, in order, where `ops` records the failures `log`. */
  ghost predicate Records(ops: seq<Op>, ip: Ip, at: seq<nat>, log: seq<real>) {
    && |at| == |log|
    && (forall j | 0 <= j < |at| :: at[j] < |ops| && ops[at[j]] == Wrong(ip, log[j]))
    && (forall i, j | 0 <= i < j < |at| :: at[i] < at[j])
  }

  lemma OneMoreOp(ops: seq<Op>, op: Op, ip: Ip, at: seq<nat>, log: seq<real>)
    requires Records(ops, ip, at, log)
    ensures Records(ops + [op], ip, at, log)
    ensures op == Wrong(ip, op.at) ==> Records(ops + [op], ip, at + [|ops|], log + [op.at])
  {}

  lemma {:induction false} PositionsAre(ops: seq<Op>, ip: Ip)
    ensures Records(ops, ip, Positions(ops, ip), Log(ops, ip))
    decreases |ops|
  {
    if ops != [] {
      var n := |ops| - 1;
      PositionsAre(ops[..n], ip);
      OneMoreOp(ops[..n], ops[n], ip, Positions(ops[..n], ip), Log(ops[..n], ip));
      assert ops == ops[..n] + [ops[n]];
      if ops[n] != Wrong(ip, ops[n].at) {
        assert Log(ops, ip) == Log(ops[..n], ip) && Positions(ops, ip) == Positions(ops[..n], ip);
      }
    }
  }

  /** The log of a prefix is a prefix of the log, cut at the prefix's end. */
  lemma {:induction false} LogPrefix(ops: seq<Op>, ip: Ip, t: nat)
    requires t <= |ops|
    ensures Log(ops[..t], ip) <= Log(ops, ip) && |Positions(ops, ip)| == |Log(ops, ip)|
    ensures forall j | 0 <= j < |Log(ops, ip)| :: Positions(ops, ip)[j] < t <==> j < |Log(ops[..t], ip)|
    decreases |ops|
  {
    PositionsAre(ops, ip);
    if t == |ops| {
      assert ops[..t] == ops;
    } else {
      var n := |ops| - 1;
      LogPrefix(ops[..n], ip, t);
      assert ops[..n][..t] == ops[..t];
    }
  }

  /** `from` gives every recorded failure the check that let its request through. */
  ghost predicate Paired(ops: seq<Op>, from: map<nat, nat>) {
    forall p: nat | p < |ops| && ops[p].Wrong? ::
      && p in from && from[p] < p && ops[from[p]] == Ask(ops[p].ip, ops[from[p]].at)
      && !Check(After(ops[..from[p]]), ops[p].ip, ops[from[p]].at).1
  }

  /** The requests of an address that are past their check but not yet recorded just before operation `t`. */
  function InFlight(ops: seq<Op>, from: map<nat, nat>, ip: Ip, t: nat): set<nat> {
    set p | p in from && p < |ops| && ops[p] == Wrong(ip, ops[p].at) && from[p] < t <= p
  }

  ghost predicate AtMost(ops: seq<Op>, from: map<nat, nat>, ip: Ip, m: nat) {
    forall t: nat | t <= |ops| :: |InFlight(ops, from, ip, t)| <= m
  }

  /** The failure among `i..k` whose check came last. */
  lemma {:induction false} LatestCheck(at: seq<nat>, from: map<nat, nat>, i: nat, k: nat) returns (j: nat)
    requires i <= k < |at| && forall x | i <= x <= k :: at[x] in from
    ensures i <= j <= k && forall x | i <= x <= k :: from[at[x]] <= from[at[j]]
    decreases k
  {
    if i == k {
      j := k;
    } else {
      j := LatestCheck(at, from, i, k - 1);
      if from[at[j]] < from[at[k]] {
        j := k;
      }
    }
  }

  /** Failures `a..k` were all in flight when the latest of their checks ran. */
  lemma FlightCount(ops: seq<Op>, from: map<nat, nat>, ip: Ip, m: nat, at: seq<nat>, a: nat, k: nat, q: nat)
    requires Paired(ops, from) && AtMost(ops, from, ip, m) && q < |ops|
    requires at == Positions(ops, ip) && a <= k < |at| == |Log(ops, ip)|
    requires forall x | a <= x <= k :: q < at[x] && at[x] in from && from[at[x]] <= q
    ensures k + 1 - a <= m
  {
    var flight := at[a..k + 1];
    PositionsAre(ops, ip);
    forall x, y | 0 <= x < y < |flight| ensures flight[x] != flight[y] {
      assert at[a + x] < at[a + y];
    }
    forall p | p in Elements(flight) ensures p in InFlight(ops, from, ip, q + 1) {
      var x :| 0 <= x < |flight| && flight[x] == p;
      assert at[a + x] == p;
    }
    DistinctSize(flight);
    SubsetSize(Elements(flight), InFlight(ops, from, ip, q + 1));
  }

  /** So all but `m` of the failures `i..k` were recorded before the latest of their checks. */
  lemma EarlyFailures(ops: seq<Op>, from: map<nat, nat>, ip: Ip, m: nat, at: seq<nat>, i: nat, k: nat, q: nat)
    requires Paired(ops, from) && AtMost(ops, from, ip, m) && q < |ops| && ops[q].Ask?
    requires at == Positions(ops, ip) && i <= k < |at| && m <= k - i
    requires forall x | i <= x <= k :: at[x] in from && from[at[x]] <= q
    ensures k + 1 - m <= |Log(ops[..q], ip)|
  {
    PositionsAre(ops, ip);
    LogPrefix(ops, ip, q);
    var a := Max(|Log(ops[..q], ip)|, i);
    if a <= k {
      forall x | a <= x <= k ensures q < at[x] {
        assert at[x] >= q && ops[at[x]].Wrong?;
      }
      FlightCount(ops, from, ip, m, at, a, k, q);
    }
  }

  /** A check that was not blocked cannot follow five failures within its window. */
  lemma UnblockedLog(ops: seq<Op>, ip: Ip, q: nat, i: nat)
    requires InTime(ops) && q < |ops| && ops[q] == Ask(ip, ops[q].at)
    requires !Check(After(ops[..q]), ip, ops[q].at).1
    requires i + MAX_FAILURES <= |Log(ops[..q], ip)|
    ensures ops[q].at - Log(ops[..q], ip)[i] >= WINDOW
  {
    var init, log := ops[..q], Log(ops[..q], ip);
    assert InTime(init) by { assert forall j | 0 <= j < q :: init[j] == ops[j]; }
    assert q > 0 ==> init[q - 1] == ops[q - 1];
    AnswerIsPruned(init, ip, ops[q].at);
    LogSorted(init, ip);
    if Recent(ops[q].at, log[i]) {
      RecentTail(log, ops[q].at, |log| - i);
    }
  }

  /**
   * With at most `m` requests of an address between their check and their
   * record at any time, any `5 + m` consecutive failures span the window, so no
   * window of 60 seconds holds more than `4 + m`.
   */
  lemma RaceBound(ops: seq<Op>, from: map<nat, nat>, ip: Ip, m: nat, i: nat)
    requires InTime(ops) && Paired(ops, from) && AtMost(ops, from, ip, m)
    requires i + 4 + m < |Log(ops, ip)|
    ensures Log(ops, ip)[i + 4 + m] - Log(ops, ip)[i] >= 60.0
  {
    var k, at, log := i + 4 + m, Positions(ops, ip), Log(ops, ip);
    PositionsAre(ops, ip);
    assert forall x | i <= x <= k :: ops[at[x]].Wrong?;
    var j := LatestCheck(at, from, i, k);
    var q := from[at[j]];
    EarlyFailures(ops, from, ip, m, at, i, k, q);
    UnblockedLog(ops, ip, q, i);
    LogPrefix(ops, ip, q);
    assert Log(ops[..q], ip)[i] == log[i];
    assert ops[q].at <= ops[at[j]].at == log[j];
    LogIsSorted(ops, ip, j, k);
  }

  lemma LogIsSorted(ops: seq<Op>, ip: Ip, i: nat, j: nat)
    requires InTime(ops) && i <= j < |Log(ops, ip)|
    ensures Log(ops, ip)[i] <= Log(ops, ip)[j]
  {
    LogSorted(ops, ip);
  }

  // ---------------------------------------------------------------------
  // The bound is attained
  // ---------------------------------------------------------------------

  function Repeat(op: Op, k: nat): (r: seq<Op>)
    ensures |r| == k && forall i | 0 <= i < k :: r[i] == op
  {
    if k == 0 then [] else Repeat(op, k - 1) + [op]
  }

  /** Four failures one after another, then `m` checks, then the `m` records. */
  function TightRun(ip: Ip, m: nat): (r: seq<Op>)
    ensures |r| == 8 + 2 * m
    ensures forall p: nat | p < |r| ::
              r[p] == if (p < 8 && p % 2 == 1) || p >= 8 + m then Wrong(ip, 0.0) else Ask(ip, 0.0)
  {
    var a, w := Ask(ip, 0.0), Wrong(ip, 0.0);
    [a, w, a, w, a, w, a, w] + Repeat(a, m) + Repeat(w, m)
  }

  function TightPairs(m: nat): map<nat, nat> {
    map p: nat | p < 8 + 2 * m && ((p < 8 && p % 2 == 1) || p >= 8 + m) :: if p < 8 then p - 1 else p - m
  }

  /** How many failures the first `q` operations of the run record. */
  lemma {:induction false} TightLog(ip: Ip, m: nat, q: nat)
    requires q <= 8 + 2 * m
    ensures |Log(TightRun(ip, m)[..q], ip)| == if q <= 8 then q / 2 else if q <= 8 + m then 4 else q - m - 4
    decreases q
  {
    var ops := TightRun(ip, m);
    if q > 0 {
      TightLog(ip, m, q - 1);
      assert ops[..q][..q - 1] == ops[..q - 1] && ops[..q][q - 1] == ops[q - 1];
    }
  }

  lemma {:induction false} RetainIsNoLonger(times: seq<real>, now: real)
    ensures |Retain(times, now)| <= |times|
    decreases |times|
  {
    if times != [] {
      RetainIsNoLonger(times[..|times| - 1], now);
    }
  }

  /** No check of the run is blocked: none sees more than four failures. */
  lemma TightUnblocked(ip: Ip, m: nat, q: nat)
    requires q <= 8 + m
    ensures !Check(After(TightRun(ip, m)[..q]), ip, 0.0).1
  {
    var ops := TightRun(ip, m);
    var init := ops[..q];
    assert forall i | 0 <= i < q :: init[i].at == ops[i].at;
    TightLog(ip, m, q);
    AnswerIsPruned(init, ip, 0.0);
    RetainIsNoLonger(Log(init, ip), 0.0);
  }

  lemma TightPair(ip: Ip, m: nat, p: nat)
    requires p < 8 + 2 * m && TightRun(ip, m)[p].Wrong?
    ensures p in TightPairs(m)
    ensures var q := TightPairs(m)[p]; q < p && q <= 8 + m && TightRun(ip, m)[q] == Ask(ip, 0.0)
  {}

  lemma TightIsPaired(ip: Ip, m: nat)
    ensures InTime(TightRun(ip, m)) && Paired(TightRun(ip, m), TightPairs(m))
  {
    var ops, from := TightRun(ip, m), TightPairs(m);
    forall p: nat | p < |ops| && ops[p].Wrong?
      ensures ops[p].ip == ip && p in from && from[p] < p && ops[from[p]] == Ask(ip, 0.0)
      ensures !Check(After(ops[..from[p]]), ip, 0.0).1
    {
      TightPair(ip, m, p);
      TightUnblocked(ip, m, from[p]);
    }
  }

  function Interval(low: nat, high: nat): (r: set<nat>)
    requires low <= high
    ensures |r| == high - low && forall p :: p in r <==> low <= p < high
    decreases high - low
  {
    if low == high then {} else Interval(low, high - 1) + {high - 1}
  }

  lemma TightFlight(ip: Ip, m: nat)
    requires m >= 1
    ensures AtMost(TightRun(ip, m), TightPairs(m), ip, m)
  {
    var ops, from := TightRun(ip, m), TightPairs(m);
    forall t: nat | t <= |ops| ensures |InFlight(ops, from, ip, t)| <= m {
      var flight := InFlight(ops, from, ip, t);
      if t <= 8 {
        SubsetSize(flight, {t});
      } else {
        SubsetSize(flight, Interval(8 + m, 8 + 2 * m));
      }
    }
  }

  /** A run with at most `m` requests in flight in which one instant holds `4 + m` failures and no check was blocked. */
  lemma RaceAttained(ip: Ip, m: nat)
    requires m >= 1
    ensures var ops := TightRun(ip, m);
            && InTime(ops) && Paired(ops, TightPairs(m)) && AtMost(ops, TightPairs(m), ip, m)
            && |Log(ops, ip)| == 4 + m && (forall t | t in Log(ops, ip) :: t == 0.0)
  {
    var ops := TightRun(ip, m);
    TightIsPaired(ip, m);
    TightFlight(ip, m);
    TightLog(ip, m, |ops|);
    assert ops[..|ops|] == ops;
    PositionsAre(ops, ip);
  }

  /** No six consecutive failures of the address fall within a window. */
  ghost predicate HoldsToFive(ops: seq<Op>, ip: Ip) {
    forall i: nat | i + 5 < |Log(ops, ip)| :: Log(ops, ip)[i + 5] - Log(ops, ip)[i] >= 60.0
  }

  /** Five a minute is guaranteed exactly when an address never has two requests in flight. */
  lemma FiveExactlyWhenSerial(ip: Ip, m: nat)
    ensures (forall ops, from | InTime(ops) && Paired(ops, from) && AtMost(ops, from, ip, m) ::
               HoldsToFive(ops, ip)) <==> m <= 1
  {
    if m <= 1 {
      forall ops, from | InTime(ops) && Paired(ops, from) && AtMost(ops, from, ip, m) ensures HoldsToFive(ops, ip) {
        assert AtMost(ops, from, ip, 1);
        forall i: nat | i + 5 < |Log(ops, ip)| ensures Log(ops, ip)[i + 5] - Log(ops, ip)[i] >= 60.0
        {
          RaceBound(ops, from, ip, 1, i);
        }
      }
    } else {
      var ops := TightRun(ip, m);
      RaceAttained(ip, m);
      assert Log(ops, ip)[0] in Log(ops, ip) && Log(ops, ip)[0 + 5] in Log(ops, ip);
    }
  }
}
