/** The round-robin that builds the up-next queue from per-channel buckets. */
module UpNext {
  import opened Prelude

  const DEFAULT_LIMIT := 10

  /** How many items the round-robin aims for. */
  function Wanted(limit: nat): nat {
    Max(limit * 2, DEFAULT_LIMIT)
  }

  function Total<T>(bs: seq<seq<T>>): nat {
    if bs == [] then 0 else Total(bs[..|bs| - 1]) + |bs[|bs| - 1]|
  }

  /** What a bucket gives when it is popped. */
  function Top<T>(b: seq<T>): seq<T> {
    if b == [] then [] else [b[|b| - 1]]
  }

  /** What a pop leaves in the bucket. */
  function Pop<T>(b: seq<T>): seq<T> {
    if b == [] then [] else b[..|b| - 1]
  }

  /** What one round takes: the last item of every bucket that has one, in bucket order. */
  function Tops<T>(bs: seq<seq<T>>): seq<T> {
    if bs == [] then [] else Tops(bs[..|bs| - 1]) + Top(bs[|bs| - 1])
  }

  /** What one round leaves. */
  function Popped<T>(bs: seq<seq<T>>): (r: seq<seq<T>>)
    ensures |r| == |bs|
  {
    if bs == [] then [] else Popped(bs[..|bs| - 1]) + [Pop(bs[|bs| - 1])]
  }

  function Empties<T>(bs: seq<seq<T>>): nat {
    if bs == [] then 0 else Empties(bs[..|bs| - 1]) + if bs[|bs| - 1] == [] then 1 else 0
  }

  lemma {:induction false} PoppedAt<T>(bs: seq<seq<T>>, i: nat)
    requires i < |bs|
    ensures Popped(bs)[i] == Pop(bs[i])
    decreases |bs|
  {
    if i < |bs| - 1 {
      PoppedAt(bs[..|bs| - 1], i);
    }
  }

  /** One more bucket of a round. */
  lemma {:induction false} RoundStep<T>(bs: seq<seq<T>>, i: nat)
    requires i < |bs|
    ensures Tops(bs[..i + 1]) == Tops(bs[..i]) + Top(bs[i])
    ensures Popped(bs[..i + 1]) == Popped(bs[..i]) + [Pop(bs[i])]
    ensures Empties(bs[..i + 1]) == Empties(bs[..i]) + if bs[i] == [] then 1 else 0
  {
    assert bs[..i + 1][..i] == bs[..i];
  }

  /** A round moves every top from the buckets to the queue. */
  lemma {:induction false} RoundCounts<T>(bs: seq<seq<T>>)
    ensures Total(bs) == |Tops(bs)| + Total(Popped(bs))
    ensures |Tops(bs)| == |bs| - Empties(bs)
    ensures Total(bs) == 0 <==> Empties(bs) == |bs|
    decreases |bs|
  {
    if bs != [] {
      RoundCounts(bs[..|bs| - 1]);
      assert Popped(bs)[..|bs| - 1] == Popped(bs[..|bs| - 1]);
    }
  }

  /** The whole queue, round by round. */
  function Rounds<T>(bs: seq<seq<T>>): seq<T>
    decreases Total(bs)
  {
    if Total(bs) == 0 then []
    else
      RoundCounts(bs);
      Tops(bs) + Rounds(Popped(bs))
  }

  /** Rounds over buckets that are all empty add nothing, so one round can always be split off. */
  lemma {:induction false} SplitRound<T>(bs: seq<seq<T>>)
    ensures Rounds(bs) == Tops(bs) + Rounds(Popped(bs))
  {
    RoundCounts(bs);
    if Total(bs) == 0 {
      assert Tops(bs) == [];
    }
  }

  lemma {:induction false} TopsPrefix<T>(bs: seq<seq<T>>, i: nat)
    requires i <= |bs|
    ensures Tops(bs[..i]) <= Tops(bs) && Empties(bs[..i]) <= i
    decreases |bs|
  {
    if i == |bs| {
      assert bs[..i] == bs;
      RoundCounts(bs);
    } else {
      TopsPrefix(bs[..|bs| - 1], i);
      assert bs[..|bs| - 1][..i] == bs[..i];
    }
  }

  /** Popping bucket `i` in place, when the buckets before it are popped already. */
  lemma PopInPlace<T>(input: seq<seq<T>>, buckets: seq<seq<T>>, i: nat)
    requires i < |input| == |buckets| && buckets == Popped(input[..i]) + input[i..]
    ensures buckets[i] == input[i]
    ensures buckets[i := Pop(buckets[i])] == Popped(input[..i + 1]) + input[i + 1..]
    ensures buckets[i] == [] ==> buckets == Popped(input[..i + 1]) + input[i + 1..]
  {
    RoundStep(input, i);
    var front := Popped(input[..i]);
    assert buckets[i := Pop(input[i])] == front + [Pop(input[i])] + input[i + 1..];
    if input[i] == [] {
      assert buckets[i := Pop(input[i])] == buckets;
    }
  }

  /** A round from `start` has gone through the first `i` buckets. */
  ghost predicate MidRound<T>(
      input: seq<seq<T>>, start: seq<T>, i: nat, buckets: seq<seq<T>>, out: seq<T>, exhausted: nat) {
    && i <= |input| == |buckets|
    && out == start + Tops(input[..i])
    && buckets == Popped(input[..i]) + input[i..]
    && exhausted == Empties(input[..i])
  }

  lemma MidRoundStarts<T>(input: seq<seq<T>>, start: seq<T>)
    ensures MidRound(input, start, 0, input, start, 0)
  {
    assert input[..0] == [] && input[0..] == input;
  }

  lemma MidRoundPops<T>(
      input: seq<seq<T>>, start: seq<T>, i: nat, buckets: seq<seq<T>>, out: seq<T>, exhausted: nat)
    requires MidRound(input, start, i, buckets, out, exhausted) && i < |input| && buckets[i] != []
    ensures var b := buckets[i];
            MidRound(input, start, i + 1, buckets[i := b[..|b| - 1]], out + [b[|b| - 1]], exhausted)
  {
    RoundStep(input, i);
    PopInPlace(input, buckets, i);
    JoinIsAssociative(start, Tops(input[..i]), Top(input[i]));
  }

  lemma MidRoundSkips<T>(
      input: seq<seq<T>>, start: seq<T>, i: nat, buckets: seq<seq<T>>, out: seq<T>, exhausted: nat)
    requires MidRound(input, start, i, buckets, out, exhausted) && i < |input| && buckets[i] == []
    ensures MidRound(input, start, i + 1, buckets, out, exhausted + 1)
  {
    RoundStep(input, i);
    PopInPlace(input, buckets, i);
    assert Tops(input[..i + 1]) == Tops(input[..i]);
  }

  /** One round over the buckets, cut short when the target is reached. */
  method OneRound<T>(input: seq<seq<T>>, start: seq<T>, target: nat)
    returns (buckets: seq<seq<T>>, out: seq<T>, exhausted: nat, ghost taken: nat)
    requires |start| < target
    ensures MidRound(input, start, taken, buckets, out, exhausted) && |out| <= target
    ensures taken < |input| ==> |out| == target
  {
    buckets, out, exhausted := input, start, 0;
    var i: nat := 0;
    MidRoundStarts(input, start);
    while i < |buckets| && |out| < target
      invariant MidRound(input, start, i, buckets, out, exhausted) && |out| <= target
    {
      var b := buckets[i];
      if b != [] {
        MidRoundPops(input, start, i, buckets, out, exhausted);
        out := out + [b[|b| - 1]];
        buckets := buckets[i := b[..|b| - 1]];
      } else {
        MidRoundSkips(input, start, i, buckets, out, exhausted);
        exhausted := exhausted + 1;
      }
      i := i + 1;
    }
    taken := i;
  }

  lemma JoinIsAssociative<T>(a: seq<T>, b: seq<T>, c: seq<T>)
    ensures a + (b + c) == (a + b) + c
  {}

  lemma LongerPrefix<T>(done: seq<T>, t: seq<T>, rest: seq<T>, all: seq<T>)
    requires done + rest == all && t <= rest
    ensures done + t <= all
  {
    assert rest == t + rest[|t|..];
    JoinIsAssociative(done, t, rest[|t|..]);
  }

  /** After a round that went through every bucket. */
  lemma {:induction false} FullRound<T>(input: seq<seq<T>>, before: seq<seq<T>>, done: seq<T>)
    requires done + Rounds(before) == Rounds(input)
    ensures done + Tops(before) + Rounds(Popped(before)) == Rounds(input)
  {
    SplitRound(before);
    JoinIsAssociative(done, Tops(before), Rounds(Popped(before)));
  }

  lemma {:induction false} TopsBeginRounds<T>(bs: seq<seq<T>>, taken: nat)
    requires taken <= |bs|
    ensures Tops(bs[..taken]) <= Rounds(bs)
  {
    SplitRound(bs);
    TopsPrefix(bs, taken);
  }

  /** After a round that stopped at the target. */
  lemma {:induction false} CutRound<T>(input: seq<seq<T>>, before: seq<seq<T>>, taken: nat, done: seq<T>)
    requires done + Rounds(before) == Rounds(input) && taken <= |before|
    ensures done + Tops(before[..taken]) <= Rounds(input)
  {
    TopsBeginRounds(before, taken);
    LongerPrefix(done, Tops(before[..taken]), Rounds(before), Rounds(input));
  }

  /** Between rounds: the queue so far begins the rounds and the buckets hold the rest. */
  ghost predicate OnTrack<T>(input: seq<seq<T>>, buckets: seq<seq<T>>, out: seq<T>, target: nat, exhausted: nat) {
    && |out| <= target && out <= Rounds(input)
    && (|out| < target ==> out + Rounds(buckets) == Rounds(input))
    && exhausted <= |buckets|
    && (|out| < target && exhausted == |buckets| ==> Total(buckets) == 0)
  }

  /** One round stays on track, and gives an item or finds every bucket empty. */
  lemma RoundOnTrack<T>(input: seq<seq<T>>, before: seq<seq<T>>, done: seq<T>, target: nat, empty: nat,
                        taken: nat, buckets: seq<seq<T>>, out: seq<T>)
    requires OnTrack(input, before, done, target, empty) && |done| < target && empty < |before|
    requires taken <= |before| == |buckets| && out == done + Tops(before[..taken]) && |out| <= target
    requires taken == |before| ==> buckets == Popped(before)
    requires taken < |before| ==> |out| == target
    ensures OnTrack(input, buckets, out, target, Empties(before[..taken]))
    ensures |out| > |done| || (out == done && Empties(before[..taken]) == |before|)
  {
    TopsPrefix(before, taken);
    CutRound(input, before, taken, done);
    if taken == |before| {
      assert before[..taken] == before;
      FullRound(input, before, done);
      RoundCounts(before);
    }
  }

  /** A loop that ends on track has the rounds' first items. */
  lemma TrackEnds<T>(input: seq<seq<T>>, buckets: seq<seq<T>>, out: seq<T>, target: nat, exhausted: nat)
    requires OnTrack(input, buckets, out, target, exhausted)
    requires |out| == target || exhausted == |buckets|
    ensures out == Rounds(input)[..Min(target, |Rounds(input)|)]
  {
    if |out| < target {
      assert Rounds(buckets) == [];
      assert out == Rounds(input);
    }
  }

  /**
   * Pop one item per bucket and round until the target is reached or every
   * bucket is empty: the queue is the first `Wanted(limit)` items of the rounds.
   */
  method RoundRobin<T>(input: seq<seq<T>>, limit: nat) returns (out: seq<T>)
    ensures out == Rounds(input)[..Min(Max(2 * limit, 10), |Rounds(input)|)]
  {
    var target := Wanted(limit);
    var buckets := input;
    var exhausted: nat := 0;
    out := [];
    while exhausted < |buckets| && |out| < target
      invariant OnTrack(input, buckets, out, target, exhausted)
      decreases target - |out|, |buckets| - exhausted
    {
      ghost var before, done, empty := buckets, out, exhausted;
      ghost var taken;
      buckets, out, exhausted, taken := OneRound(buckets, out, target);
      assert taken == |before| ==> before[..taken] == before && buckets == Popped(before);
      RoundOnTrack(input, before, done, target, empty, taken, buckets, out);
    }
    TrackEnds(input, buckets, out, target, exhausted);
  }

  // ---------------------------------------------------------------------
  // What the rounds hold
  // ---------------------------------------------------------------------

  function Items<T>(bs: seq<seq<T>>): multiset<T> {
    if bs == [] then multiset{} else Items(bs[..|bs| - 1]) + multiset(bs[|bs| - 1])
  }

  lemma TopAndRest<T>(b: seq<T>)
    ensures multiset(b) == multiset(Pop(b)) + multiset(Top(b))
  {
    assert b == Pop(b) + Top(b);
  }

  lemma Regroup<T>(a: multiset<T>, b: multiset<T>, c: multiset<T>, d: multiset<T>)
    ensures (a + b) + (c + d) == (a + d) + (b + c)
  {}

  lemma PoppedItems<T>(bs: seq<seq<T>>)
    requires bs != []
    ensures Items(Popped(bs)) == Items(Popped(bs[..|bs| - 1])) + multiset(Pop(bs[|bs| - 1]))
  {
    assert Popped(bs)[..|bs| - 1] == Popped(bs[..|bs| - 1]);
  }

  lemma {:induction false} RoundItems<T>(bs: seq<seq<T>>)
    ensures Items(bs) == multiset(Tops(bs)) + Items(Popped(bs))
    decreases |bs|
  {
    if bs != [] {
      var rest, b := bs[..|bs| - 1], bs[|bs| - 1];
      RoundItems(rest);
      PoppedItems(bs);
      TopAndRest(b);
      Regroup(multiset(Tops(rest)), Items(Popped(rest)), multiset(Pop(b)), multiset(Top(b)));
    }
  }

  lemma {:induction false} NoItems<T>(bs: seq<seq<T>>)
    requires Total(bs) == 0
    ensures Items(bs) == multiset{}
    decreases |bs|
  {
    if bs != [] {
      NoItems(bs[..|bs| - 1]);
    }
  }

  /** The rounds hold every item exactly as often as the buckets do, so the queue has min(target, all) of them. */
  lemma {:induction false} RoundsConserve<T>(bs: seq<seq<T>>)
    ensures multiset(Rounds(bs)) == Items(bs)
    ensures |Rounds(bs)| == Total(bs)
    decreases Total(bs)
  {
    if Total(bs) == 0 {
      NoItems(bs);
    } else {
      RoundCounts(bs);
      RoundsConserve(Popped(bs));
      RoundItems(bs);
    }
  }

  // ---------------------------------------------------------------------
  // Fairness
  // ---------------------------------------------------------------------

  /** Every item carries the number of its bucket. */
  ghost predicate Tagged<T>(bs: seq<seq<(nat, T)>>) {
    forall i, j | 0 <= i < |bs| && 0 <= j < |bs[i]| :: bs[i][j].0 == i
  }

  /** The items of bucket `i` among `out`. */
  function Given<T>(out: seq<(nat, T)>, i: nat): nat {
    if out == [] then 0 else Given(out[..|out| - 1], i) + if out[|out| - 1].0 == i then 1 else 0
  }

  lemma {:induction false} GivenJoin<T>(a: seq<(nat, T)>, b: seq<(nat, T)>, i: nat)
    ensures Given(a + b, i) == Given(a, i) + Given(b, i)
    decreases |b|
  {
    if b == [] {
      assert a + b == a;
    } else {
      GivenJoin(a, b[..|b| - 1], i);
      assert (a + b)[..|a + b| - 1] == a + b[..|b| - 1];
    }
  }

  lemma GivenTop<T>(b: seq<(nat, T)>, tag: nat, i: nat)
    requires b != [] ==> b[|b| - 1].0 == tag
    ensures Given(Top(b), i) == if b != [] && tag == i then 1 else 0
  {
    assert b != [] ==> Top(b)[..0] == [];
  }

  lemma {:induction false} GivenTops<T>(bs: seq<seq<(nat, T)>>, i: nat)
    requires Tagged(bs)
    ensures Given(Tops(bs), i) == if i < |bs| && bs[i] != [] then 1 else 0
    decreases |bs|
  {
    if bs != [] {
      var n := |bs| - 1;
      GivenTops(bs[..n], i);
      GivenTop(bs[n], n, i);
      GivenJoin(Tops(bs[..n]), Top(bs[n]), i);
    }
  }

  lemma {:induction false} GivenPrefix<T>(out: seq<(nat, T)>, n: nat, i: nat)
    requires n <= |out|
    ensures Given(out[..n], i) <= Given(out, i)
  {
    GivenJoin(out[..n], out[n..], i);
    assert out[..n] + out[n..] == out;
  }

  /** How many rounds are complete after `n` items. */
  function RoundsDone<T>(bs: seq<seq<T>>, n: nat): nat
    decreases Total(bs)
  {
    if Total(bs) == 0 || n <= |Tops(bs)| then 0
    else
      RoundCounts(bs);
      RoundsDone(Popped(bs), n - |Tops(bs)|) + 1
  }

  lemma {:induction false} PoppedStaysTagged<T>(bs: seq<seq<(nat, T)>>)
    requires Tagged(bs)
    ensures Tagged(Popped(bs))
  {
    forall i, j | 0 <= i < |bs| && 0 <= j < |Popped(bs)[i]| ensures Popped(bs)[i][j].0 == i {
      PoppedAt(bs, i);
    }
  }

  /** Items past the first round are the first round's and those of the rounds after it. */
  lemma GivenAfterRound<T>(bs: seq<seq<(nat, T)>>, n: nat, i: nat)
    requires Tagged(bs) && |Tops(bs)| < n <= |Rounds(bs)| && i < |bs|
    ensures n - |Tops(bs)| <= |Rounds(Popped(bs))|
    ensures Given(Rounds(bs)[..n], i) == Given(Rounds(Popped(bs))[..n - |Tops(bs)|], i) + Min(|bs[i]|, 1)
  {
    var tops, rest, m := Tops(bs), Rounds(Popped(bs)), n - |Tops(bs)|;
    SplitRound(bs);
    assert Rounds(bs)[..n] == tops + rest[..m];
    GivenJoin(tops, rest[..m], i);
    GivenTops(bs, i);
  }

  /** What is left for the rounds after the first. */
  lemma {:induction false} LaterRounds<T>(bs: seq<seq<(nat, T)>>, n: nat, i: nat)
    requires Total(bs) > 0 && n > |Tops(bs)| && i < |bs|
    ensures Total(Popped(bs)) < Total(bs)
    ensures |Popped(bs)[i]| == |bs[i]| - Min(|bs[i]|, 1)
    ensures RoundsDone(bs, n) == RoundsDone(Popped(bs), n - |Tops(bs)|) + 1
  {
    RoundCounts(bs);
    PoppedAt(bs, i);
  }

  /** A bucket of `len` items has given one item per complete round, and maybe one for the round under way. */
  ghost predicate InStep(len: nat, rounds: nat, given: nat) {
    Min(len, rounds) <= given <= Min(len, rounds + 1)
  }

  lemma GivenInRound<T>(bs: seq<seq<(nat, T)>>, n: nat, i: nat)
    requires Tagged(bs) && n <= |Tops(bs)| && n <= |Rounds(bs)| && i < |bs|
    ensures InStep(|bs[i]|, 0, Given(Rounds(bs)[..n], i))
  {
    SplitRound(bs);
    assert Rounds(bs)[..n] == Tops(bs)[..n];
    GivenPrefix(Tops(bs), n, i);
    GivenTops(bs, i);
  }

  lemma InStepAfterRound(len: nat, left: nat, rounds: nat, given: nat)
    requires left == len - Min(len, 1) && InStep(left, rounds, given)
    ensures InStep(len, rounds + 1, given + Min(len, 1))
  {}

  lemma NothingDone<T>(bs: seq<seq<T>>, n: nat)
    requires n <= |Rounds(bs)| && (Total(bs) == 0 || n <= |Tops(bs)|)
    ensures n <= |Tops(bs)| && RoundsDone(bs, n) == 0
  {}

  /** Bucket `i` is in step after `n` items. */
  ghost predicate Even<T>(bs: seq<seq<(nat, T)>>, n: nat, i: nat)
    requires n <= |Rounds(bs)| && i < |bs|
  {
    InStep(|bs[i]|, RoundsDone(bs, n), Given(Rounds(bs)[..n], i))
  }

  lemma EvenInRound<T>(bs: seq<seq<(nat, T)>>, n: nat, i: nat)
    requires Tagged(bs) && n <= |Rounds(bs)| && i < |bs| && (Total(bs) == 0 || n <= |Tops(bs)|)
    ensures Even(bs, n, i)
  {
    NothingDone(bs, n);
    GivenInRound(bs, n, i);
  }

  lemma EvenLater<T>(bs: seq<seq<(nat, T)>>, n: nat, i: nat, rest: seq<seq<(nat, T)>>, m: nat)
    requires Tagged(bs) && n <= |Rounds(bs)| && i < |bs| && Total(bs) > 0
    requires rest == Popped(bs) && n == |Tops(bs)| + m && m > 0
    requires m <= |Rounds(rest)| && Even(rest, m, i)
    ensures Even(bs, n, i)
  {
    LaterRounds(bs, n, i);
    GivenAfterRound(bs, n, i);
    InStepAfterRound(|bs[i]|, |rest[i]|, RoundsDone(rest, m), Given(Rounds(rest)[..m], i));
  }

  lemma RestIsSmaller<T>(bs: seq<seq<(nat, T)>>)
    requires Tagged(bs) && Total(bs) > 0
    ensures Total(Popped(bs)) < Total(bs) && Tagged(Popped(bs))
    ensures |Rounds(bs)| == |Tops(bs)| + |Rounds(Popped(bs))|
  {
    RoundCounts(bs);
    PoppedStaysTagged(bs);
    SplitRound(bs);
  }

  lemma {:induction false} RoundsUnderWay<T>(bs: seq<seq<(nat, T)>>, n: nat, i: nat)
    requires Tagged(bs) && n <= |Rounds(bs)| && i < |bs|
    ensures Even(bs, n, i)
    decreases Total(bs)
  {
    if Total(bs) == 0 || n <= |Tops(bs)| {
      EvenInRound(bs, n, i);
    } else {
      var rest, m := Popped(bs), n - |Tops(bs)|;
      RestIsSmaller(bs);
      RoundsUnderWay(rest, m, i);
      EvenLater(bs, n, i, rest, m);
    }
  }

  /** Whenever one bucket has given two or more items more than another, the other has given all it had. */
  lemma RoundRobinIsFair<T>(bs: seq<seq<(nat, T)>>, n: nat, i: nat, j: nat)
    requires Tagged(bs) && n <= |Rounds(bs)| && i < |bs| && j < |bs|
    requires Given(Rounds(bs)[..n], i) >= Given(Rounds(bs)[..n], j) + 2
    ensures Given(Rounds(bs)[..n], j) == |bs[j]|
  {
    RoundsUnderWay(bs, n, i);
    RoundsUnderWay(bs, n, j);
  }

  function Untag<T>(s: seq<(nat, T)>): (r: seq<T>)
    ensures |r| == |s|
  {
    seq(|s|, k requires 0 <= k < |s| => s[k].1)
  }

  ghost predicate IsUntagged<T>(bs: seq<seq<(nat, T)>>, plain: seq<seq<T>>) {
    |plain| == |bs| && forall i | 0 <= i < |bs| :: plain[i] == Untag(bs[i])
  }

  lemma UntagEnds<T>(a: seq<(nat, T)>)
    ensures Top(Untag(a)) == Untag(Top(a)) && Pop(Untag(a)) == Untag(Pop(a))
  {}

  lemma {:induction false} SameTops<T>(bs: seq<seq<(nat, T)>>, plain: seq<seq<T>>)
    requires IsUntagged(bs, plain)
    ensures Total(plain) == Total(bs) && Tops(plain) == Untag(Tops(bs))
    decreases |bs|
  {
    if bs != [] {
      var n := |bs| - 1;
      SameTops(bs[..n], plain[..n]);
      UntagEnds(bs[n]);
      UntagJoin(Tops(bs[..n]), Top(bs[n]));
    }
  }

  lemma SameRest<T>(bs: seq<seq<(nat, T)>>, plain: seq<seq<T>>)
    requires IsUntagged(bs, plain)
    ensures IsUntagged(Popped(bs), Popped(plain))
  {
    forall i | 0 <= i < |bs| ensures Popped(plain)[i] == Untag(Popped(bs)[i]) {
      PoppedAt(bs, i);
      PoppedAt(plain, i);
      UntagEnds(bs[i]);
    }
  }

  /** Tags change nothing: the rounds of the items are the items of the rounds. */
  lemma {:induction false} TagsDoNotMatter<T>(bs: seq<seq<(nat, T)>>, plain: seq<seq<T>>)
    requires IsUntagged(bs, plain)
    ensures Rounds(plain) == Untag(Rounds(bs))
    decreases Total(bs)
  {
    SameTops(bs, plain);
    SameRest(bs, plain);
    if Total(bs) > 0 {
      RoundCounts(bs);
      TagsDoNotMatter(Popped(bs), Popped(plain));
      UntagJoin(Tops(bs), Rounds(Popped(bs)));
    }
  }

  lemma {:induction false} UntagJoin<T>(a: seq<(nat, T)>, b: seq<(nat, T)>)
    ensures Untag(a + b) == Untag(a) + Untag(b)
  {}
}
