/** The per-key token bucket that gates the proxy endpoints. Times are seconds. */
module TokenBucket {
  import opened Prelude

  const CAPACITY: real := 200.0
  const RATE: real := 200.0 / 60.0
  const COST: real := 1.0

  datatype BucketKey = Account(id: int) | Ip(address: string)

  /** What a bucket holds. */
  datatype Level = Level(tokens: real, lastRefill: real)

  /** 429 carries the whole seconds until the request could succeed. */
  datatype Outcome = Granted | RetryAfter(secs: nat)

  function Full(at: real): Level { Level(CAPACITY, at) }

  function MinReal(a: real, b: real): real { if a <= b then a else b }

  function Refill(b: Level, now: real): Level {
    if now > b.lastRefill then Level(MinReal(b.tokens + (now - b.lastRefill) * RATE, CAPACITY), now) else b
  }

  function Ceil(x: real): int { -((-x).Floor) }

  /** Whole seconds until `deficit` tokens have been added, at least one. */
  function Wait(deficit: real): nat {
    Max(1, Ceil(deficit / RATE))
  }

  function Acquire(b: Level, now: real, cost: real): (Level, Outcome) {
    var r := Refill(b, now);
    if r.tokens >= cost then (r.(tokens := r.tokens - cost), Granted)
    else (r, RetryAfter(Wait(cost - r.tokens)))
  }

  class Bucket {
    var tokens: real
    var lastRefill: real

    function View(): Level
      reads this
    {
      Level(tokens, lastRefill)
    }

    constructor (now: real)
      ensures View() == Full(now)
    {
      tokens, lastRefill := CAPACITY, now;
    }

    method RefillAt(now: real)
      modifies this
      ensures View() == Refill(old(View()), now)
    {
      var elapsed := now - lastRefill;
      if elapsed > 0.0 {
        tokens := MinReal(tokens + elapsed * RATE, CAPACITY);
        lastRefill := now;
      }
    }

    method TryAcquire(now: real, cost: real) returns (r: Outcome)
      modifies this
      ensures (View(), r) == Acquire(old(View()), now, cost)
    {
      RefillAt(now);
      if tokens >= cost {
        tokens := tokens - cost;
        r := Granted;
      } else {
        var deficit := cost - tokens;
        var secs := Ceil(deficit / RATE);
        r := RetryAfter(Max(secs, 1));
      }
    }
  }

  class Limiter {
    var buckets: map<BucketKey, Bucket>

    /** Each key has a bucket of its own. */
    ghost predicate Valid()
      reads this
    {
      forall a, b | a in buckets && b in buckets && a != b :: buckets[a] != buckets[b]
    }

    ghost function View(): map<BucketKey, Level>
      reads this, buckets.Values
    {
      map k | k in buckets :: buckets[k].View()
    }

    constructor ()
      ensures Valid() && View() == map[]
    {
      buckets := map[];
    }

    /** The key's bucket, a full one if the key is new. */
    method BucketFor(key: BucketKey, now: real) returns (b: Bucket)
      requires Valid()
      modifies this
      ensures Valid() && fresh(buckets.Values - old(buckets).Values)
      ensures key in buckets && buckets[key] == b
      ensures View() == if key in old(buckets) then old(View()) else old(View())[key := Full(now)]
    {
      if key !in buckets {
        b := new Bucket(now);
        buckets := buckets[key := b];
      } else {
        b := buckets[key];
      }
    }

    /** Charge one request to its key's bucket. */
    method Serve(key: BucketKey, now: real) returns (r: Outcome)
      requires Valid()
      modifies this, buckets.Values
      ensures Valid() && fresh(buckets.Values - old(buckets).Values)
      ensures (View(), r) == Charge(old(View()), key, now)
    {
      var b := BucketFor(key, now);
      ghost var before := View();
      ghost var level := b.View();
      assert level == before[key] == if key in old(View()) then old(View())[key] else Full(now);
      r := b.TryAcquire(now, COST);
      assert View() == before[key := b.View()] by {
        forall k | k in buckets && k != key ensures buckets[k].View() == before[k] {
          assert buckets[k] != b;
        }
      }
      assert before[key := b.View()] == old(View())[key := b.View()];
    }
  }

  function Charge(m: map<BucketKey, Level>, key: BucketKey, now: real): (map<BucketKey, Level>, Outcome) {
    var b := if key in m then m[key] else Full(now);
    var (b', r) := Acquire(b, now, COST);
    (m[key := b'], r)
  }

  // ---------------------------------------------------------------------
  // One bucket
  // ---------------------------------------------------------------------

  lemma RateTimes(a: real, b: real)
    requires a <= b
    ensures a * RATE <= b * RATE
  {}

  /** Refilling lazily is as good as refilling often. */
  lemma RefillsCompose(b: Level, t1: real, t2: real)
    requires b.tokens <= CAPACITY && t1 <= t2
    ensures Refill(Refill(b, t1), t2) == Refill(b, t2)
  {
    if b.lastRefill < t1 < t2 {
      assert (t1 - b.lastRefill) * RATE + (t2 - t1) * RATE == (t2 - b.lastRefill) * RATE;
      RateTimes(0.0, t2 - t1);
    }
  }

  /**
   * The wait after a denial is exact: alone, the request succeeds after that
   * many seconds, and would still fail a second earlier (unless it is the minimum, one).
   */
  lemma RetryAfterIsExact(b: Level, now: real, cost: real)
    requires b.tokens <= CAPACITY && b.lastRefill <= now && cost <= CAPACITY && Acquire(b, now, cost).1.RetryAfter?
    ensures var (b', denied) := Acquire(b, now, cost);
            && Acquire(b', now + denied.secs as real, cost).1 == Granted
            && (denied.secs > 1 ==> Acquire(b', now + (denied.secs - 1) as real, cost).1 != Granted)
  {
    var r := Refill(b, now);
    var deficit := cost - r.tokens;
    var w := deficit / RATE;
    var s := Wait(deficit);
    assert w * RATE == deficit;
    assert Ceil(w) as real >= w && Ceil(w) as real - 1.0 < w;
    RateTimes(w, s as real);
    if s > 1 {
      var early := (s - 1) as real;
      assert early < w;
      assert (w - early) * RATE > 0.0;
      assert early * RATE == deficit - (w - early) * RATE;
      RateTimes(0.0, early);
    }
  }

  ghost predicate Nondecreasing(ts: seq<real>) {
    forall i, j | 0 <= i <= j < |ts| :: ts[i] <= ts[j]
  }

  /** The bucket's level before request `n` of `ts`, created full at the first. */
  function LevelAt(ts: seq<real>, n: nat): Level
    requires ts != [] && n <= |ts|
  {
    if n == 0 then Full(ts[0]) else Acquire(LevelAt(ts, n - 1), ts[n - 1], COST).0
  }

  predicate IsGranted(ts: seq<real>, n: nat)
    requires n < |ts|
  {
    Acquire(LevelAt(ts, n), ts[n], COST).1 == Granted
  }

  /** The requests granted among `i` to before `j`. */
  function Grants(ts: seq<real>, i: nat, j: nat): nat
    requires i <= j <= |ts|
  {
    if i == j then 0 else Grants(ts, i, j - 1) + if IsGranted(ts, j - 1) then 1 else 0
  }

  /** What requests `i` to before `j` leave of the budget of a window from `ts[i]` to `ts[j]`. */
  function Budget(ts: seq<real>, i: nat, j: nat): real
    requires i <= j < |ts|
  {
    CAPACITY + (ts[j] - ts[i]) * RATE - Grants(ts, i, j) as real
  }

  /** The tokens a request finds. */
  function Found(ts: seq<real>, n: nat): real
    requires n < |ts|
  {
    Refill(LevelAt(ts, n), ts[n]).tokens
  }

  lemma {:induction false} LevelTime(ts: seq<real>, n: nat)
    requires Nondecreasing(ts) && n < |ts|
    ensures LevelAt(ts, n).lastRefill == ts[if n == 0 then 0 else n - 1]
    ensures LevelAt(ts, n).tokens <= CAPACITY
    decreases n
  {
    if n > 0 {
      LevelTime(ts, n - 1);
    }
  }

  /** The tokens one request finds, from those the one before found. */
  lemma FoundStep(ts: seq<real>, n: nat)
    requires Nondecreasing(ts) && 0 < n < |ts|
    ensures Found(ts, n)
         == MinReal(Found(ts, n - 1) - (if IsGranted(ts, n - 1) then 1.0 else 0.0) + (ts[n] - ts[n - 1]) * RATE,
                    CAPACITY)
  {
    LevelTime(ts, n - 1);
    LevelTime(ts, n);
  }

  /** A request finds exactly the least budget over all windows ending with it. */
  lemma {:induction false} FoundIsLeastBudget(ts: seq<real>, n: nat) returns (w: nat)
    requires Nondecreasing(ts) && n < |ts|
    ensures forall i | 0 <= i <= n :: Found(ts, n) <= Budget(ts, i, n)
    ensures w <= n && Found(ts, n) == Budget(ts, w, n)
    decreases n
  {
    if n == 0 {
      w := 0;
    } else {
      w := FoundIsLeastBudget(ts, n - 1);
      FoundStep(ts, n);
      forall i | 0 <= i < n
        ensures Budget(ts, i, n)
             == Budget(ts, i, n - 1) - (if IsGranted(ts, n - 1) then 1.0 else 0.0) + (ts[n] - ts[n - 1]) * RATE
      {
        assert (ts[n] - ts[i]) * RATE == (ts[n - 1] - ts[i]) * RATE + (ts[n] - ts[n - 1]) * RATE;
      }
      if Found(ts, n) == CAPACITY {
        w := n;
      }
    }
  }

  /** With one more grant, the window from request `i` to request `n` holds no more than it may. */
  ghost predicate Fits(ts: seq<real>, i: nat, n: nat)
    requires i <= n < |ts|
  {
    Grants(ts, i, n) as real + 1.0 <= 200.0 + (ts[n] - ts[i]) * (200.0 / 60.0)
  }

  lemma FitsBudget(ts: seq<real>, i: nat, n: nat)
    requires i <= n < |ts|
    ensures Fits(ts, i, n) <==> Budget(ts, i, n) >= COST
  {}

  /**
   * A request is granted exactly when, with it, no window ending at it would
   * hold more than 200 and 200 for each minute of its length.
   */
  lemma GrantedIff(ts: seq<real>, n: nat)
    requires Nondecreasing(ts) && n < |ts|
    ensures IsGranted(ts, n) <==> forall i: nat | i <= n :: Fits(ts, i, n)
  {
    var w := FoundIsLeastBudget(ts, n);
    assert IsGranted(ts, n) <==> Found(ts, n) >= COST;
    FitsBudget(ts, w, n);
    if IsGranted(ts, n) {
      forall i: nat | i <= n ensures Fits(ts, i, n) {
        assert Found(ts, n) <= Budget(ts, i, n);
        FitsBudget(ts, i, n);
      }
    }
  }

  /** So in any window of length `t` at most 200 and 200 a minute of it are granted. */
  lemma {:induction false} WindowBound(ts: seq<real>, i: nat, j: nat, t: real)
    requires Nondecreasing(ts) && i < j <= |ts| && ts[j - 1] - ts[i] <= t
    ensures Grants(ts, i, j) as real <= 200.0 + t * (200.0 / 60.0)
    decreases j
  {
    RateTimes(ts[j - 1] - ts[i], t);
    if IsGranted(ts, j - 1) {
      GrantedIff(ts, j - 1);
      assert Fits(ts, i, j - 1);
    } else if i < j - 1 {
      WindowBound(ts, i, j - 1, t);
    } else {
      RateTimes(0.0, ts[j - 1] - ts[i]);
    }
  }

  /** And demand no denser than one request every 0.3 seconds is never denied. */
  lemma SteadyDemandGranted(ts: seq<real>, n: nat)
    requires Nondecreasing(ts) && n < |ts|
    requires forall k | 0 < k <= n :: ts[k] - ts[k - 1] >= 0.3
    ensures IsGranted(ts, n)
  {
    forall i: nat | i <= n ensures Fits(ts, i, n) {
      SteadyWindow(ts, i, n);
    }
    GrantedIff(ts, n);
  }

  lemma {:induction false} SteadyWindow(ts: seq<real>, i: nat, j: nat)
    requires i <= j < |ts|
    requires forall k | 0 < k <= j :: ts[k] - ts[k - 1] >= 0.3
    ensures Grants(ts, i, j) as real <= (ts[j] - ts[i]) * RATE
    decreases j
  {
    if i < j {
      SteadyWindow(ts, i, j - 1);
      assert (ts[j] - ts[i]) * RATE == (ts[j - 1] - ts[i]) * RATE + (ts[j] - ts[j - 1]) * RATE;
    }
  }

  // ---------------------------------------------------------------------
  // Many keys
  // ---------------------------------------------------------------------

  datatype Request = Request(key: BucketKey, at: real)

  function Served(rs: seq<Request>): map<BucketKey, Level> {
    if rs == [] then map[] else Charge(Served(rs[..|rs| - 1]), rs[|rs| - 1].key, rs[|rs| - 1].at).0
  }

  function OutcomeOf(rs: seq<Request>): Outcome
    requires rs != []
  {
    Charge(Served(rs[..|rs| - 1]), rs[|rs| - 1].key, rs[|rs| - 1].at).1
  }

  /** The times of one key's requests. */
  function TimesOf(rs: seq<Request>, key: BucketKey): seq<real> {
    if rs == [] then []
    else TimesOf(rs[..|rs| - 1], key) + if rs[|rs| - 1].key == key then [rs[|rs| - 1].at] else []
  }

  lemma {:induction false} LevelPrefix(ts: seq<real>, more: seq<real>, n: nat)
    requires ts != [] && n <= |ts|
    ensures LevelAt(ts + more, n) == LevelAt(ts, n)
    decreases n
  {
    if n > 0 {
      LevelPrefix(ts, more, n - 1);
    }
  }

  lemma {:induction false} ServedIsOwn(rs: seq<Request>, key: BucketKey)
    ensures var ts := TimesOf(rs, key);
            && (key in Served(rs) <==> ts != [])
            && (ts != [] ==> Served(rs)[key] == LevelAt(ts, |ts|))
    decreases |rs|
  {
    if rs != [] {
      var init, last := rs[..|rs| - 1], rs[|rs| - 1];
      ServedIsOwn(init, key);
      if last.key == key {
        var ts := TimesOf(init, key);
        var all := ts + [last.at];
        assert TimesOf(rs, key) == all;
        assert Served(rs) == Charge(Served(init), key, last.at).0;
        assert LevelAt(all, |all|) == Acquire(LevelAt(all, |ts|), all[|ts|], COST).0;
        if ts != [] {
          LevelPrefix(ts, [last.at], |ts|);
        }
      } else {
        assert TimesOf(rs, key) == TimesOf(init, key);
      }
    }
  }

  /** Keys do not affect each other: a request fares as it would among its own key's requests alone. */
  lemma KeysAreIndependent(rs: seq<Request>)
    requires rs != []
    ensures var ts := TimesOf(rs, rs[|rs| - 1].key);
            && ts != []
            && (OutcomeOf(rs) == Granted <==> IsGranted(ts, |ts| - 1))
  {
    var init, last := rs[..|rs| - 1], rs[|rs| - 1];
    var ts := TimesOf(init, last.key);
    ServedIsOwn(init, last.key);
    if ts != [] {
      LevelPrefix(ts, [last.at], |ts|);
    } else {
      assert [] + [last.at] == [last.at];
    }
  }
}
