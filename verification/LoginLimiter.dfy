/** The login rate limiter (internal/server/middleware.go): a token bucket per IP with truncating
    integer refill, compared with an exact bucket over the reals. Times are nanoseconds. */
module LoginLimiter {
  import opened Text

  const MAX_TOKENS := 10
  const PERIOD := 10_000_000_000  // one token every 10 s

  datatype Bucket = Bucket(tokens: int, lastFill: int)

  // ---------- one call ----------

  /** Go's conversion of a float to int truncates toward zero. */
  function Truncated(elapsed: int): int {
    if elapsed >= 0 then elapsed / PERIOD else -((-elapsed) / PERIOD)
  }

  function Refill(b: Bucket, now: int): Bucket {
    var add := Truncated(now - b.lastFill);
    if add <= 0 then b
    else Bucket(if b.tokens + add > MAX_TOKENS then MAX_TOKENS else b.tokens + add, now)
  }

  /** One call of Allow on one bucket; a missing bucket starts full. */
  function Take(b: Option<Bucket>, now: int): (Bucket, bool) {
    var filled := Refill(if b.Some? then b.value else Bucket(MAX_TOKENS, now), now);
    if filled.tokens <= 0 then (filled, false) else (filled.(tokens := filled.tokens - 1), true)
  }

  function Find(buckets: map<string, Bucket>, ip: string): Option<Bucket> {
    if ip in buckets then Some(buckets[ip]) else None
  }

  function Allowed(buckets: map<string, Bucket>, ip: string, now: int): (map<string, Bucket>, bool) {
    var (b, ok) := Take(Find(buckets, ip), now);
    (buckets[ip := b], ok)
  }

  class IpBucket {
    var tokens: int
    var lastFill: int

    constructor (tokens: int, lastFill: int)
      ensures this.tokens == tokens && this.lastFill == lastFill
    {
      this.tokens, this.lastFill := tokens, lastFill;
    }

    /** The refill and the call, on a bucket that is there. */
    method Spend(now: int) returns (ok: bool)
      modifies this
      ensures (Bucket(tokens, lastFill), ok) == Take(Some(Bucket(old(tokens), old(lastFill))), now)
    {
      var elapsed := now - lastFill;
      var add := Truncated(elapsed);
      if add > 0 {
        tokens := tokens + add;
        if tokens > MAX_TOKENS {
          tokens := MAX_TOKENS;
        }
        lastFill := now;
      }
      if tokens <= 0 {
        return false;
      }
      tokens := tokens - 1;
      return true;
    }
  }

  class LoginRateLimiter {
    var buckets: map<string, IpBucket>

    ghost predicate Valid()
      reads this
    {
      forall a, b :: a in buckets && b in buckets && a != b ==> buckets[a] != buckets[b]
    }

    ghost function Value(): map<string, Bucket>
      reads this, buckets.Values
    {
      map ip | ip in buckets :: Bucket(buckets[ip].tokens, buckets[ip].lastFill)
    }

    constructor ()
      ensures Valid() && Value() == map[]
    {
      buckets := map[];
    }

    method Allow(ip: string, now: int) returns (ok: bool)
      requires Valid()
      modifies this, buckets.Values
      ensures Valid()
      ensures (Value(), ok) == Allowed(old(Value()), ip, now)
      ensures fresh(buckets.Values - old(buckets.Values))
    {
      ghost var before := Value();
      var b: IpBucket;
      if ip in buckets {
        b := buckets[ip];
      } else {
        b := new IpBucket(MAX_TOKENS, now);
        assert forall other :: other in buckets ==> buckets[other] in old(buckets.Values);
        buckets := buckets[ip := b];
      }
      assert forall other :: other in buckets && other != ip ==> buckets[other] != b;
      ok := b.Spend(now);
      assert Value() == before[ip := Bucket(b.tokens, b.lastFill)];
    }
  }

  // ---------- runs ----------

  datatype Call = Call(ip: string, now: int)

  function Run(buckets: map<string, Bucket>, calls: seq<Call>): (oks: seq<bool>)
    ensures |oks| == |calls|
    decreases |calls|
  {
    if calls == [] then []
    else
      var (buckets', ok) := Allowed(buckets, calls[0].ip, calls[0].now);
      [ok] + Run(buckets', calls[1..])
  }

  /** The calls of one IP alone, on its bucket. */
  function RunOne(b: Option<Bucket>, times: seq<int>): (oks: seq<bool>)
    ensures |oks| == |times|
    decreases |times|
  {
    if times == [] then []
    else
      var (b', ok) := Take(b, times[0]);
      [ok] + RunOne(Some(b'), times[1..])
  }

  function TimesOf(calls: seq<Call>, ip: string): seq<int> {
    if calls == [] then []
    else (if calls[0].ip == ip then [calls[0].now] else []) + TimesOf(calls[1..], ip)
  }

  function OksOf(calls: seq<Call>, oks: seq<bool>, ip: string): seq<bool>
    requires |oks| == |calls|
  {
    if calls == [] then []
    else (if calls[0].ip == ip then [oks[0]] else []) + OksOf(calls[1..], oks[1..], ip)
  }

  /** What one IP gets is what it would get alone, whatever the other IPs do in between. */
  lemma {:induction false} IpsIndependent(buckets: map<string, Bucket>, calls: seq<Call>, ip: string)
    ensures OksOf(calls, Run(buckets, calls), ip) == RunOne(Find(buckets, ip), TimesOf(calls, ip))
    decreases |calls|
  {
    if calls != [] {
      var (buckets', ok) := Allowed(buckets, calls[0].ip, calls[0].now);
      IpsIndependent(buckets', calls[1..], ip);
      assert Run(buckets, calls)[1..] == Run(buckets', calls[1..]);
      var times := TimesOf(calls[1..], ip);
      if calls[0].ip == ip {
        assert ([calls[0].now] + times)[1..] == times;
      } else {
        assert [] + times == times;
      }
    }
  }

  ghost predicate Sorted(times: seq<int>) {
    forall i, j :: 0 <= i <= j < |times| ==> times[i] <= times[j]
  }

  /** The times of the admitted calls. */
  function Admitted(times: seq<int>, oks: seq<bool>): seq<int>
    requires |times| == |oks|
  {
    if times == [] then []
    else (if oks[0] then [times[0]] else []) + Admitted(times[1..], oks[1..])
  }

  // ---------- the exact bucket ----------

  function Min(a: real, b: real): real { if a <= b then a else b }

  /** The level of an exact bucket: it gains `gain` tokens per period, continuously, up to its capacity. */
  function Level(capacity: real, gain: real, level: real, last: int, now: int): real {
    Min(capacity, level + gain * ((now - last) as real / PERIOD as real))
  }

  /** An exact bucket at some level admits every one of these calls. */
  predicate AdmitsAll(capacity: real, gain: real, level: real, last: int, times: seq<int>)
    decreases |times|
  {
    times == [] ||
    var l := Level(capacity, gain, level, last, times[0]);
    l >= 1.0 && AdmitsAll(capacity, gain, l - 1.0, times[0], times[1..])
  }

  /** The same from a full bucket. */
  predicate Conforms(capacity: real, gain: real, times: seq<int>) {
    times == [] || AdmitsAll(capacity, gain, capacity, times[0], times)
  }

  // ---------- simulation ----------

  /** After a call: the tokens left, with the part of a token gained since the last refill, are
      covered by the exact level. No bucket holds ten tokens after a call. */
  predicate Covered(b: Bucket, now: int, level: real) {
    && 0 <= b.tokens <= 9
    && 0 <= now - b.lastFill < PERIOD
    && b.tokens as real + (now - b.lastFill) as real / PERIOD as real <= level <= 10.0
  }

  lemma TakeCovered(b: Bucket, last: int, level: real, now: int)
    requires Covered(b, last, level) && last <= now
    ensures var l, (b', ok) := Level(10.0, 1.0, level, last, now), Take(Some(b), now);
            if ok then l >= 1.0 && Covered(b', now, l - 1.0) else Covered(b', now, l)
  {
    var e := now - b.lastFill;
    var k := e / PERIOD;
    assert k * PERIOD <= e < k * PERIOD + PERIOD;
    assert e as real / PERIOD as real ==
           (last - b.lastFill) as real / PERIOD as real + (now - last) as real / PERIOD as real;
    assert k as real <= e as real / PERIOD as real;
  }

  lemma {:induction false} RestAdmitted(b: Bucket, last: int, level: real, levelAt: int, times: seq<int>)
    requires Sorted(times) && (times != [] ==> last <= times[0])
    requires levelAt <= last && Covered(b, last, Level(10.0, 1.0, level, levelAt, last))
    ensures AdmitsAll(10.0, 1.0, level, levelAt, Admitted(times, RunOne(Some(b), times)))
    decreases |times|
  {
    if times != [] {
      var now := times[0];
      var l := Level(10.0, 1.0, level, levelAt, last);
      LevelsCompose(level, levelAt, last, now);
      TakeCovered(b, last, l, now);
      var (b', ok) := Take(Some(b), now);
      var oks := RunOne(Some(b), times);
      assert oks[1..] == RunOne(Some(b'), times[1..]);
      var rest := Admitted(times[1..], oks[1..]);
      var l' := Level(10.0, 1.0, level, levelAt, now);
      if ok {
        assert Level(10.0, 1.0, l' - 1.0, now, now) == l' - 1.0;
        RestAdmitted(b', now, l' - 1.0, now, times[1..]);
        assert ([now] + rest)[1..] == rest;
      } else {
        RestAdmitted(b', now, level, levelAt, times[1..]);
        assert [] + rest == rest;
      }
    }
  }

  lemma LevelsCompose(level: real, a: int, b: int, c: int)
    requires a <= b <= c
    ensures Level(10.0, 1.0, Level(10.0, 1.0, level, a, b), b, c) == Level(10.0, 1.0, level, a, c)
  {
  }

  /** Every run that Allow admits for one IP, an exact bucket of capacity 10 gaining one token per
      10 s admits. */
  lemma SimulatedByExactBucket(times: seq<int>)
    requires Sorted(times)
    ensures Conforms(10.0, 1.0, Admitted(times, RunOne(None, times)))
  {
    if times != [] {
      var now := times[0];
      var (b', ok) := Take(None, now);
      assert Truncated(0) == 0;
      assert b' == Bucket(9, now) && ok;
      var oks := RunOne(None, times);
      assert oks[1..] == RunOne(Some(b'), times[1..]);
      var rest := Admitted(times[1..], oks[1..]);
      assert Level(10.0, 1.0, 9.0, now, now) == 9.0;
      RestAdmitted(b', now, 9.0, now, times[1..]);
      assert Admitted(times, oks) == [now] + rest;
      assert ([now] + rest)[1..] == rest;
      assert Level(10.0, 1.0, 10.0, now, now) == 10.0;
    }
  }

  // ---------- how many calls can succeed ----------

  /** `dt` nanoseconds gain this much. */
  function Gain(gain: real, dt: int): real { gain * (dt as real / PERIOD as real) }

  lemma GainAdds(gain: real, a: int, b: int)
    ensures Gain(gain, a) + Gain(gain, b) == Gain(gain, a + b)
  {
    var x, y := a as real / PERIOD as real, b as real / PERIOD as real;
    assert (a + b) as real / PERIOD as real == x + y;
  }

  /** An exact bucket that admits everything up to the j-th call has had the tokens for it. */
  lemma {:induction false} AdmittedCount(capacity: real, gain: real, level: real, last: int, times: seq<int>, j: nat)
    requires AdmitsAll(capacity, gain, level, last, times) && j < |times|
    ensures (j + 1) as real <= level + Gain(gain, times[j] - last)
    decreases j
  {
    var l := Level(capacity, gain, level, last, times[0]);
    assert l <= level + Gain(gain, times[0] - last);
    if j > 0 {
      AdmittedCount(capacity, gain, l - 1.0, times[0], times[1..], j - 1);
      GainAdds(gain, times[0] - last, times[j] - times[0]);
    }
  }

  lemma {:induction false} AdmittedCountBetween(capacity: real, gain: real, level: real, last: int, times: seq<int>,
                                                i: nat, j: nat)
    requires AdmitsAll(capacity, gain, level, last, times) && i <= j < |times|
    ensures (j - i + 1) as real <= capacity + Gain(gain, times[j] - times[i])
    decreases i
  {
    var l := Level(capacity, gain, level, last, times[0]);
    if i > 0 {
      AdmittedCountBetween(capacity, gain, l - 1.0, times[0], times[1..], i - 1, j - 1);
    } else if j > 0 {
      AdmittedCount(capacity, gain, l - 1.0, times[0], times[1..], j - 1);
    }
  }

  /** In any window of length T (in ns) at most 10 + T/10s calls of one IP succeed. */
  lemma WindowBound(times: seq<int>, i: nat, j: nat, T: int)
    requires Sorted(times)
    requires var ok := Admitted(times, RunOne(None, times)); i <= j < |ok| && ok[j] - ok[i] <= T
    ensures j - i + 1 <= MAX_TOKENS + T / PERIOD
  {
    var ok := Admitted(times, RunOne(None, times));
    SimulatedByExactBucket(times);
    AdmittedCountBetween(10.0, 1.0, 10.0, ok[0], ok, i, j);
    var dt, k := ok[j] - ok[i], T / PERIOD;
    assert T < (k + 1) * PERIOD;
    assert dt as real / PERIOD as real < (k + 1) as real;
  }

  // ---------- the bound and the exact bucket are tight ----------

  /** One call each period. */
  function Steady(first: nat, n: nat): (times: seq<int>)
    ensures |times| == n
    ensures forall i :: 0 <= i < n ==> times[i] == (first + i) * PERIOD
    decreases n
  {
    if n == 0 then [] else [first * PERIOD] + Steady(first + 1, n - 1)
  }

  /** Ten calls at once and then one each period. */
  function Burst(n: nat): (times: seq<int>)
    ensures |times| == 10 + n
    ensures Sorted(times)
    ensures times[0] == 0 && times[|times| - 1] == n * PERIOD
  {
    Zeros(10) + Steady(1, n)
  }

  function Zeros(n: nat): (times: seq<int>)
    ensures |times| == n && forall i :: 0 <= i < n ==> times[i] == 0
  {
    if n == 0 then [] else [0] + Zeros(n - 1)
  }

  lemma {:induction false} SteadyAdmitted(first: nat, n: nat)
    requires first > 0
    ensures var times := Steady(first, n);
            Admitted(times, RunOne(Some(Bucket(0, (first - 1) * PERIOD)), times)) == times
    decreases n
  {
    if n > 0 {
      var b, now, times := Bucket(0, (first - 1) * PERIOD), first * PERIOD, Steady(first, n);
      assert Truncated(now - b.lastFill) == 1;
      assert Take(Some(b), now) == (Bucket(0, now), true);
      SteadyAdmitted(first + 1, n - 1);
      assert times[1..] == Steady(first + 1, n - 1);
      assert RunOne(Some(b), times)[1..] == RunOne(Some(Bucket(0, now)), times[1..]);
      assert times == [now] + times[1..];
    }
  }

  lemma OneZeroAdmitted(left: nat, rest: seq<int>)
    requires 0 < left <= 10
    ensures Take(Some(Bucket(left, 0)), 0) == (Bucket(left - 1, 0), true)
    ensures Admitted([0] + rest, RunOne(Some(Bucket(left, 0)), [0] + rest)) ==
            [0] + Admitted(rest, RunOne(Some(Bucket(left - 1, 0)), rest))
  {
    assert Truncated(0) == 0;
    assert ([0] + rest)[1..] == rest;
    assert RunOne(Some(Bucket(left, 0)), [0] + rest)[1..] == RunOne(Some(Bucket(left - 1, 0)), rest);
  }

  lemma ZerosCons(left: nat, later: seq<int>)
    requires left > 0
    ensures Zeros(left) + later == [0] + (Zeros(left - 1) + later)
  {
    assert Zeros(left) == [0] + Zeros(left - 1);
    Assoc([0], Zeros(left - 1), later);
  }

  lemma NoZeros(later: seq<int>)
    ensures Zeros(0) + later == later
  {
  }

  lemma {:induction false} ZerosAdmitted(left: nat, n: nat)
    requires left <= 10
    ensures var times := Zeros(left) + Steady(1, n);
            Admitted(times, RunOne(Some(Bucket(left, 0)), times)) == times
    decreases left
  {
    if left == 0 {
      NoZeros(Steady(1, n));
      SteadyAdmitted(1, n);
    } else {
      var rest := Zeros(left - 1) + Steady(1, n);
      ZerosAdmitted(left - 1, n);
      OneZeroAdmitted(left, rest);
      ZerosCons(left, Steady(1, n));
    }
  }

  /** The window bound is reached for every n: ten calls at once and then one every 10 s all succeed. */
  lemma WindowBoundReached(n: nat)
    ensures Admitted(Burst(n), RunOne(None, Burst(n))) == Burst(n)
    ensures |Burst(n)| == MAX_TOKENS + (Burst(n)[|Burst(n)| - 1] - Burst(n)[0]) / PERIOD
  {
    var times := Burst(n);
    ZerosAdmitted(10, n);
    assert Truncated(0) == 0;
    assert Take(None, 0) == Take(Some(Bucket(10, 0)), 0);
    assert RunOne(None, times) == RunOne(Some(Bucket(10, 0)), times);
  }

  lemma LevelMonotone(c1: real, g1: real, l1: real, c2: real, g2: real, l2: real, last: int, now: int)
    requires c1 <= c2 && g1 <= g2 && l1 <= l2 && last <= now
    ensures Level(c1, g1, l1, last, now) <= Level(c2, g2, l2, last, now)
  {
    var x := (now - last) as real / PERIOD as real;
    assert x >= 0.0;
    assert (g2 - g1) * x >= 0.0;
  }

  lemma {:induction false} BiggerBucketAdmits(c1: real, g1: real, l1: real, c2: real, g2: real, l2: real, last: int,
                                              times: seq<int>)
    requires c1 <= c2 && g1 <= g2 && l1 <= l2 && Sorted(times) && (times != [] ==> last <= times[0])
    requires AdmitsAll(c1, g1, l1, last, times)
    ensures AdmitsAll(c2, g2, l2, last, times)
    decreases |times|
  {
    if times != [] {
      LevelMonotone(c1, g1, l1, c2, g2, l2, last, times[0]);
      var m1, m2 := Level(c1, g1, l1, last, times[0]), Level(c2, g2, l2, last, times[0]);
      BiggerBucketAdmits(c1, g1, m1 - 1.0, c2, g2, m2 - 1.0, times[0], times[1..]);
    }
  }

  lemma {:induction false} AdmittedLater(times: seq<int>, oks: seq<bool>, from: int)
    requires |times| == |oks| && forall i :: 0 <= i < |times| ==> from <= times[i]
    ensures var ok := Admitted(times, oks); forall i :: 0 <= i < |ok| ==> from <= ok[i]
  {
    if times != [] {
      AdmittedLater(times[1..], oks[1..], from);
      AdmittedCons(times, oks);
    }
  }

  lemma AdmittedCons(times: seq<int>, oks: seq<bool>)
    requires |times| == |oks| && times != []
    ensures var rest := Admitted(times[1..], oks[1..]);
            Admitted(times, oks) == if oks[0] then [times[0]] + rest else rest
  {
    var rest := Admitted(times[1..], oks[1..]);
    assert [] + rest == rest;
  }

  lemma {:induction false} AdmittedSorted(times: seq<int>, oks: seq<bool>)
    requires |times| == |oks| && Sorted(times)
    ensures Sorted(Admitted(times, oks))
  {
    if times != [] {
      AdmittedSorted(times[1..], oks[1..]);
      AdmittedLater(times[1..], oks[1..], times[0]);
      AdmittedCons(times, oks);
    }
  }

  /** An exact bucket that admits whatever Allow admits. */
  ghost predicate Simulates(capacity: real, gain: real) {
    forall times :: Sorted(times) ==> Conforms(capacity, gain, Admitted(times, RunOne(None, times)))
  }

  lemma ProductPositive(a: real, b: real)
    requires a > 0.0 && b > 0.0
    ensures a * b > 0.0
  {
  }

  lemma TooSlow(capacity: real, gain: real) returns (n: nat)
    requires gain < 1.0
    ensures (10 + n) as real > capacity + gain * n as real
  {
    var x := (capacity - 10.0) / (1.0 - gain);
    n := if x < 0.0 then 0 else x.Floor + 1;
    Outgrown(capacity - 10.0, 1.0 - gain, x, n as real);
    Slack(gain, n as real);
  }

  lemma Outgrown(a: real, slack: real, x: real, y: real)
    requires slack > 0.0 && x == a / slack && y > x
    ensures slack * y > a
  {
    Scaled(slack, x, y);
  }

  lemma Slack(gain: real, y: real)
    ensures (1.0 - gain) * y == y - gain * y
  {
  }

  lemma Scaled(a: real, x: real, y: real)
    requires a > 0.0 && y > x
    ensures a * y > a * x
  {
    ProductPositive(a, y - x);
    assert a * (y - x) == a * y - a * x;
  }

  /** What it takes to admit ten calls at once and then n more, one each period. */
  lemma BurstNeeds(capacity: real, gain: real, n: nat)
    ensures Conforms(capacity, gain, Burst(n)) ==> (10 + n) as real <= capacity + gain * n as real
  {
    var times := Burst(n);
    assert (n * PERIOD) as real / PERIOD as real == n as real;
    if Conforms(capacity, gain, times) {
      AdmittedCount(capacity, gain, capacity, 0, times, |times| - 1);
    }
  }

  lemma SimulatesOneRun(capacity: real, gain: real, times: seq<int>)
    requires Simulates(capacity, gain) && Sorted(times)
    ensures Conforms(capacity, gain, Admitted(times, RunOne(None, times)))
  {
  }

  lemma SmallerBucketFails(capacity: real, gain: real)
    requires capacity < 10.0 || gain < 1.0
    ensures !Simulates(capacity, gain)
  {
    var n: nat := 0;
    if capacity >= 10.0 { n := TooSlow(capacity, gain); }
    WindowBoundReached(n);
    BurstNeeds(capacity, gain, n);
    if Simulates(capacity, gain) { SimulatesOneRun(capacity, gain, Burst(n)); }
  }

  lemma BiggerBucketSimulates(capacity: real, gain: real, times: seq<int>)
    requires capacity >= 10.0 && gain >= 1.0 && Sorted(times)
    ensures Conforms(capacity, gain, Admitted(times, RunOne(None, times)))
  {
    SimulatedByExactBucket(times);
    var ok := Admitted(times, RunOne(None, times));
    AdmittedSorted(times, RunOne(None, times));
    if ok != [] { BiggerBucketAdmits(10.0, 1.0, 10.0, capacity, gain, capacity, ok[0], ok); }
  }

  /** Ten tokens and one token per 10 s is exactly what an exact bucket needs to admit every run that
      Allow admits: neither a smaller capacity nor a slower refill will do. */
  lemma ExactBucketIsTight(capacity: real, gain: real)
    ensures Simulates(capacity, gain) <==> capacity >= 10.0 && gain >= 1.0
  {
    if capacity >= 10.0 && gain >= 1.0 {
      forall times | Sorted(times) ensures Conforms(capacity, gain, Admitted(times, RunOne(None, times))) {
        BiggerBucketSimulates(capacity, gain, times);
      }
    } else {
      SmallerBucketFails(capacity, gain);
    }
  }

  // ---------- no starvation ----------

  /** From a bucket last filled at `lastFill`, calls that are all denied come within one period of it. */
  lemma {:induction false} DeniedSoonAfterFill(b: Bucket, times: seq<int>, j: nat)
    requires Sorted(times) && j < |times| && b.lastFill <= times[0] && b.tokens >= 0
    requires forall k :: 0 <= k <= j ==> !RunOne(Some(b), times)[k]
    ensures times[j] - b.lastFill < PERIOD
    decreases j
  {
    var oks := RunOne(Some(b), times);
    assert !oks[0];
    var b' := Take(Some(b), times[0]).0;
    assert b' == b;
    if j > 0 {
      assert oks[1..] == RunOne(Some(b), times[1..]);
      forall k | 0 <= k <= j - 1 ensures !RunOne(Some(b), times[1..])[k] {
        assert oks[1..][k] == oks[k + 1];
      }
      DeniedSoonAfterFill(b, times[1..], j - 1);
    }
  }

  /** Consecutive denials of one IP all fall in an interval shorter than 10 s, however often it calls. */
  lemma {:induction false} DenialsAreShort(b: Option<Bucket>, times: seq<int>, i: nat, j: nat)
    requires Sorted(times) && i <= j < |times|
    requires b.Some? ==> b.value.lastFill <= times[0] && b.value.tokens >= 0
    requires forall k :: i <= k <= j ==> !RunOne(b, times)[k]
    ensures times[j] - times[i] < PERIOD
    decreases i
  {
    var oks := RunOne(b, times);
    assert Truncated(0) == 0;
    var b' := Take(b, times[0]).0;
    if i == 0 {
      assert !oks[0];
      DeniedSoonAfterFill(b.value, times, j);
    } else {
      assert oks[1..] == RunOne(Some(b'), times[1..]);
      forall k | i - 1 <= k <= j - 1 ensures !RunOne(Some(b'), times[1..])[k] {
        assert oks[1..][k] == oks[k + 1];
      }
      DenialsAreShort(Some(b'), times[1..], i - 1, j - 1);
    }
  }

  lemma {:induction false} TokensStayInRange(b: Bucket, now: int)
    requires 0 <= b.tokens <= MAX_TOKENS
    ensures 0 <= Take(Some(b), now).0.tokens <= MAX_TOKENS && 0 <= Take(None, now).0.tokens <= MAX_TOKENS
    ensures !Take(Some(b), now).1 ==> Take(Some(b), now).0 == b && b.tokens == 0 && now - b.lastFill < PERIOD
  {
  }
}
