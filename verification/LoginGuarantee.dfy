/** What the login rate limiter admits at least (internal/server/middleware.go): how much a pause gives
    back, and the exact buckets whose runs Allow always lets through. */
module LoginGuarantee {
  import opened Text
  import opened LoginLimiter

  predicate AllTrue(oks: seq<bool>) { forall i :: 0 <= i < |oks| ==> oks[i] }

  // ---------- after a pause ----------

  /** A bucket that holds a token for each of n calls at the moment of its last refill admits them. */
  lemma {:induction false} CallsAtOnce(b: Bucket, times: seq<int>, n: nat)
    requires n <= |times| && n <= b.tokens && forall j :: 0 <= j < n ==> times[j] == b.lastFill
    ensures forall j :: 0 <= j < n ==> RunOne(Some(b), times)[j]
    decreases n
  {
    if n > 0 {
      assert Truncated(0) == 0;
      var (b', ok) := Take(Some(b), times[0]);
      assert b' == Bucket(b.tokens - 1, b.lastFill) && ok;
      CallsAtOnce(b', times[1..], n - 1);
      assert RunOne(Some(b), times)[1..] == RunOne(Some(b'), times[1..]);
      forall j | 1 <= j < n ensures RunOne(Some(b), times)[j] {
        assert RunOne(Some(b), times)[j] == RunOne(Some(b), times)[1..][j - 1];
      }
    }
  }

  lemma PauseFills(b: Bucket, now: int, k: nat, n: nat)
    requires 0 < n <= k && n <= MAX_TOKENS && b.tokens >= 0 && now - b.lastFill >= k * PERIOD
    ensures Take(Some(b), now).1
    ensures Take(Some(b), now).0.tokens >= n - 1 && Take(Some(b), now).0.lastFill == now
  {
    assert Truncated(now - b.lastFill) >= k;
  }

  lemma {:induction false} CallsAfterPause(b: Bucket, times: seq<int>, k: nat, n: nat)
    requires 0 < n <= k && n <= MAX_TOKENS && n <= |times| && b.tokens >= 0
    requires forall j :: 0 <= j < n ==> times[j] == times[0]
    requires times[0] - b.lastFill >= k * PERIOD
    ensures forall j :: 0 <= j < n ==> RunOne(Some(b), times)[j]
  {
    PauseFills(b, times[0], k, n);
    var b' := Take(Some(b), times[0]).0;
    CallsAtOnce(b', times[1..], n - 1);
    assert RunOne(Some(b), times)[1..] == RunOne(Some(b'), times[1..]);
    forall j | 1 <= j < n ensures RunOne(Some(b), times)[j] {
      assert RunOne(Some(b), times)[j] == RunOne(Some(b), times)[1..][j - 1];
    }
  }

  predicate Reachable(b: Option<Bucket>, now: int) {
    b.Some? ==> 0 <= b.value.tokens <= MAX_TOKENS && b.value.lastFill <= now
  }

  /** A pause of k periods gives k calls back, up to ten: the first n calls after it succeed, for every
      n up to both, whatever came before. */
  lemma {:induction false} PauseGivesCalls(b: Option<Bucket>, times: seq<int>, i: nat, k: nat, n: nat)
    requires Sorted(times) && 1 <= i && i + n <= |times| && Reachable(b, times[0])
    requires n <= k && n <= MAX_TOKENS && (n > 0 ==> times[i] - times[i - 1] >= k * PERIOD)
    requires forall j :: i <= j < i + n ==> times[j] == times[i]
    ensures forall j :: i <= j < i + n ==> RunOne(b, times)[j]
    decreases i
  {
    if n > 0 {
      assert Truncated(0) == 0;
      var b' := Take(b, times[0]).0;
      var rest := times[1..];
      assert RunOne(b, times)[1..] == RunOne(Some(b'), rest);
      assert b'.lastFill <= times[0] && 0 <= b'.tokens <= MAX_TOKENS;
      if i == 1 {
        CallsAfterPause(b', rest, k, n);
      } else {
        PauseGivesCalls(Some(b'), rest, i - 1, k, n);
      }
      forall j | i <= j < i + n ensures RunOne(b, times)[j] {
        assert RunOne(b, times)[j] == RunOne(b, times)[1..][j - 1];
      }
    }
  }

  // ---------- exact buckets that Allow keeps up with ----------

  /** Allow admits every run that the exact bucket admits. */
  ghost predicate Guarantees(capacity: real, gain: real) {
    forall times :: Sorted(times) && Conforms(capacity, gain, times) ==> AllTrue(RunOne(None, times))
  }

  /** The longest pause that gives back a single call. */
  const LONGEST := 2 * PERIOD - 1

  /** The exact bucket gains at most one token in that pause, and it has no eleventh token before a
      period is over. */
  predicate Slow(capacity: real, gain: real) {
    Gain(gain, LONGEST) <= 1.0 && capacity + Gain(gain, PERIOD - 1) < 11.0
  }

  lemma Scales(a: real, x: real, y: real)
    requires a >= 0.0 && x <= y
    ensures a * x <= a * y
  {
    if a > 0.0 && x < y { Scaled(a, x, y); }
  }

  lemma GainGrows(gain: real, a: int, b: int)
    requires gain >= 0.0 && a <= b
    ensures Gain(gain, a) <= Gain(gain, b)
  {
    Scales(gain, a as real / PERIOD as real, b as real / PERIOD as real);
  }

  lemma {:induction false} GainTimes(gain: real, k: nat, dt: int)
    ensures Gain(gain, k * dt) == k as real * Gain(gain, dt)
  {
    if k > 0 {
      GainTimes(gain, k - 1, dt);
      GainAdds(gain, (k - 1) * dt, dt);
      assert (k - 1) * dt + dt == k * dt;
    }
  }

  /** A slow bucket gains no more than the whole periods. */
  lemma GainBelowRefill(gain: real, e: int)
    requires gain >= 0.0 && Gain(gain, LONGEST) <= 1.0 && e >= PERIOD
    ensures Gain(gain, e) <= (e / PERIOD) as real
  {
    var k := e / PERIOD;
    assert e <= k * LONGEST;
    GainGrows(gain, e, k * LONGEST);
    GainTimes(gain, k, LONGEST);
    Scales(k as real, Gain(gain, LONGEST), 1.0);
  }

  /** The level of the exact bucket after a call is within the tokens, the pending gain and the spare. */
  predicate Above(b: Bucket, now: int, level: real, gain: real, spare: real) {
    && 0 <= b.tokens <= MAX_TOKENS && 0 <= now - b.lastFill < PERIOD
    && level <= b.tokens as real + Gain(gain, now - b.lastFill) + spare
  }

  predicate SpareFits(capacity: real, gain: real, spare: real) {
    && gain >= 0.0 && spare >= 0.0 && capacity <= 10.0 + spare
    && Gain(gain, LONGEST) <= 1.0 && Gain(gain, PERIOD - 1) + spare < 1.0
  }

  lemma RefillKeepsUp(b: Bucket, last: int, level: real, now: int, capacity: real, gain: real, spare: real)
    requires SpareFits(capacity, gain, spare) && Above(b, last, level, gain, spare) && last <= now
    ensures Above(Refill(b, now), now, Level(capacity, gain, level, last, now), gain, spare)
  {
    var e := now - b.lastFill;
    GainAdds(gain, last - b.lastFill, now - last);
    assert Gain(gain, now - last) == gain * ((now - last) as real / PERIOD as real);
    assert Gain(gain, 0) == 0.0;
    if e >= PERIOD { GainBelowRefill(gain, e); }
  }

  lemma CallKeepsUp(b: Bucket, last: int, level: real, now: int, capacity: real, gain: real, spare: real)
    requires SpareFits(capacity, gain, spare) && Above(b, last, level, gain, spare) && last <= now
    requires Level(capacity, gain, level, last, now) >= 1.0
    ensures Take(Some(b), now).1
    ensures Above(Take(Some(b), now).0, now, Level(capacity, gain, level, last, now) - 1.0, gain, spare)
  {
    RefillKeepsUp(b, last, level, now, capacity, gain, spare);
    var filled := Refill(b, now);
    GainGrows(gain, now - filled.lastFill, PERIOD - 1);
    assert filled.tokens as real > 0.0;
  }

  lemma {:induction false} RestKeepsUp(b: Bucket, last: int, level: real, times: seq<int>,
                                       capacity: real, gain: real, spare: real)
    requires SpareFits(capacity, gain, spare) && Above(b, last, level, gain, spare)
    requires Sorted(times) && (times != [] ==> last <= times[0]) && AdmitsAll(capacity, gain, level, last, times)
    ensures AllTrue(RunOne(Some(b), times))
    decreases |times|
  {
    if times != [] {
      var now, l := times[0], Level(capacity, gain, level, last, times[0]);
      CallKeepsUp(b, last, level, now, capacity, gain, spare);
      RestKeepsUp(Take(Some(b), now).0, now, l - 1.0, times[1..], capacity, gain, spare);
      assert RunOne(Some(b), times) == [true] + RunOne(Some(Take(Some(b), now).0), times[1..]);
    }
  }

  lemma SlowIsGuaranteed(capacity: real, gain: real)
    requires gain >= 0.0 && Slow(capacity, gain)
    ensures Guarantees(capacity, gain)
  {
    var spare := if capacity > 10.0 then capacity - 10.0 else 0.0;
    GainTimes(gain, 2, PERIOD - 1);
    GainGrows(gain, 2 * (PERIOD - 1), LONGEST);
    forall times | Sorted(times) && Conforms(capacity, gain, times) ensures AllTrue(RunOne(None, times)) {
      if times != [] {
        var now := times[0];
        assert Truncated(0) == 0;
        assert Take(None, now) == (Bucket(9, now), true);
        assert Level(capacity, gain, capacity, now, now) == capacity by { assert Gain(gain, 0) == 0.0; }
        RestKeepsUp(Bucket(9, now), now, capacity - 1.0, times[1..], capacity, gain, spare);
        assert RunOne(None, times) == [true] + RunOne(Some(Bucket(9, now)), times[1..]);
      }
    }
  }

  // ---------- and those that it does not keep up with ----------

  lemma OneMoreConforms(capacity: real, gain: real, level: real, now: int, dt: nat, rest: seq<int>)
    requires var l := Level(capacity, gain, level, now, now + dt);
             l >= 1.0 && AdmitsAll(capacity, gain, l - 1.0, now + dt, rest)
    ensures AdmitsAll(capacity, gain, level, now, [now + dt] + rest)
  {
    assert ([now + dt] + rest)[1..] == rest;
  }

  lemma LevelAtOnce(capacity: real, gain: real, level: real, now: int)
    requires level <= capacity
    ensures Level(capacity, gain, level, now, now) == level
  {
    assert Gain(gain, 0) == 0.0;
  }

  /** After ten calls at once the exact bucket is ten tokens lower. */
  lemma {:induction false} BurstConforms(capacity: real, gain: real, left: nat, rest: seq<int>)
    requires capacity >= 10.0 && left <= 10 && AdmitsAll(capacity, gain, capacity - 10.0, 0, rest)
    ensures AdmitsAll(capacity, gain, capacity - 10.0 + left as real, 0, Zeros(left) + rest)
    decreases left
  {
    if left == 0 {
      NoZeros(rest);
    } else {
      BurstConforms(capacity, gain, left - 1, rest);
      ZerosCons(left, rest);
      var level := capacity - 10.0 + left as real;
      LevelAtOnce(capacity, gain, level, 0);
      assert level - 1.0 == capacity - 10.0 + (left - 1) as real;
      OneMoreConforms(capacity, gain, level, 0, 0, Zeros(left - 1) + rest);
    }
  }

  lemma {:induction false} BurstThenDenied(left: nat, rest: seq<int>)
    requires left <= 10 && !AllTrue(RunOne(Some(Bucket(0, 0)), rest))
    ensures !AllTrue(RunOne(Some(Bucket(left, 0)), Zeros(left) + rest))
    decreases left
  {
    if left == 0 {
      NoZeros(rest);
    } else {
      var more := Zeros(left - 1) + rest;
      BurstThenDenied(left - 1, rest);
      ZerosCons(left, rest);
      OneZeroAdmitted(left, more);
      DeniedLater(Bucket(left, 0), 0, more);
    }
  }

  lemma DeniedLater(b: Bucket, now: int, rest: seq<int>)
    requires !AllTrue(RunOne(Some(Take(Some(b), now).0), rest))
    ensures !AllTrue(RunOne(Some(b), [now] + rest))
  {
    assert ([now] + rest)[1..] == rest;
    var oks := RunOne(Some(Take(Some(b), now).0), rest);
    assert RunOne(Some(b), [now] + rest)[1..] == oks;
    var i :| 0 <= i < |oks| && !oks[i];
    assert !RunOne(Some(b), [now] + rest)[i + 1];
  }

  /** A run of this form: the exact bucket admits it and Allow does not. */
  lemma NotGuaranteed(capacity: real, gain: real, rest: seq<int>)
    requires capacity >= 10.0 && Sorted(rest) && (rest != [] ==> rest[0] >= 0)
    requires AdmitsAll(capacity, gain, capacity - 10.0, 0, rest) && !AllTrue(RunOne(Some(Bucket(0, 0)), rest))
    ensures !Guarantees(capacity, gain)
  {
    var times := Zeros(10) + rest;
    BurstConforms(capacity, gain, 10, rest);
    BurstThenDenied(10, rest);
    assert times[0] == 0;
    assert Truncated(0) == 0;
    assert Take(None, 0) == Take(Some(Bucket(10, 0)), 0);
    assert RunOne(None, times) == RunOne(Some(Bucket(10, 0)), times);
    assert Sorted(times) && Conforms(capacity, gain, times);
  }

  /** A call after the longest pause: Allow is where it was. */
  lemma CallAfterLongest(capacity: real, gain: real, level: real, now: int, left: nat, rest: seq<int>)
    requires left <= 9 && Level(capacity, gain, level, now, now + LONGEST) >= 1.0
    requires AdmitsAll(capacity, gain, Level(capacity, gain, level, now, now + LONGEST) - 1.0, now + LONGEST, rest)
    requires !AllTrue(RunOne(Some(Bucket(left, now + LONGEST)), rest))
    ensures AdmitsAll(capacity, gain, level, now, [now + LONGEST] + rest)
    ensures !AllTrue(RunOne(Some(Bucket(left, now)), [now + LONGEST] + rest))
  {
    assert Truncated(LONGEST) == 1;
    assert Take(Some(Bucket(left, now)), now + LONGEST) == (Bucket(left, now + LONGEST), true);
    DeniedLater(Bucket(left, now), now + LONGEST, rest);
    OneMoreConforms(capacity, gain, level, now, LONGEST, rest);
  }

  /** A call at once: it is denied or takes a token of Allow. */
  lemma CallAtOnce(capacity: real, gain: real, level: real, now: int, left: nat, rest: seq<int>)
    requires 1.0 <= level <= capacity && AdmitsAll(capacity, gain, level - 1.0, now, rest)
    requires left > 0 ==> !AllTrue(RunOne(Some(Bucket(left - 1, now)), rest))
    ensures AdmitsAll(capacity, gain, level, now, [now] + rest)
    ensures !AllTrue(RunOne(Some(Bucket(left, now)), [now] + rest))
  {
    assert Truncated(0) == 0;
    if left == 0 {
      assert !RunOne(Some(Bucket(left, now)), [now] + rest)[0];
    } else {
      DeniedLater(Bucket(left, now), now, rest);
    }
    LevelAtOnce(capacity, gain, level, now);
    OneMoreConforms(capacity, gain, level, now, 0, rest);
  }

  /** One call in each longest pause, and two as soon as the exact bucket has them: Allow loses a token at
      every second one until it has none. */
  lemma {:induction false} Drained(capacity: real, gain: real, level: real, now: int, left: nat, m: nat)
      returns (rest: seq<int>)
    requires capacity >= 2.0 && level >= 0.0 && left <= 9 && Gain(gain, LONGEST) > 1.0
    requires level + m as real * (Gain(gain, LONGEST) - 1.0) >= 1.0
    ensures Sorted(rest) && (rest != [] ==> rest[0] >= now)
    ensures AdmitsAll(capacity, gain, level, now, rest) && !AllTrue(RunOne(Some(Bucket(left, now)), rest))
    decreases left, m
  {
    var t, l := now + LONGEST, Level(capacity, gain, level, now, now + LONGEST);
    assert l == Min(capacity, level + Gain(gain, LONGEST));
    if l >= 2.0 {
      var more := [];
      if left > 0 {
        var n := StepsToOne(Gain(gain, LONGEST) - 1.0, l - 2.0);
        more := Drained(capacity, gain, l - 2.0, t, left - 1, n);
      }
      CallAtOnce(capacity, gain, l - 1.0, t, left, more);
      rest := [t] + more;
    } else {
      OneShare(Gain(gain, LONGEST) - 1.0, m);
      rest := Drained(capacity, gain, l - 1.0, t, left, m - 1);
    }
    CallAfterLongest(capacity, gain, level, now, left, rest);
    rest := [t] + rest;
  }

  lemma StepsToOne(more: real, level: real) returns (n: nat)
    requires more > 0.0 && level >= 0.0
    ensures level + n as real * more >= 1.0
  {
    assert 1.0 / more > 0.0;
    n := (1.0 / more).Floor + 1;
    Outgrown(1.0, more, 1.0 / more, n as real);
  }

  lemma OneShare(more: real, n: nat)
    ensures n > 0 ==> n as real * more == (n - 1) as real * more + more
  {
    if n > 0 {
      var m := (n - 1) as real;
      assert n as real == m + 1.0;
      assert (m + 1.0) * more == m * more + more;
    }
  }

  lemma FastIsNotGuaranteed(capacity: real, gain: real)
    requires capacity >= 2.0 && gain >= 0.0 && !Slow(capacity, gain)
    ensures !Guarantees(capacity, gain)
  {
    assert Truncated(0) == 0;
    if Gain(gain, LONGEST) > 1.0 {
      var n := StepsToOne(Gain(gain, LONGEST) - 1.0, capacity - 1.0);
      var rest := Drained(capacity, gain, capacity - 1.0, 0, 9, n);
      CallAtOnce(capacity, gain, capacity, 0, 10, rest);
      assert RunOne(None, [0] + rest) == RunOne(Some(Bucket(10, 0)), [0] + rest);
      assert Sorted([0] + rest) && Conforms(capacity, gain, [0] + rest);
    } else {
      var rest := [PERIOD - 1];
      GainGrows(gain, PERIOD - 1, LONGEST);
      assert AdmitsAll(capacity, gain, capacity - 10.0, 0, rest) by {
        assert Level(capacity, gain, capacity - 10.0, 0, PERIOD - 1) >= 1.0;
      }
      assert Truncated(PERIOD - 1) == 0;
      assert !RunOne(Some(Bucket(0, 0)), rest)[0];
      NotGuaranteed(capacity, gain, rest);
    }
  }

  /** Allow admits whatever an exact bucket of at least two tokens admits if and only if that bucket gains
      at most one token in the longest pause that gives back one call, and has no eleventh token before a
      period is over. */
  lemma GuaranteeIsExact(capacity: real, gain: real)
    requires capacity >= 2.0 && gain >= 0.0
    ensures Guarantees(capacity, gain) <==> Slow(capacity, gain)
  {
    if Slow(capacity, gain) {
      SlowIsGuaranteed(capacity, gain);
    } else {
      FastIsNotGuaranteed(capacity, gain);
    }
  }

  /** In round numbers: ten and a half tokens and one token per 20 s are always admitted. */
  lemma HalfTheRateIsGuaranteed()
    ensures Guarantees(10.5, 0.5)
  {
    SlowIsGuaranteed(10.5, 0.5);
  }
}
