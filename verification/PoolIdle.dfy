/** Idle eviction as the callers of Get see it (internal/dbx/pool.go): a driver that Get has returned
    stays for as long as the idle time, and one that no Get asks for goes with the next sweep after it. */
module PoolIdle {
  import opened Text
  import opened Pool
  import opened PoolProtocol
  import opened PoolCoherence
  import opened PoolAgreement

  /** The id for which Get returns a driver in this step. */
  function ReturnedId(w: World, a: Action): int {
    if a.GetLookUp? then a.id
    else if a.GetInsert? && a.t in w.threads && w.threads[a.t].GetOpened? then w.threads[a.t].id
    else 0
  }

  /** The step is no eviction of `id` by a handler, no Stop, and no sweep with a cutoff after n. */
  predicate Spares(w: World, a: Action, id: int, n: Time) {
    && !(a.UpdateEvict? && a.t in w.threads && w.threads[a.t] == UpdateWritten(id))
    && !(a.DeleteEvict? && a.id == id)
    && !a.StopPool?
    && (a.SweepLocked? && a.t in w.threads && w.threads[a.t].SweepCutoff? ==> w.threads[a.t].cutoff <= n)
  }

  ghost predicate SparesAll(w: World, actions: seq<Action>, id: int, n: Time)
    decreases |actions|
  {
    actions != [] && Step(w, actions[0]).Some? ==>
      Spares(w, actions[0], id, n) && SparesAll(Step(w, actions[0]).value, actions[1..], id, n)
  }

  /** The entry was used at n or later. */
  predicate UsedSince(w: World, id: int, d: DriverId, n: Time) {
    IsCached(w, id, d) && w.pool.drivers[id].lastUsed >= n
  }

  // ---------- a driver in use stays ----------

  lemma ReturnUses(w: World, a: Action, w': World)
    requires Step(w, a) == Some(w') && Returned(w, a).Some?
    ensures var id, d := ReturnedId(w, a), Returned(w, a).value;
            IsCached(w', id, d) && w'.pool.drivers[id].lastUsed == w.now
  {
  }

  lemma GetStaysUsed(w: World, a: Action, id: int, d: DriverId, n: Time, w': World)
    requires Step(w, a) == Some(w') && IsGetStep(a) && UsedSince(w, id, d, n) && n <= w.now
    ensures UsedSince(w', id, d, n) && n <= w'.now
  {
  }

  lemma StepStaysUsed(w: World, a: Action, id: int, d: DriverId, n: Time, w': World)
    requires Step(w, a) == Some(w') && UsedSince(w, id, d, n) && n <= w.now && Spares(w, a, id, n)
    ensures UsedSince(w', id, d, n) && n <= w'.now
  {
    if IsGetStep(a) { GetStaysUsed(w, a, id, d, n, w'); }
  }

  lemma {:induction false} RunStaysUsed(w: World, actions: seq<Action>, id: int, d: DriverId, n: Time)
    requires Run(w, actions).Some? && UsedSince(w, id, d, n) && n <= w.now && SparesAll(w, actions, id, n)
    ensures UsedSince(Run(w, actions).value, id, d, n)
    decreases |actions|
  {
    if actions != [] {
      var next := Step(w, actions[0]).value;
      StepStaysUsed(w, actions[0], id, d, n, next);
      RunStaysUsed(next, actions[1..], id, d, n);
    }
  }

  /** A driver that Get returns when the clock is at n stays cached under the id and open, over any run
      without an eviction of the id by a handler, without Stop, and with sweeps of cutoffs up to n only. */
  lemma ReturnedStays(w0: World, before: seq<Action>, a: Action, after: seq<Action>)
    requires Initial(w0) && Run(w0, before).Some?
    requires var w := Run(w0, before).value;
             && Step(w, a).Some? && Returned(w, a).Some?
             && Run(Step(w, a).value, after).Some?
             && SparesAll(Step(w, a).value, after, ReturnedId(w, a), w.now)
    ensures var w := Run(w0, before).value;
            var w', d := Run(Step(w, a).value, after).value, Returned(w, a).value;
            IsCached(w', ReturnedId(w, a), d) && w'.pool.closed[d] == 0
  {
    var w := Run(w0, before).value;
    var w1 := Step(w, a).value;
    ReturnUses(w, a, w1);
    ClockRuns(w, a, w1);
    RunStaysUsed(w1, after, ReturnedId(w, a), Returned(w, a).value, w.now);
    var place := RunKeepsPlaces(w0, before, map[]);
    StepKeepsPlaces(w, a, place);
    var _ := RunKeepsPlaces(w1, after, Moved(w, a, place));
  }

  lemma ClockRuns(w: World, a: Action, w': World)
    requires Step(w, a) == Some(w')
    ensures w'.now >= w.now && w'.idleTTL == w.idleTTL
  {
  }

  // ---------- for the idle time ----------

  /** The step is no eviction of `id` by a handler and no Stop. */
  predicate Keeps(w: World, a: Action, id: int) {
    && !(a.UpdateEvict? && a.t in w.threads && w.threads[a.t] == UpdateWritten(id))
    && !(a.DeleteEvict? && a.id == id)
    && !a.StopPool?
  }

  ghost predicate KeepsAll(w: World, actions: seq<Action>, id: int)
    decreases |actions|
  {
    actions != [] && Step(w, actions[0]).Some? ==>
      Keeps(w, actions[0], id) && KeepsAll(Step(w, actions[0]).value, actions[1..], id)
  }

  lemma {:induction false} RunClock(w: World, actions: seq<Action>)
    requires Run(w, actions).Some?
    ensures Run(w, actions).value.now >= w.now && Run(w, actions).value.idleTTL == w.idleTTL
    decreases |actions|
  {
    if actions != [] {
      var next := Step(w, actions[0]).value;
      ClockRuns(w, actions[0], next);
      RunClock(next, actions[1..]);
    }
  }

  /** While the clock is within the idle time after n, no sweep has a cutoff after n. */
  lemma {:induction false} SweepsSpare(w: World, actions: seq<Action>, id: int, n: Time)
    requires Run(w, actions).Some? && KeepsAll(w, actions, id) && CutoffsOld(w)
    requires Run(w, actions).value.now <= n + w.idleTTL
    ensures SparesAll(w, actions, id, n)
    decreases |actions|
  {
    if actions != [] {
      var next := Step(w, actions[0]).value;
      ClockRuns(w, actions[0], next);
      RunClock(next, actions[1..]);
      StepKeepsCutoffs(w, actions[0]);
      SweepsSpare(next, actions[1..], id, n);
    }
  }

  /** A driver that Get returns stays cached and open for the idle time, whatever sweeps run, if no handler
      evicts the id and the pool is not stopped. */
  lemma ReturnedStaysForIdleTime(w0: World, before: seq<Action>, a: Action, after: seq<Action>)
    requires Initial(w0) && Run(w0, before).Some?
    requires var w := Run(w0, before).value;
             && Step(w, a).Some? && Returned(w, a).Some?
             && Run(Step(w, a).value, after).Some?
             && KeepsAll(Step(w, a).value, after, ReturnedId(w, a))
             && Run(Step(w, a).value, after).value.now <= w.now + w.idleTTL
    ensures var w := Run(w0, before).value;
            var w', d := Run(Step(w, a).value, after).value, Returned(w, a).value;
            IsCached(w', ReturnedId(w, a), d) && w'.pool.closed[d] == 0
  {
    var w := Run(w0, before).value;
    var w1 := Step(w, a).value;
    RunKeepsCutoffs(w0, before);
    StepKeepsCutoffs(w, a);
    ClockRuns(w, a, w1);
    SweepsSpare(w1, after, ReturnedId(w, a), w.now);
    ReturnedStays(w0, before, a, after);
  }

  // ---------- an idle driver goes ----------

  /** No Get returns a driver for `id` in the run. */
  ghost predicate Unasked(w: World, actions: seq<Action>, id: int)
    decreases |actions|
  {
    actions != [] && Step(w, actions[0]).Some? ==>
      && (Returned(w, actions[0]).Some? ==> ReturnedId(w, actions[0]) != id)
      && Unasked(Step(w, actions[0]).value, actions[1..], id)
  }

  /** An entry of `id`, if there is one, was last used at n or before. */
  predicate UnusedSince(w: World, id: int, n: Time) {
    id in w.pool.drivers ==> w.pool.drivers[id].lastUsed <= n
  }

  lemma StepStaysUnused(w: World, a: Action, id: int, n: Time, w': World)
    requires Step(w, a) == Some(w') && UnusedSince(w, id, n) && (Returned(w, a).Some? ==> ReturnedId(w, a) != id)
    ensures UnusedSince(w', id, n)
  {
    if IsGetStep(a) { GetStaysUnused(w, a, id, n, w'); }
  }

  lemma GetStaysUnused(w: World, a: Action, id: int, n: Time, w': World)
    requires Step(w, a) == Some(w') && IsGetStep(a) && UnusedSince(w, id, n)
    requires Returned(w, a).Some? ==> ReturnedId(w, a) != id
    ensures UnusedSince(w', id, n)
  {
  }

  lemma {:induction false} RunStaysUnused(w: World, actions: seq<Action>, id: int, n: Time)
    requires Run(w, actions).Some? && UnusedSince(w, id, n) && Unasked(w, actions, id)
    ensures UnusedSince(Run(w, actions).value, id, n)
    decreases |actions|
  {
    if actions != [] {
      var next := Step(w, actions[0]).value;
      StepStaysUnused(w, actions[0], id, n, next);
      RunStaysUnused(next, actions[1..], id, n);
    }
  }

  /** A sweep of this thread, if it is in flight, began at m or later. */
  predicate SweepsFrom(w: World, t: nat, m: Time) {
    && m <= w.now
    && (t in w.threads && w.threads[t].SweepCutoff? ==> w.threads[t].cutoff >= m - w.idleTTL)
  }

  lemma StepSweepsFrom(w: World, a: Action, t: nat, m: Time, w': World)
    requires Step(w, a) == Some(w') && SweepsFrom(w, t, m)
    ensures SweepsFrom(w', t, m)
  {
  }

  lemma {:induction false} RunSweepsFrom(w: World, actions: seq<Action>, t: nat, m: Time)
    requires Run(w, actions).Some? && SweepsFrom(w, t, m)
    ensures SweepsFrom(Run(w, actions).value, t, m)
    decreases |actions|
  {
    if actions != [] {
      var next := Step(w, actions[0]).value;
      StepSweepsFrom(w, actions[0], t, m, next);
      RunSweepsFrom(next, actions[1..], t, m);
    }
  }

  /** A driver that Get has returned at n and that no Get asks for any more is gone after a sweep that began
      later than the idle time after n, whatever runs before the sweep gets its lock. */
  lemma IdleIsSwept(w: World, a: Action, rest: seq<Action>, t: nat, during: seq<Action>)
    requires Step(w, a).Some? && Returned(w, a).Some?
    requires var w1 := Step(w, a).value; Run(w1, rest).Some? && Unasked(w1, rest, ReturnedId(w, a))
    requires var w2 := Run(Step(w, a).value, rest).value;
             && Step(w2, SweepStart(t)).Some? && w2.now - w2.idleTTL > w.now
             && var w3 := Step(w2, SweepStart(t)).value;
                && Run(w3, during).Some? && Unasked(w3, during, ReturnedId(w, a))
                && Step(Run(w3, during).value, SweepLocked(t)).Some?
    ensures var w3 := Step(Run(Step(w, a).value, rest).value, SweepStart(t)).value;
            ReturnedId(w, a) !in Step(Run(w3, during).value, SweepLocked(t)).value.pool.drivers
  {
    var id, n := ReturnedId(w, a), w.now;
    var w1 := Step(w, a).value;
    var w2 := Run(w1, rest).value;
    var w3 := Step(w2, SweepStart(t)).value;
    var w4 := Run(w3, during).value;
    ReturnUses(w, a, w1);
    RunStaysUnused(w1, rest, id, n);
    RunStaysUnused(w3, during, id, n);
    RunSweepsFrom(w3, during, t, w2.now);
    RunClock(w3, during);
  }
}
