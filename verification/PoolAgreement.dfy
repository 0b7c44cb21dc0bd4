/** Exactly when a cached driver has the stored configuration (internal/dbx/pool.go,
    internal/server/handlers_connections.go): what the store held at the insertion and what was
    deleted since decide it. */
module PoolAgreement {
  import opened Text
  import opened Pool
  import opened PoolProtocol
  import opened PoolCoherence

  predicate IsCached(w: World, id: int, d: DriverId) {
    id in w.pool.drivers && w.pool.drivers[id].driver == d
  }

  /** The stored row of `id` is the configuration that the driver was opened with. */
  predicate Agrees(w: World, id: int, d: DriverId) {
    d in w.everOpened && id in w.store && w.store[id] == w.everOpened[d]
  }

  // ---------- ids are not reused ----------

  predicate IdsUsed(w: World) {
    && w.store.Keys <= w.usedIds
    && w.pool.drivers.Keys <= w.usedIds
    && forall t :: t in w.threads && (w.threads[t].GetRead? || w.threads[t].GetOpened?) ==> w.threads[t].id in w.usedIds
  }

  lemma StepKeepsStoreIdsUsed(w: World, a: Action, w': World)
    requires IdsUsed(w) && Step(w, a) == Some(w')
    ensures w'.store.Keys <= w'.usedIds && w.usedIds <= w'.usedIds
  {
  }

  lemma StepKeepsThreadIdsUsed(w: World, a: Action, w': World, t: nat)
    requires IdsUsed(w) && Step(w, a) == Some(w')
    requires t in w'.threads && (w'.threads[t].GetRead? || w'.threads[t].GetOpened?)
    ensures w'.threads[t].id in w'.usedIds
  {
    ReadThread(w, a, t, w');
    StepKeepsStoreIdsUsed(w, a, w');
  }

  lemma StepKeepsPoolIdsUsed(w: World, a: Action, w': World)
    requires IdsUsed(w) && Step(w, a) == Some(w')
    ensures w'.pool.drivers.Keys <= w'.usedIds
  {
  }

  lemma {:induction false} RunKeepsIdsUsed(w: World, actions: seq<Action>)
    requires IdsUsed(w) && Run(w, actions).Some?
    ensures IdsUsed(Run(w, actions).value)
    decreases |actions|
  {
    if actions != [] {
      StepKeepsIdsUsed(w, actions[0]);
      RunKeepsIdsUsed(Step(w, actions[0]).value, actions[1..]);
    }
  }

  lemma StepKeepsIdsUsed(w: World, a: Action)
    requires IdsUsed(w) && Step(w, a).Some?
    ensures IdsUsed(Step(w, a).value)
  {
    var w' := Step(w, a).value;
    StepKeepsStoreIdsUsed(w, a, w');
    StepKeepsPoolIdsUsed(w, a, w');
    forall t | t in w'.threads && (w'.threads[t].GetRead? || w'.threads[t].GetOpened?)
      ensures w'.threads[t].id in w'.usedIds
    {
      StepKeepsThreadIdsUsed(w, a, w', t);
    }
  }

  // ---------- a cached driver stays or is closed for good ----------

  lemma CachedOrClosed(w: World, a: Action, place: map<DriverId, Place>, d: DriverId)
    requires Consistent(w, place) && Step(w, a).Some? && d in place && (place[d].Cached? || place[d].Closed?)
    ensures d in Moved(w, a, place)
    ensures Moved(w, a, place)[d] == place[d] || Moved(w, a, place)[d] == Closed
  {
    if (a.GetPing? && !a.ok) || a.GetInsert? || a.TestClose? {
      assert Holds(w.threads[a.t], w.threads[a.t].driver);
    }
  }

  lemma {:induction false} ClosedForGood(w: World, actions: seq<Action>, place: map<DriverId, Place>, id: int,
                                         d: DriverId)
    requires Consistent(w, place) && Run(w, actions).Some? && d in place && place[d] == Closed
    ensures !IsCached(Run(w, actions).value, id, d)
    decreases |actions|
  {
    if actions != [] {
      CachedOrClosed(w, actions[0], place, d);
      StepKeepsPlaces(w, actions[0], place);
      ClosedForGood(Step(w, actions[0]).value, actions[1..], Moved(w, actions[0], place), id, d);
    }
  }

  // ---------- while a driver stays cached ----------

  /** The action removes the row of `id`. */
  predicate DeletesRow(w: World, a: Action, id: int) {
    a.DeleteRow? && a.ok && a.t in w.threads && w.threads[a.t] == DeleteEvicted(id)
  }

  /** A delete handler removes the row of `id` in the run. */
  ghost predicate Deletes(w: World, actions: seq<Action>, id: int)
    decreases |actions|
  {
    actions != [] && Step(w, actions[0]).Some? &&
    (DeletesRow(w, actions[0], id) || Deletes(Step(w, actions[0]).value, actions[1..], id))
  }

  predicate SameRow(w: World, w': World, id: int) {
    (id in w.store <==> id in w'.store) && (id in w.store ==> w'.store[id] == w.store[id])
  }

  lemma UpdateWriteMarks(w: World, a: Action, w': World)
    requires Step(w, a) == Some(w')
    ensures a.UpdateWrite? && a.ok ==> Updating(w', a.id)
  {
    if a.UpdateWrite? && a.ok {
      assert w'.threads[a.t] == UpdateWritten(a.id);
    }
  }

  lemma RowStays(w: World, a: Action, id: int, w': World)
    requires Step(w, a) == Some(w') && id in w.usedIds && !Updating(w', id)
    ensures if DeletesRow(w, a, id) then id !in w'.store && Deleting(w, id) else SameRow(w, w', id)
  {
    UpdateWriteMarks(w, a, w');
  }

  /** Over a run that leaves a driver cached and no update pending, the row changes by a delete or not
      at all, and that delete was under way from the start. */
  lemma {:induction false} KeptEntry(w: World, actions: seq<Action>, place: map<DriverId, Place>, id: int, d: DriverId)
    requires Consistent(w, place) && IdsUsed(w) && Run(w, actions).Some? && IsCached(w, id, d)
    requires IsCached(Run(w, actions).value, id, d) && !Updating(Run(w, actions).value, id)
    ensures var w' := Run(w, actions).value;
            && !Updating(w, id)
            && d in w.everOpened && d in w'.everOpened && w'.everOpened[d] == w.everOpened[d]
            && if Deletes(w, actions, id) then id !in w'.store && Deleting(w, id) else SameRow(w, w', id)
    decreases |actions|
  {
    if actions != [] {
      var next := Step(w, actions[0]).value;
      var place' := Moved(w, actions[0], place);
      CachedOrClosed(w, actions[0], place, d);
      StepKeepsPlaces(w, actions[0], place);
      StepKeepsIdsUsed(w, actions[0]);
      if place'[d] == Closed {
        ClosedForGood(next, actions[1..], place', id, d);
      }
      assert IsAt(next, d, place'[d]);
      KeptEntry(next, actions[1..], place', id, d);
      OpenedStays(w, actions[0], d, next);
      RowStays(w, actions[0], id, next);
      if Updating(w, id) { UpdatingStays(w, actions[0], id, next); }
      if Deleting(next, id) { NoNewDelete(w, actions[0], id, next); }
    }
  }

  // ---------- the insertion ----------

  /** The thread is about to insert its driver under an id that has no entry. */
  ghost predicate InsertsAt(w: World, t: nat, id: int, d: DriverId) {
    && t in w.threads && w.threads[t].GetOpened? && w.threads[t].id == id && w.threads[t].driver == d
    && id !in w.pool.drivers && Step(w, GetInsert(t)).Some? && IsCached(Step(w, GetInsert(t)).value, id, d)
  }

  lemma CachedOrInserted(w: World, a: Action, place: map<DriverId, Place>, id: int, d: DriverId, w': World)
    requires Consistent(w, place) && Coherent(w) && Step(w, a) == Some(w') && IsCached(w', id, d)
    ensures IsCached(w, id, d) || (a.GetInsert? && InsertsAt(w, a.t, id, d))
  {
    assert id in w.pool.drivers ==> GoodEntry(w, id);
    EntryAfterStep(w, a, place, id, w');
    assert a.GetInsert? ==> a == GetInsert(a.t);
  }

  lemma {:induction false} FindInsertion(w: World, actions: seq<Action>, place: map<DriverId, Place>, id: int,
                                         d: DriverId)
    returns (found: bool, before: seq<Action>, t: nat, after: seq<Action>)
    requires Consistent(w, place) && Coherent(w) && Run(w, actions).Some? && IsCached(Run(w, actions).value, id, d)
    ensures !found ==> IsCached(w, id, d)
    ensures found ==> actions == before + ([GetInsert(t)] + after)
    ensures found ==> Run(w, before).Some? && InsertsAt(Run(w, before).value, t, id, d)
    decreases |actions|
  {
    found, before, t, after := false, [], 0, [];
    if actions != [] {
      var a, rest := actions[0], actions[1..];
      var next := Step(w, a).value;
      StepKeepsPlaces(w, a, place);
      StepKeepsCoherent(w, a, place);
      found, before, t, after := FindInsertion(next, rest, Moved(w, a, place), id, d);
      if found {
        PrependStep(w, a, before, [GetInsert(t)] + after);
        before := [a] + before;
      } else {
        CachedOrInserted(w, a, place, id, d, next);
        if !IsCached(w, id, d) {
          found, before, t, after := true, [], a.t, rest;
          assert actions == [] + ([a] + rest);
        }
      }
    }
  }

  lemma PrependStep(w: World, a: Action, before: seq<Action>, rest: seq<Action>)
    requires Step(w, a).Some?
    ensures Run(w, [a] + before) == Run(Step(w, a).value, before)
    ensures [a] + before + rest == [a] + (before + rest)
  {
    assert ([a] + before)[1..] == before;
  }

  // ---------- the store read ----------

  /** The thread is a Get for `id` that has read this row. */
  predicate HasRead(w: World, t: nat, id: int, conn: Connection) {
    && t in w.threads && (w.threads[t].GetRead? || w.threads[t].GetOpened?) && w.threads[t].id == id
    && (w.threads[t].GetRead? ==> w.threads[t].conn == conn)
    && (w.threads[t].GetOpened? ==>
          w.threads[t].driver in w.everOpened && w.everOpened[w.threads[t].driver] == conn)
  }

  /** A Get for `id` is about to read this row. */
  ghost predicate ReadsAt(w: World, t: nat, id: int, conn: Connection) {
    t in w.threads && w.threads[t] == GetMissed(id) && id in w.store && w.store[id] == conn
  }

  /** Steps other than those of Get leave what a Get holds. */
  lemma GetThreadStays(w: World, a: Action, t: nat, w': World)
    requires Step(w, a) == Some(w') && !IsGetStep(a) && t in w'.threads
    requires w'.threads[t].GetRead? || w'.threads[t].GetOpened?
    ensures var th := w'.threads[t];
            && t in w.threads && w.threads[t].id == th.id
            && (th.GetRead? ==> w.threads[t].GetRead? && w.threads[t].conn == th.conn)
            && (th.GetOpened? ==> w.threads[t].GetOpened? && w.threads[t].driver == th.driver)
  {
  }

  lemma ReadingThread(w: World, a: Action, t: nat, w': World)
    requires Step(w, a) == Some(w') && t in w'.threads && w'.threads[t].GetRead?
    ensures var th := w'.threads[t];
            (t in w.threads && w.threads[t].GetRead? && w.threads[t].id == th.id && w.threads[t].conn == th.conn)
            || (a == GetReadStore(t) && ReadsAt(w, t, th.id, th.conn))
  {
    if !IsGetStep(a) { GetThreadStays(w, a, t, w'); }
  }

  lemma OpenedThread(w: World, a: Action, t: nat, w': World)
    requires Step(w, a) == Some(w') && t in w'.threads && w'.threads[t].GetOpened?
    ensures var th := w'.threads[t];
            && t in w.threads
            && ((w.threads[t].GetOpened? && w.threads[t].id == th.id && w.threads[t].driver == th.driver)
                || (w.threads[t].GetRead? && w.threads[t].id == th.id
                    && w'.everOpened == w.everOpened[th.driver := w.threads[t].conn]))
  {
    if !IsGetStep(a) { GetThreadStays(w, a, t, w'); }
  }

  lemma ReadOrReads(w: World, a: Action, place: map<DriverId, Place>, t: nat, id: int, conn: Connection, w': World)
    requires Consistent(w, place) && Step(w, a) == Some(w') && HasRead(w', t, id, conn)
    ensures HasRead(w, t, id, conn) || (a == GetReadStore(t) && ReadsAt(w, t, id, conn))
  {
    if w'.threads[t].GetRead? {
      ReadingThread(w, a, t, w');
    } else {
      OpenedThread(w, a, t, w');
      if w.threads[t].GetOpened? {
        assert Holds(w.threads[t], w.threads[t].driver);
        OpenedStays(w, a, w.threads[t].driver, w');
      }
    }
  }

  /** The configuration that a Get holds is a row that it has read in the run. */
  lemma {:induction false} FindRead(w: World, actions: seq<Action>, place: map<DriverId, Place>,
                                    t: nat, id: int, conn: Connection)
    returns (found: bool, before: seq<Action>, after: seq<Action>)
    requires Consistent(w, place) && Run(w, actions).Some? && HasRead(Run(w, actions).value, t, id, conn)
    ensures !found ==> HasRead(w, t, id, conn)
    ensures found ==> actions == before + ([GetReadStore(t)] + after)
    ensures found ==> Run(w, before).Some? && ReadsAt(Run(w, before).value, t, id, conn)
    decreases |actions|
  {
    found, before, after := false, [], [];
    if actions != [] {
      var a, rest := actions[0], actions[1..];
      var next := Step(w, a).value;
      StepKeepsPlaces(w, a, place);
      found, before, after := FindRead(next, rest, Moved(w, a, place), t, id, conn);
      if found {
        PrependStep(w, a, before, [GetReadStore(t)] + after);
        before := [a] + before;
      } else {
        ReadOrReads(w, a, place, t, id, conn, next);
        if !HasRead(w, t, id, conn) {
          found, before, after := true, [], rest;
          assert actions == [] + ([a] + rest);
        }
      }
    }
  }

  /** What a driver was opened with is the row that its Get read before the insertion. */
  lemma InsertedWasRead(w0: World, actions: seq<Action>, t: nat, id: int, d: DriverId)
    returns (before: seq<Action>, after: seq<Action>)
    requires Initial(w0) && Run(w0, actions).Some? && InsertsAt(Run(w0, actions).value, t, id, d)
    ensures actions == before + ([GetReadStore(t)] + after) && Run(w0, before).Some?
    ensures d in Run(w0, actions).value.everOpened
    ensures ReadsAt(Run(w0, before).value, t, id, Run(w0, actions).value.everOpened[d])
  {
    var w := Run(w0, actions).value;
    var place := RunKeepsPlaces(w0, actions, map[]);
    assert Holds(w.threads[t], d);
    var found;
    found, before, after := FindRead(w0, actions, map[], t, id, w.everOpened[d]);
  }

  /** Cache coherence, exactly. In every interleaving that ends with an entry and no update of its id
      pending, a Get has inserted the entry's driver, and the pool agrees with the store if and only if
      at the insertion the row was the one the Get had read and no delete handler has removed it since.
      A delete that has was already past its eviction at the insertion. */
  lemma CachedAgreesExactly(w0: World, actions: seq<Action>, id: int)
    returns (before: seq<Action>, t: nat, after: seq<Action>)
    requires Initial(w0) && Run(w0, actions).Some?
    requires var w := Run(w0, actions).value; id in w.pool.drivers && !Updating(w, id)
    ensures actions == before + ([GetInsert(t)] + after) && Run(w0, before).Some?
    ensures var w, w1 := Run(w0, actions).value, Run(w0, before).value;
            var d := w.pool.drivers[id].driver;
            && InsertsAt(w1, t, id, d)
            && var w2 := Step(w1, GetInsert(t)).value;
               && (Agrees(w, id, d) <==> Agrees(w1, id, d) && !Deletes(w2, after, id))
               && (Deletes(w2, after, id) ==> Deleting(w1, id))
  {
    var d := Run(w0, actions).value.pool.drivers[id].driver;
    var found;
    found, before, t, after := FindInsertion(w0, actions, map[], id, d);
    var w1 := Run(w0, before).value;
    RunConcat(w0, before, [GetInsert(t)] + after);
    AfterInsertion(w0, before, t, after, id, d);
  }

  lemma AfterInsertion(w0: World, before: seq<Action>, t: nat, after: seq<Action>, id: int, d: DriverId)
    requires Initial(w0) && Run(w0, before).Some? && InsertsAt(Run(w0, before).value, t, id, d)
    requires Run(Run(w0, before).value, [GetInsert(t)] + after).Some?
    requires var w := Run(Run(w0, before).value, [GetInsert(t)] + after).value; IsCached(w, id, d) && !Updating(w, id)
    ensures var w1 := Run(w0, before).value;
            var w, w2 := Run(w1, [GetInsert(t)] + after).value, Step(w1, GetInsert(t)).value;
            && (Agrees(w, id, d) <==> Agrees(w1, id, d) && !Deletes(w2, after, id))
            && (Deletes(w2, after, id) ==> Deleting(w1, id))
  {
    var w1 := Run(w0, before).value;
    var place := RunKeepsPlaces(w0, before, map[]);
    RunKeepsIdsUsed(w0, before);
    StepKeepsPlaces(w1, GetInsert(t), place);
    StepKeepsIdsUsed(w1, GetInsert(t));
    RunCons(w1, GetInsert(t), after);
    var w2 := Step(w1, GetInsert(t)).value;
    KeptEntry(w2, after, Moved(w1, GetInsert(t), place), id, d);
    if Deleting(w2, id) { NoNewDelete(w1, GetInsert(t), id, w2); }
  }
}
