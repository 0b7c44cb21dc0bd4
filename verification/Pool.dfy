/** The driver pool (internal/dbx/pool.go): its locked sections as methods of a class, each
    proved against a function on the pool's state. */
module Pool {
  import opened Text

  type DriverId = nat
  type Time = int

  datatype Entry = Entry(driver: DriverId, lastUsed: Time)

  /** What the mutex protects, and how often Close has been called on each driver. After Stop
      the map is nil: it reads as empty and cannot be written. */
  datatype State = State(drivers: map<int, Entry>, closed: multiset<DriverId>, stopped: bool)

  /** The outcome of the second locked section of Get. */
  datatype Insertion = Inserted | Yielded(existing: DriverId) | NilMapPanic

  // ---------- the locked sections as functions ----------

  function Touch(p: State, id: int, now: Time): State
    requires id in p.drivers
  {
    p.(drivers := p.drivers[id := p.drivers[id].(lastUsed := now)])
  }

  function CloseDriver(p: State, d: DriverId): State {
    p.(closed := p.closed + multiset{d})
  }

  /** The first locked section of Get: a hit is touched and returned. */
  function LookedUp(p: State, id: int, now: Time): (State, Option<DriverId>) {
    if id in p.drivers then (Touch(p, id, now), Some(p.drivers[id].driver)) else (p, None)
  }

  /** The second locked section of Get, with the freshly opened driver `d`. */
  function InsertedOrYielded(p: State, id: int, d: DriverId, now: Time): (State, Insertion) {
    if id in p.drivers then (CloseDriver(Touch(p, id, now), d), Yielded(p.drivers[id].driver))
    else if p.stopped then (p, NilMapPanic)
    else (p.(drivers := p.drivers[id := Entry(d, now)]), Inserted)
  }

  function Evicted(p: State, id: int): State {
    if id in p.drivers then CloseDriver(p, p.drivers[id].driver).(drivers := p.drivers - {id}) else p
  }

  function IdleIds(p: State, cutoff: Time): set<int> {
    set id | id in p.drivers && p.drivers[id].lastUsed < cutoff
  }

  ghost function IdleEvicted(p: State, cutoff: Time): State {
    var idle := IdleIds(p, cutoff);
    p.(drivers := p.drivers - idle, closed := p.closed + DriversOf(p.drivers, idle))
  }

  ghost function Stopped(p: State): State {
    State(map[], p.closed + DriversOf(p.drivers, p.drivers.Keys), true)
  }

  /** The drivers of the entries of some ids, each as often as it occurs. */
  ghost function DriversOf(m: map<int, Entry>, ids: set<int>): multiset<DriverId>
    requires ids <= m.Keys
  {
    if ids == {} then multiset{}
    else
      SomeMember(ids);
      var id :| id in ids;
      multiset{m[id].driver} + DriversOf(m, ids - {id})
  }

  lemma SameSet<T>(a: set<T>, b: set<T>)
    requires a <= b && b <= a
    ensures a == b
  {
  }

  lemma MinusTwice<K, V>(m: map<K, V>, a: set<K>, b: set<K>)
    ensures m - a - b == m - (a + b)
  {
  }

  lemma MinusNothing<K, V>(m: map<K, V>)
    ensures m - {} == m
  {
  }

  lemma SomeMember(s: set<int>)
    ensures s == {} || exists x :: x in s
  {
    var empty: set<int> := {};
    assert (forall x :: x in s <==> x in empty) ==> s == empty;
  }

  lemma {:induction false} DriversOfRemove(m: map<int, Entry>, ids: set<int>, id: int)
    requires ids <= m.Keys && id in ids
    ensures DriversOf(m, ids) == multiset{m[id].driver} + DriversOf(m, ids - {id})
    decreases ids
  {
    SomeMember(ids);
    var first :| first in ids && DriversOf(m, ids) == multiset{m[first].driver} + DriversOf(m, ids - {first});
    if first != id {
      DriversOfRemove(m, ids - {first}, id);
      DriversOfRemove(m, ids - {id}, first);
      assert ids - {first} - {id} == ids - {id} - {first};
    }
  }

  lemma DriversOfAdd(m: map<int, Entry>, ids: set<int>, id: int)
    requires ids <= m.Keys && id in m && id !in ids
    ensures DriversOf(m, ids + {id}) == DriversOf(m, ids) + multiset{m[id].driver}
  {
    DriversOfRemove(m, ids + {id}, id);
    assert ids + {id} - {id} == ids;
  }

  lemma OneMoreOut<V>(m: map<int, V>, entries: map<int, Entry>, done: set<int>, id: int)
    requires m.Keys == entries.Keys && done <= entries.Keys && id in entries && id !in done
    ensures m - done - {id} == m - (done + {id})
    ensures DriversOf(entries, done + {id}) == DriversOf(entries, done) + multiset{entries[id].driver}
    ensures |done + {id}| == |done| + 1
  {
    MinusTwice(m, done, {id});
    DriversOfAdd(entries, done, id);
  }

  // ---------- the class ----------

  class CacheEntry {
    const driver: DriverId
    const connID: int
    var lastUsed: Time

    constructor (driver: DriverId, connID: int, now: Time)
      ensures this.driver == driver && this.connID == connID && lastUsed == now
    {
      this.driver, this.connID, lastUsed := driver, connID, now;
    }
  }

  class DriverPool {
    var drivers: map<int, CacheEntry>
    var stopped: bool
    ghost var closed: multiset<DriverId>

    /** Every entry knows the id it is stored under, so no two ids share an entry. */
    ghost predicate Valid()
      reads this, drivers.Values
    {
      && (forall id :: id in drivers ==> drivers[id].connID == id)
      && (stopped ==> drivers == map[])
    }

    ghost function Entries(): map<int, Entry>
      reads this, drivers.Values
    {
      map id | id in drivers :: Entry(drivers[id].driver, drivers[id].lastUsed)
    }

    ghost function Value(): State
      reads this, drivers.Values
    {
      State(Entries(), closed, stopped)
    }

    constructor ()
      ensures Valid() && Value() == State(map[], multiset{}, false)
    {
      drivers, stopped, closed := map[], false, multiset{};
    }

    method LookUp(id: int, now: Time) returns (d: Option<DriverId>)
      requires Valid()
      modifies drivers.Values
      ensures Valid() && drivers == old(drivers)
      ensures (Value(), d) == LookedUp(old(Value()), id, now)
    {
      if id in drivers {
        var e := drivers[id];
        assert forall i :: i in drivers && drivers[i] == e ==> i == e.connID;
        e.lastUsed := now;
        assert Entries() == old(Entries())[id := Entry(e.driver, now)];
        return Some(e.driver);
      }
      return None;
    }

    /** Inserts a driver that is still open, or closes it because someone was faster. */
    method InsertOrYield(id: int, d: DriverId, now: Time) returns (outcome: Insertion)
      requires Valid()
      modifies this, drivers.Values
      ensures Valid()
      ensures (Value(), outcome) == InsertedOrYielded(old(Value()), id, d, now)
      ensures fresh(drivers.Values - old(drivers.Values))
    {
      if id in drivers {
        closed := closed + multiset{d};
        var existing := drivers[id];
        assert forall i :: i in drivers && drivers[i] == existing ==> i == existing.connID;
        existing.lastUsed := now;
        assert Entries() == old(Entries())[id := Entry(existing.driver, now)];
        return Yielded(existing.driver);
      }
      if stopped {
        return NilMapPanic;
      }
      var e := new CacheEntry(d, id, now);
      assert forall i :: i in drivers ==> drivers[i] in old(drivers.Values);
      drivers := drivers[id := e];
      assert Entries() == old(Entries())[id := Entry(d, now)];
      return Inserted;
    }

    method Evict(id: int)
      requires Valid()
      modifies this
      ensures Valid()
      ensures Value() == Evicted(old(Value()), id)
      ensures drivers.Values <= old(drivers.Values)
    {
      if id in drivers {
        closed := closed + multiset{drivers[id].driver};
        drivers := drivers - {id};
        assert Entries() == old(Entries()) - {id};
      }
    }

    method EvictIdle(cutoff: Time) returns (evicted: nat)
      requires Valid()
      modifies this
      ensures Valid()
      ensures Value() == IdleEvicted(old(Value()), cutoff)
      ensures evicted == |IdleIds(old(Value()), cutoff)|
      ensures drivers.Values <= old(drivers.Values)
    {
      ghost var entries, idle := Entries(), IdleIds(Value(), cutoff);
      var left;
      ghost var closings;
      left, evicted, closings := WithoutIdle(cutoff, entries, idle);
      drivers, closed := left, closed + closings;
      assert Entries() == entries - idle;
    }

    /** The loop of evictIdle: it visits the entries in an arbitrary order. */
    method WithoutIdle(cutoff: Time, ghost entries: map<int, Entry>, ghost idle: set<int>)
      returns (left: map<int, CacheEntry>, evicted: nat, ghost closings: multiset<DriverId>)
      requires entries == Entries()
      requires idle <= entries.Keys && forall id :: id in entries ==> (id in idle <==> entries[id].lastUsed < cutoff)
      ensures left == drivers - idle
      ensures closings == DriversOf(entries, idle)
      ensures evicted == |idle|
    {
      MinusNothing(drivers);
      left, evicted, closings := drivers, 0, multiset{};
      var todo := drivers.Keys;
      ghost var done: set<int> := {};
      while todo != {}
        invariant todo <= drivers.Keys && done <= idle && done !! todo && idle <= todo + done
        invariant left == drivers - done
        invariant closings == DriversOf(entries, done)
        invariant evicted == |done|
        decreases |todo|
      {
        SomeMember(todo);
        var id :| id in todo;
        todo := todo - {id};
        assert id !in done;
        var e := drivers[id];
        assert entries[id] == Entry(e.driver, e.lastUsed);
        if e.lastUsed < cutoff {
          OneMoreOut(drivers, entries, done, id);
          closings := closings + multiset{e.driver};
          left := left - {id};
          evicted := evicted + 1;
          done := done + {id};
        }
      }
      SameSet(done, idle);
    }

    method Stop()
      requires Valid()
      modifies this
      ensures Valid()
      ensures Value() == Stopped(old(Value()))
    {
      ghost var closings := Closings(Entries());
      drivers, stopped, closed := map[], true, closed + closings;
      assert Entries() == map[];
    }

    /** The loop of Stop: the Close calls it makes. */
    ghost method Closings(entries: map<int, Entry>) returns (closings: multiset<DriverId>)
      requires entries == Entries()
      ensures closings == DriversOf(entries, entries.Keys)
    {
      closings := multiset{};
      var todo, done := drivers.Keys, {};
      while todo != {}
        invariant todo <= entries.Keys && done == entries.Keys - todo
        invariant closings == DriversOf(entries, done)
        decreases |todo|
      {
        SomeMember(todo);
        var id :| id in todo;
        assert entries[id].driver == drivers[id].driver;
        DriversOfAdd(entries, done, id);
        closings := closings + multiset{drivers[id].driver};
        todo, done := todo - {id}, done + {id};
      }
      assert done == entries.Keys;
    }
  }
}
