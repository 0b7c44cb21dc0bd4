/** The session store (internal/store/sessions.go): Get compares instants, PurgeExpired compares
    the stored texts. Times are nanoseconds since the start of year 0; session ids and tokens,
    random in the original, are parameters. */
module Sessions {
  import opened Text
  import Rfc3339

  const SECOND := 1_000_000_000

  datatype Row = Row(userId: int, csrf: string, expiresAt: string)

  type Rows = map<string, Row>

  datatype Error = NotFound | BadTimestamp | DuplicateId

  /** What a caller of Create or Get is given; expiresAt is an instant in nanoseconds. */
  datatype Session = Session(id: string, userId: int, csrf: string, expiresAt: int)

  datatype Op =
    | Create(id: string, csrf: string, userId: int, ttl: nat)
    | Get(id: string)
    | Delete(id: string)
    | Purge

  datatype Event = Event(op: Op, now: nat)

  datatype Answer = Answered(r: Result<Session, Error>) | Silent

  function WithoutPurges(events: seq<Event>): seq<Event> {
    if events == [] then []
    else if events[0].op.Purge? then WithoutPurges(events[1..])
    else [events[0]] + WithoutPurges(events[1..])
  }

  function LastTime(now: nat, events: seq<Event>): nat {
    if events == [] then now else events[|events| - 1].now
  }

  /** A text form of instants in whole seconds, and the store that keeps its expiries in it. */
  datatype Timestamps = Timestamps(format: nat -> string, parse: string -> Option<nat>, covers: nat -> bool) {

    /** What the store needs of its text form, for the instants that the form covers. */
    ghost predicate Lawful() {
      && (forall t: nat :: covers(t) ==> parse(format(t)) == Some(t))
      && (forall s: nat, t: nat :: covers(s) && covers(t) ==> (Rfc3339.TextLess(format(s), format(t)) <==> s < t))
    }

    // ---------- the statements on values ----------

    function Stamp(now: nat): string { format(now / SECOND) }

    function Inserted(rows: Rows, id: string, csrf: string, userId: int, expiry: nat): (Rows, Result<Session, Error>) {
      if id in rows then (rows, Err(DuplicateId))
      else (rows[id := Row(userId, csrf, Stamp(expiry))], Ok(Session(id, userId, csrf, expiry)))
    }

    function Got(rows: Rows, id: string, now: nat): (Rows, Result<Session, Error>) {
      if id !in rows then (rows, Err(NotFound))
      else
        match parse(rows[id].expiresAt)
        case None => (rows, Err(BadTimestamp))
        case Some(t) =>
          if now > t * SECOND then (rows - {id}, Err(NotFound))
          else (rows, Ok(Session(id, rows[id].userId, rows[id].csrf, t * SECOND)))
    }

    function Purged(rows: Rows, now: nat): Rows {
      map id | id in rows && !Rfc3339.TextLess(rows[id].expiresAt, Stamp(now)) :: rows[id]
    }

    // ---------- expiry as an instant ----------

    predicate InTime(now: nat) { covers(now / SECOND) }

    /** The row was written by Create with an expiry that the text form covers. */
    predicate WellFormed(row: Row) {
      match parse(row.expiresAt)
      case None => false
      case Some(t) => covers(t) && row.expiresAt == format(t)
    }

    predicate AllWellFormed(rows: Rows) { forall id :: id in rows ==> WellFormed(rows[id]) }

    function ExpirySecond(row: Row): nat
      requires WellFormed(row)
    {
      parse(row.expiresAt).value
    }

    /** Get refuses the session. */
    predicate Expired(row: Row, now: nat) {
      match parse(row.expiresAt)
      case None => false
      case Some(t) => now > t * SECOND
    }

    /** What the text comparison of PurgeExpired decides: the expiry second is over. */
    lemma PurgesExactly(row: Row, now: nat)
      requires Lawful() && WellFormed(row) && InTime(now)
      ensures Rfc3339.TextLess(row.expiresAt, Stamp(now)) <==> (ExpirySecond(row) + 1) * SECOND <= now
    {
      var t := ExpirySecond(row);
      assert Rfc3339.TextLess(format(t), format(now / SECOND)) <==> t < now / SECOND;
    }

    /** A purge takes only sessions that Get refuses. It leaves those that are refused during the
        rest of their expiry second. */
    lemma PurgedAreExpired(rows: Rows, now: nat, id: string)
      requires Lawful() && AllWellFormed(rows) && InTime(now) && id in rows
      ensures id !in Purged(rows, now) ==> Expired(rows[id], now)
      ensures id in Purged(rows, now) && Expired(rows[id], now) <==>
              ExpirySecond(rows[id]) * SECOND < now < (ExpirySecond(rows[id]) + 1) * SECOND
    {
      PurgesExactly(rows[id], now);
    }

    /** A purge changes what a Get answers exactly when the Get's clock is behind: the purge saw the
        expiry second over and the Get has not seen its start pass. */
    lemma PurgeThenGet(rows: Rows, purgeTime: nat, getTime: nat, id: string)
      requires Lawful() && AllWellFormed(rows) && InTime(purgeTime)
      ensures Got(Purged(rows, purgeTime), id, getTime).1 != Got(rows, id, getTime).1 <==>
              && id in rows && (ExpirySecond(rows[id]) + 1) * SECOND <= purgeTime
              && getTime <= ExpirySecond(rows[id]) * SECOND
    {
      if id in rows {
        PurgesExactly(rows[id], purgeTime);
      }
    }

    /** A created session answers until its expiry cut down to a whole second, and not after; what
        Get reports is that second, not the expiry that Create reported. */
    lemma CreateThenGet(rows: Rows, id: string, csrf: string, userId: int, expiry: nat, now: nat)
      requires Lawful() && id !in rows && InTime(expiry)
      ensures var truncated := expiry / SECOND * SECOND;
              Got(Inserted(rows, id, csrf, userId, expiry).0, id, now).1 ==
              if now <= truncated then Ok(Session(id, userId, csrf, truncated)) else Err(NotFound)
    {
      assert covers(expiry / SECOND);
    }

    /** Create answers with the session that Get will find, but for the part of the expiry below a second; an
        id that is there is refused and nothing changes. */
    lemma CreateAnswers(rows: Rows, id: string, csrf: string, userId: int, expiry: nat, now: nat)
      requires Lawful() && InTime(expiry)
      ensures var (rows', r) := Inserted(rows, id, csrf, userId, expiry);
              && (r.Ok? <==> id !in rows)
              && (r.Err? ==> r == Err(DuplicateId) && rows' == rows)
              && (r.Ok? ==> r.value.id == id && r.value.userId == userId && r.value.csrf == csrf
                            && r.value.expiresAt == expiry)
              && (r.Ok? && Got(rows', id, now).1.Ok? ==>
                    Got(rows', id, now).1.value == r.value.(expiresAt := expiry / SECOND * SECOND))
              && (forall other :: other in rows && other != id ==> other in rows' && rows'[other] == rows[other])
    {
      assert covers(expiry / SECOND);
    }

    /** What Get leaves behind: a session refused for its expiry is deleted; otherwise nothing changes. It
        answers with an error other than "not found" exactly if the expiry cannot be read. */
    lemma GetLeaves(rows: Rows, id: string, now: nat)
      ensures var (rows', r) := Got(rows, id, now);
              && (r == Err(NotFound) ==> id !in rows')
              && (r != Err(NotFound) ==> rows' == rows)
              && (forall other :: other in rows && other != id ==> other in rows' && rows'[other] == rows[other])
              && rows'.Keys <= rows.Keys
              && (r == Err(BadTimestamp) <==> id in rows && parse(rows[id].expiresAt) == None)
              && (r == Err(NotFound) <==> id !in rows || Expired(rows[id], now))
    {
    }

    // ---------- runs ----------

    function Step(rows: Rows, e: Event): (Rows, Answer) {
      match e.op
      case Create(id, csrf, userId, ttl) =>
        var (rows', r) := Inserted(rows, id, csrf, userId, e.now + ttl);
        (rows', Answered(r))
      case Get(id) =>
        var (rows', r) := Got(rows, id, e.now);
        (rows', Answered(r))
      case Delete(id) => (rows - {id}, Silent)
      case Purge => (Purged(rows, e.now), Silent)
    }

    /** The store at the end and the answers of all operations but the purges. */
    function Run(rows: Rows, events: seq<Event>): (Rows, seq<Answer>)
      decreases |events|
    {
      if events == [] then (rows, [])
      else
        var (next, answer) := Step(rows, events[0]);
        var (end, answers) := Run(next, events[1..]);
        (end, if events[0].op.Purge? then answers else [answer] + answers)
    }

    /** The clock never goes back from `now` on, and the text form covers it and every expiry. */
    predicate ClockRuns(now: nat, events: seq<Event>)
      decreases |events|
    {
      events == [] ||
      (&& now <= events[0].now && InTime(events[0].now)
       && (events[0].op.Create? ==> InTime(events[0].now + events[0].op.ttl))
       && ClockRuns(events[0].now, events[1..]))
    }

    /** Every Create draws an id that is not in the store (without purges). */
    predicate IdsFresh(rows: Rows, events: seq<Event>)
      decreases |events|
    {
      events == [] ||
      (&& (events[0].op.Create? ==> events[0].op.id !in rows)
       && IdsFresh(if events[0].op.Purge? then rows else Step(rows, events[0]).0, events[1..]))
    }

    /** The purged store is the other one without some sessions that Get refuses from `now` on. */
    predicate Agree(purged: Rows, kept: Rows, now: nat) {
      && (forall id :: id in purged ==> id in kept && kept[id] == purged[id])
      && (forall id :: id in kept && id !in purged ==> Expired(kept[id], now))
    }

    lemma StepKeepsWellFormed(rows: Rows, e: Event)
      requires Lawful() && AllWellFormed(rows)
      requires e.op.Create? ==> InTime(e.now + e.op.ttl)
      ensures AllWellFormed(Step(rows, e).0)
    {
      if e.op.Create? {
        assert covers((e.now + e.op.ttl) / SECOND);
      }
    }

    lemma PurgeKeepsAgreement(purged: Rows, kept: Rows, now: nat)
      requires Lawful() && Agree(purged, kept, now) && AllWellFormed(purged) && InTime(now)
      ensures Agree(Purged(purged, now), kept, now)
    {
      forall id | id in kept && id !in Purged(purged, now)
        ensures Expired(kept[id], now)
      {
        if id in purged {
          PurgesExactly(purged[id], now);
        }
      }
    }

    lemma StepsAgree(purged: Rows, kept: Rows, e: Event)
      requires Agree(purged, kept, e.now) && !e.op.Purge?
      requires e.op.Create? ==> e.op.id !in kept
      ensures Step(purged, e).1 == Step(kept, e).1
      ensures Agree(Step(purged, e).0, Step(kept, e).0, e.now)
    {
    }

    lemma {:induction false} RunsAgree(purged: Rows, kept: Rows, now: nat, events: seq<Event>)
      requires Lawful() && Agree(purged, kept, now) && AllWellFormed(purged)
      requires ClockRuns(now, events) && IdsFresh(kept, events)
      ensures Run(purged, events).1 == Run(kept, WithoutPurges(events)).1
      ensures Agree(Run(purged, events).0, Run(kept, WithoutPurges(events)).0, LastTime(now, events))
      decreases |events|
    {
      if events != [] {
        var e, rest := events[0], events[1..];
        StepKeepsWellFormed(purged, e);
        if e.op.Purge? {
          PurgeKeepsAgreement(purged, kept, e.now);
          RunsAgree(Step(purged, e).0, kept, e.now, rest);
        } else {
          StepsAgree(purged, kept, e);
          RunsAgree(Step(purged, e).0, Step(kept, e).0, e.now, rest);
          assert WithoutPurges(events)[1..] == WithoutPurges(rest);
        }
      }
    }
  }

  // ---------- the store ----------

  class SessionStore {
    const times: Timestamps  // RFC3339 in the program
    var rows: Rows

    constructor (times: Timestamps)
      ensures this.times == times && rows == map[]
    {
      this.times, rows := times, map[];
    }

    /** The INSERT statement fails on an id that is there: it is the primary key. */
    method Create(id: string, csrf: string, userId: int, ttl: int, now: nat) returns (r: Result<Session, Error>)
      requires now + ttl >= 0
      modifies this
      ensures (rows, r) == times.Inserted(old(rows), id, csrf, userId, now + ttl)
    {
      var exp := now + ttl;
      if id in rows {
        return Err(DuplicateId);
      }
      rows := rows[id := Row(userId, csrf, times.Stamp(exp))];
      r := Ok(Session(id, userId, csrf, exp));
    }

    method Get(id: string, now: nat) returns (r: Result<Session, Error>)
      modifies this
      ensures (rows, r) == times.Got(old(rows), id, now)
    {
      if id !in rows {
        return Err(NotFound);
      }
      var row := rows[id];
      var t := times.parse(row.expiresAt);
      if t.None? {
        return Err(BadTimestamp);
      }
      if now > t.value * SECOND {
        rows := rows - {id};
        return Err(NotFound);
      }
      r := Ok(Session(id, row.userId, row.csrf, t.value * SECOND));
    }

    method Delete(id: string)
      modifies this
      ensures rows == old(rows) - {id}
    {
      rows := rows - {id};
    }

    method PurgeExpired(now: nat)
      modifies this
      ensures rows == times.Purged(old(rows), now)
    {
      var cutoff := times.Stamp(now);
      rows := map id | id in rows && !Rfc3339.TextLess(rows[id].expiresAt, cutoff) :: rows[id];
    }
  }

  // ---------- timestamps of RFC 3339 ----------

  const RFC3339 := Timestamps(Rfc3339.Format, Rfc3339.Parse, Rfc3339.InRange)

  lemma Rfc3339IsLawful()
    ensures RFC3339.Lawful()
  {
    forall t: nat | RFC3339.covers(t)
      ensures RFC3339.parse(RFC3339.format(t)) == Some(t)
    {
      Rfc3339.ParseFormat(t);
    }
    forall s: nat, t: nat | RFC3339.covers(s) && RFC3339.covers(t)
      ensures Rfc3339.TextLess(RFC3339.format(s), RFC3339.format(t)) <==> s < t
    {
      Rfc3339.TextOrderIsTimeOrder(s, t);
    }
  }

  /** Purging, however often and whenever, changes no answer of a run; the stores at the end differ
      only in sessions that Get refuses. */
  lemma PurgesInvisible(rows: Rows, now: nat, events: seq<Event>)
    requires RFC3339.AllWellFormed(rows) && RFC3339.ClockRuns(now, events) && RFC3339.IdsFresh(rows, events)
    ensures RFC3339.Run(rows, events).1 == RFC3339.Run(rows, WithoutPurges(events)).1
    ensures RFC3339.Agree(RFC3339.Run(rows, events).0, RFC3339.Run(rows, WithoutPurges(events)).0,
                          LastTime(now, events))
  {
    Rfc3339IsLawful();
    RFC3339.RunsAgree(rows, rows, now, events);
  }
}
