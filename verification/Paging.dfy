/** Browsing a table page by page: the capped row reader (internal/dbx/exec.go), SampleRows of the
    drivers, the data handler (internal/server/handlers_object.go) and the links of its pager
    (web/templates/partials/object_data.html). A table is a fixed sequence of rows. */
module Paging {
  import opened Text
  import opened Identifiers

  // ---------- readRows ----------

  datatype ReadError = ScanFailed | CursorFailed

  datatype RowSet<+T> = RowSet(rows: seq<T>, truncated: bool)

  /** The rows that a cursor yields; None is a row that cannot be scanned. At the end the cursor may
      report an error. */
  datatype Cursor<+T> = Cursor(rows: seq<Option<T>>, failsAtEnd: bool)

  function Values<T>(rows: seq<Option<T>>): seq<T>
    requires forall r :: r in rows ==> r.Some?
  {
    seq(|rows|, i requires 0 <= i < |rows| => rows[i].value)
  }

  /** The rows that are looked at: all, or as many as the cap allows. */
  function Seen(total: nat, maxRows: int): nat { if 0 < maxRows < total then maxRows else total }

  method ReadRows<T>(cursor: Cursor<T>, maxRows: int) returns (r: Result<RowSet<T>, ReadError>)
    ensures var n := Seen(|cursor.rows|, maxRows);
            var scanned := forall i :: 0 <= i < n ==> cursor.rows[i].Some?;
            var failed := n == |cursor.rows| && cursor.failsAtEnd;
            && (!scanned ==> r == Err(ScanFailed))
            && (scanned && failed ==> r == Err(CursorFailed))
            && (scanned && !failed ==> r == Ok(RowSet(Values(cursor.rows[..n]), n < |cursor.rows|)))
    ensures r.Ok? && r.value.truncated ==> |r.value.rows| == maxRows < |cursor.rows|
    ensures r.Ok? && !r.value.truncated ==>
              |r.value.rows| == |cursor.rows| && (maxRows > 0 ==> |cursor.rows| <= maxRows)
  {
    var rows: seq<T> := [];
    var count := 0;
    while count < |cursor.rows|
      invariant 0 <= count <= Seen(|cursor.rows|, maxRows)
      invariant forall i :: 0 <= i < count ==> cursor.rows[i].Some?
      invariant rows == Values(cursor.rows[..count])
    {
      if maxRows > 0 && count >= maxRows {
        return Ok(RowSet(rows, true));
      }
      if cursor.rows[count] == None {
        return Err(ScanFailed);
      }
      rows := rows + [cursor.rows[count].value];
      count := count + 1;
    }
    r := if cursor.failsAtEnd then Err(CursorFailed) else Ok(RowSet(rows, false));
  }

  // ---------- one page ----------

  const DEFAULT_LIMIT := 100

  function EffectiveLimit(limit: int): (n: nat)
    ensures n > 0
  {
    if limit <= 0 then DEFAULT_LIMIT else limit
  }

  function Min(a: int, b: int): int { if a < b then a else b }

  /** SELECT with LIMIT and OFFSET: Postgres and MySQL refuse a negative offset, SQLite takes it for 0. */
  function Select<T>(k: Kind, table: seq<T>, limit: nat, offset: int): Option<seq<T>> {
    var from := if offset < 0 then 0 else Min(offset, |table|);
    if offset < 0 && k != SQLite then None else Some(table[from..Min(from + limit, |table|)])
  }

  function SampleRows<T>(k: Kind, table: seq<T>, offset: int, limit: int): Option<seq<T>> {
    Select(k, table, EffectiveLimit(limit), offset)
  }

  function AllScanned<T>(rows: seq<T>): (s: seq<Option<T>>)
    ensures |s| == |rows| && forall i :: 0 <= i < |rows| ==> s[i] == Some(rows[i])
  {
    seq(|rows|, i requires 0 <= i < |rows| => Some(rows[i]))
  }

  /** The cap of limit + 1 that SampleRows reads with never cuts a page. */
  method ReadSample<T>(k: Kind, table: seq<T>, offset: int, limit: int) returns (r: Option<seq<T>>)
    ensures r == SampleRows(k, table, offset, limit)
  {
    var selected := Select(k, table, EffectiveLimit(limit), offset);
    if selected.None? {
      return None;
    }
    var rows := AllScanned(selected.value);
    var read := ReadRows(Cursor(rows, false), EffectiveLimit(limit) + 1);
    assert Seen(|rows|, EffectiveLimit(limit) + 1) == |rows|;
    assert Values(rows[..|rows|]) == selected.value;
    r := Some(read.value.rows);
  }

  /** A page has as many rows as asked for, or a hundred if the limit is not positive, or what is left. */
  lemma PageSize<T>(k: Kind, table: seq<T>, offset: nat, limit: int)
    requires offset <= |table|
    ensures SampleRows(k, table, offset, limit).Some?
    ensures |SampleRows(k, table, offset, limit).value| == Min(if limit <= 0 then 100 else limit, |table| - offset)
  {
  }

  predicate HasMore<T>(rows: seq<T>, limit: int) { |rows| >= limit }

  function Next(offset: int, limit: int): int { offset + limit }

  function Prev(offset: int, limit: int): int { if offset > limit then offset - limit else 0 }

  /** Going on and back returns to the same page, for every limit. */
  lemma PrevAfterNext(offset: nat, limit: int)
    ensures Prev(Next(offset, limit), limit) == offset
  {
  }

  /** Going back and on returns to the same page unless the page starts inside the first one. */
  lemma NextAfterPrev(offset: nat, limit: nat)
    ensures Next(Prev(offset, limit), limit) == offset <==> offset >= limit
  {
  }

  // ---------- following "next" ----------

  /** The pages seen from `offset` on while there is a next page. */
  function Walk<T>(k: Kind, table: seq<T>, offset: nat, limit: int): seq<seq<T>>
    requires limit > 0
    decreases |table| - offset
  {
    var page := SampleRows(k, table, offset, limit).value;
    if HasMore(page, limit) then [page] + Walk(k, table, Next(offset, limit), limit) else [page]
  }

  function Flatten<T>(pages: seq<seq<T>>): seq<T> {
    if pages == [] then [] else pages[0] + Flatten(pages[1..])
  }

  lemma {:induction false} WalkCovers<T>(k: Kind, table: seq<T>, offset: nat, limit: int)
    requires limit > 0 && offset <= |table|
    ensures Flatten(Walk(k, table, offset, limit)) == table[offset..]
    ensures |Walk(k, table, offset, limit)| == (|table| - offset) / limit + 1
    decreases |table| - offset
  {
    var page := SampleRows(k, table, offset, limit).value;
    if HasMore(page, limit) {
      var next := Next(offset, limit);
      WalkCovers(k, table, next, limit);
      var rest := Walk(k, table, next, limit);
      assert ([page] + rest)[1..] == rest;
      assert page + table[next..] == table[offset..];
      OneStepLess(|table| - offset, limit);
    } else {
      NoStepLeft(|table| - offset, limit);
      assert page == table[offset..];
      assert Flatten([page]) == page + [];
    }
  }

  // ---------- arithmetic of pages ----------

  lemma TimesNext(n: int, d: int)
    ensures (n + 1) * d == n * d + d
  {
  }

  lemma TimesMonotone(a: int, b: int, d: int)
    requires a <= b && d >= 0
    ensures a * d <= b * d
  {
    assert (b - a) * d >= 0;
  }

  lemma DivMod(x: nat, d: int)
    requires d > 0
    ensures x / d >= 0 && x / d * d <= x < x / d * d + d
  {
    assert x == d * (x / d) + x % d;
  }

  lemma DivUnique(x: nat, d: int, q: int)
    requires d > 0 && q * d <= x < q * d + d
    ensures x / d == q
  {
    var p := x / d;
    DivMod(x, d);
    TimesNext(p, d);
    TimesNext(q, d);
    if p < q {
      TimesMonotone(p + 1, q, d);
    } else if q < p {
      TimesMonotone(q + 1, p, d);
    }
  }

  lemma OneStepLess(left: int, limit: int)
    requires 0 < limit <= left
    ensures left / limit == (left - limit) / limit + 1
  {
    var q := (left - limit) / limit;
    DivMod(left - limit, limit);
    TimesNext(q, limit);
    DivUnique(left, limit, q + 1);
  }

  lemma NoStepLeft(left: nat, limit: int)
    requires left < limit
    ensures left / limit == 0
  {
    DivUnique(left, limit, 0);
  }

  /** From the first page on, "next" ends, and the pages are the table, each row once. The last page is
      empty when the limit divides the number of rows. */
  lemma WalkIsTable<T>(k: Kind, table: seq<T>, limit: int)
    requires limit > 0
    ensures Flatten(Walk(k, table, 0, limit)) == table
    ensures |Walk(k, table, 0, limit)| == |table| / limit + 1
  {
    WalkCovers(k, table, 0, limit);
  }

  // ---------- limits that are not positive ----------

  datatype Visit = At(offset: int) | Ended | Refused

  /** Where n clicks on "next" lead from the first page. The handler takes any limit. */
  function Visited<T>(k: Kind, table: seq<T>, limit: int, n: nat): Visit {
    if n == 0 then At(0)
    else
      match Visited(k, table, limit, n - 1)
      case At(offset) =>
        (match SampleRows(k, table, offset, limit)
         case None => Refused
         case Some(page) => if HasMore(page, limit) then At(Next(offset, limit)) else Ended)
      case other => other
  }

  lemma FullPage<T>(k: Kind, table: seq<T>, limit: int, offset: nat)
    requires limit > 0 && offset + limit <= |table|
    ensures SampleRows(k, table, offset, limit).Some? && HasMore(SampleRows(k, table, offset, limit).value, limit)
  {
  }

  lemma LastPage<T>(k: Kind, table: seq<T>, limit: int, offset: nat)
    requires limit > 0 && offset <= |table| < offset + limit
    ensures SampleRows(k, table, offset, limit).Some? && !HasMore(SampleRows(k, table, offset, limit).value, limit)
  {
  }

  lemma {:induction false} ClicksAdvance<T>(k: Kind, table: seq<T>, limit: int, n: nat)
    requires limit > 0 && n * limit <= |table|
    ensures Visited(k, table, limit, n) == At(n * limit)
  {
    if n > 0 {
      TimesNext(n - 1, limit);
      ClicksAdvance(k, table, limit, n - 1);
      TimesMonotone(0, n - 1, limit);
      FullPage(k, table, limit, (n - 1) * limit);
    }
  }

  lemma {:induction false} NoEndWithoutLimit<T>(k: Kind, table: seq<T>, limit: int, n: nat)
    requires limit <= 0
    ensures Visited(k, table, limit, n) == if limit == 0 || k == SQLite || n <= 1 then At(n * limit) else Refused
  {
    if n > 0 {
      NoEndWithoutLimit(k, table, limit, n - 1);
      TimesNext(n - 1, limit);
    }
  }

  /** "Next" comes to an end exactly for a positive limit. With limit 0 it stays on the first page for
      ever; with a negative one Postgres and MySQL refuse the second page, and SQLite shows the first
      one again and again. */
  lemma WalkEndsIffPositive<T>(k: Kind, table: seq<T>, limit: int)
    ensures (exists n: nat :: Visited(k, table, limit, n) == Ended) <==> limit > 0
  {
    if limit > 0 {
      var n := |table| / limit;
      DivMod(|table|, limit);
      ClicksAdvance(k, table, limit, n);
      TimesMonotone(0, n, limit);
      LastPage(k, table, limit, n * limit);
      assert Visited(k, table, limit, n + 1) == Ended;
    } else {
      forall n: nat
        ensures Visited(k, table, limit, n) != Ended
      {
        NoEndWithoutLimit(k, table, limit, n);
      }
    }
  }
}
