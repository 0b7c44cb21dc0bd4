/** How the SQLite driver folds the rows of PRAGMA foreign_key_list into foreign keys
    (internal/dbx/sqlite.go): it appends to records that it reaches through a map of pointers. */
module ForeignKeys {
  import opened Text
  import opened Decimals
  import opened Catalog

  /** One row of the list: one column pair of the key `id`. */
  datatype FkRow = FkRow(id: int, refTable: string, from: string, to: string, onUpdate: string, onDelete: string)

  // ---------- the group-by ----------

  /** The rows that could be scanned; a row with NULL as its target column cannot. */
  function Accepted(rows: seq<Option<FkRow>>): seq<FkRow> {
    if rows == [] then []
    else
      var before, last := Accepted(rows[..|rows| - 1]), rows[|rows| - 1];
      if last == None then before else before + [last.value]
  }

  /** The ids in the order in which they are first seen. */
  function Ids(rows: seq<FkRow>): seq<int> {
    if rows == [] then []
    else
      var ids, last := Ids(rows[..|rows| - 1]), rows[|rows| - 1].id;
      if last in ids then ids else ids + [last]
  }

  function RowsOf(rows: seq<FkRow>, id: int): (r: seq<FkRow>)
    ensures |r| <= |rows|
  {
    if rows == [] then []
    else RowsOf(rows[..|rows| - 1], id) + (if rows[|rows| - 1].id == id then [rows[|rows| - 1]] else [])
  }

  function From(rows: seq<FkRow>): seq<string> { seq(|rows|, i requires 0 <= i < |rows| => rows[i].from) }

  function To(rows: seq<FkRow>): seq<string> { seq(|rows|, i requires 0 <= i < |rows| => rows[i].to) }

  /** A key from its rows: the table and the actions of the first, the column pairs of all. */
  function KeyOf(rows: seq<FkRow>): ForeignKey
    requires |rows| > 0
  {
    ForeignKey("fk_" + SignedDecimal(rows[0].id), From(rows), "", rows[0].refTable, To(rows), rows[0].onDelete,
               rows[0].onUpdate)
  }

  function KeyFor(rows: seq<FkRow>, id: int): ForeignKey {
    if RowsOf(rows, id) == [] then ForeignKey("", [], "", "", [], "", "") else KeyOf(RowsOf(rows, id))
  }

  function KeysFor(rows: seq<FkRow>, ids: seq<int>): seq<ForeignKey> {
    seq(|ids|, i requires 0 <= i < |ids| => KeyFor(rows, ids[i]))
  }

  function Grouped(rows: seq<FkRow>): seq<ForeignKey> { KeysFor(rows, Ids(rows)) }

  // ---------- the driver's loop ----------

  class KeyRecord {
    var name: string
    var columns: seq<string>
    var refTable: string
    var refColumns: seq<string>
    var onDelete: string
    var onUpdate: string

    constructor (name: string, refTable: string, onUpdate: string, onDelete: string)
      ensures Value() == ForeignKey(name, [], "", refTable, [], onDelete, onUpdate)
    {
      this.name, this.refTable, this.onUpdate, this.onDelete := name, refTable, onUpdate, onDelete;
      columns, refColumns := [], [];
    }

    function Value(): ForeignKey
      reads this
    {
      ForeignKey(name, columns, "", refTable, refColumns, onDelete, onUpdate)
    }

    method AddPair(from: string, to: string)
      modifies this
      ensures Value() == old(Value()).(columns := old(columns) + [from], refColumns := old(refColumns) + [to])
    {
      columns := columns + [from];
      refColumns := refColumns + [to];
    }
  }

  lemma IdsAreThoseOfRows(rows: seq<FkRow>, id: int)
    ensures id in Ids(rows) <==> RowsOf(rows, id) != []
  {
  }

  /** One more row adds its column pair to its key and leaves the other keys alone. */
  lemma OneMoreRow(rows: seq<FkRow>, row: FkRow, id: int)
    ensures id != row.id ==> KeyFor(rows + [row], id) == KeyFor(rows, id)
    ensures id == row.id && RowsOf(rows, id) == [] ==>
              KeyFor(rows + [row], id) ==
              ForeignKey("fk_" + SignedDecimal(id), [row.from], "", row.refTable, [row.to], row.onDelete, row.onUpdate)
    ensures id == row.id && RowsOf(rows, id) != [] ==>
              KeyFor(rows + [row], id) ==
              KeyFor(rows, id).(columns := KeyFor(rows, id).columns + [row.from],
                                refColumns := KeyFor(rows, id).refColumns + [row.to])
  {
    assert (rows + [row])[..|rows|] == rows;
    var before, after := RowsOf(rows, id), RowsOf(rows + [row], id);
    assert after == before + (if row.id == id then [row] else []);
    if row.id != id {
      assert after == before;
    } else {
      assert From(after) == From(before) + [row.from];
      assert To(after) == To(before) + [row.to];
    }
  }

  ghost predicate Holds(grouped: map<int, KeyRecord>, order: seq<int>, rows: seq<FkRow>)
    reads grouped.Values
  {
    && order == Ids(rows)
    && (forall id :: id in grouped <==> id in order)
    && (forall a, b :: a in grouped && b in grouped && a != b ==> grouped[a] != grouped[b])
    && (forall id :: id in grouped ==> grouped[id].Value() == KeyFor(rows, id))
  }

  method GroupRow(grouped0: map<int, KeyRecord>, order0: seq<int>, row: FkRow, ghost rows: seq<FkRow>)
    returns (grouped: map<int, KeyRecord>, order: seq<int>)
    requires Holds(grouped0, order0, rows)
    modifies grouped0.Values
    ensures Holds(grouped, order, rows + [row])
    ensures fresh(grouped.Values - grouped0.Values)
  {
    grouped, order := grouped0, order0;
    assert (rows + [row])[..|rows|] == rows;
    forall id {
      OneMoreRow(rows, row, id);
    }
    IdsAreThoseOfRows(rows, row.id);
    var fk: KeyRecord;
    if row.id in grouped {
      fk := grouped[row.id];
    } else {
      fk := new KeyRecord("fk_" + SignedDecimal(row.id), row.refTable, row.onUpdate, row.onDelete);
      assert forall id :: id in grouped0 ==> grouped0[id] in grouped0.Values;
      grouped := grouped[row.id := fk];
      order := order + [row.id];
    }
    assert grouped[row.id] == fk;
    assert forall id :: id in grouped && id != row.id ==> grouped[id] != fk;
    fk.AddPair(row.from, row.to);
  }

  lemma AcceptedNext(rows: seq<Option<FkRow>>, n: nat)
    requires n < |rows|
    ensures Accepted(rows[..n + 1]) ==
            if rows[n] == None then Accepted(rows[..n]) else Accepted(rows[..n]) + [rows[n].value]
  {
    assert rows[..n + 1][..n] == rows[..n];
  }

  method CollectKeys(grouped: map<int, KeyRecord>, order: seq<int>, ghost rows: seq<FkRow>)
    returns (fks: seq<ForeignKey>)
    requires Holds(grouped, order, rows)
    ensures fks == Grouped(rows)
  {
    fks := [];
    for i := 0 to |order|
      invariant fks == KeysFor(rows, order[..i])
    {
      var id := order[i];
      assert id in order;
      fks := fks + [grouped[id].Value()];
      assert order[..i + 1] == order[..i] + [order[i]];
    }
    assert order[..|order|] == order;
  }

  method GroupNext(grouped0: map<int, KeyRecord>, order0: seq<int>, rows: seq<Option<FkRow>>, n: nat)
    returns (grouped: map<int, KeyRecord>, order: seq<int>)
    requires n < |rows| && Holds(grouped0, order0, Accepted(rows[..n]))
    modifies grouped0.Values
    ensures Holds(grouped, order, Accepted(rows[..n + 1]))
    ensures fresh(grouped.Values - grouped0.Values)
  {
    grouped, order := grouped0, order0;
    AcceptedNext(rows, n);
    if rows[n].Some? {
      grouped, order := GroupRow(grouped, order, rows[n].value, Accepted(rows[..n]));
    }
  }

  method GroupForeignKeys(rows: seq<Option<FkRow>>) returns (fks: seq<ForeignKey>)
    ensures fks == Grouped(Accepted(rows))
  {
    var grouped: map<int, KeyRecord> := map[];
    var order: seq<int> := [];
    for n := 0 to |rows|
      invariant Holds(grouped, order, Accepted(rows[..n]))
      invariant fresh(grouped.Values)
    {
      grouped, order := GroupNext(grouped, order, rows, n);
    }
    assert rows[..|rows|] == rows;
    fks := CollectKeys(grouped, order, Accepted(rows));
  }

  // ---------- what the grouping keeps ----------

  function FirstSeen(rows: seq<FkRow>, id: int): (n: nat)
    ensures n <= |rows|
    ensures n < |rows| ==> rows[n].id == id
    ensures forall i :: 0 <= i < n ==> rows[i].id != id
  {
    if rows == [] then 0
    else
      var n := FirstSeen(rows[..|rows| - 1], id);
      if n < |rows| - 1 || rows[n].id == id then n else |rows|
  }

  /** One key per distinct id, in first-seen order. */
  lemma {:induction false} IdsInFirstSeenOrder(rows: seq<FkRow>)
    ensures forall id :: id in Ids(rows) <==> FirstSeen(rows, id) < |rows|
    ensures forall i, j :: 0 <= i < j < |Ids(rows)| ==> FirstSeen(rows, Ids(rows)[i]) < FirstSeen(rows, Ids(rows)[j])
  {
    if rows != [] {
      IdsInFirstSeenOrder(rows[..|rows| - 1]);
    }
  }

  /** Rows that cannot be scanned are skipped, and the others are taken in order. */
  lemma {:induction false} AcceptedConcat(a: seq<Option<FkRow>>, b: seq<Option<FkRow>>)
    ensures Accepted(a + b) == Accepted(a) + Accepted(b)
    ensures Accepted([None]) == [] && forall row :: Accepted([Some(row)]) == [row]
    decreases |b|
  {
    forall x: Option<FkRow> ensures [x][..0] == [] {}
    if b == [] {
      assert a + b == a;
    } else {
      var init := b[..|b| - 1];
      assert (a + b)[..|a + b| - 1] == a + init;
      AcceptedConcat(a, init);
    }
  }

  /** The rows of a key are all the rows with its id, in the order in which they came. */
  lemma {:induction false} RowsOfInOrder(rows: seq<FkRow>, id: int) returns (at: seq<nat>)
    ensures |at| == |RowsOf(rows, id)|
    ensures forall i :: 0 <= i < |at| ==> at[i] < |rows| && rows[at[i]] == RowsOf(rows, id)[i] && rows[at[i]].id == id
    ensures forall i, j :: 0 <= i < j < |at| ==> at[i] < at[j]
    ensures forall n :: 0 <= n < |rows| && rows[n].id == id ==> n in at
  {
    if rows == [] {
      at := [];
    } else {
      var n := |rows| - 1;
      at := RowsOfInOrder(rows[..n], id);
      if rows[n].id == id { at := at + [n]; }
    }
  }

  lemma {:induction false} FirstRowOf(rows: seq<FkRow>, id: int)
    ensures RowsOf(rows, id) != [] ==> FirstSeen(rows, id) < |rows| && RowsOf(rows, id)[0] == rows[FirstSeen(rows, id)]
    ensures RowsOf(rows, id) == [] ==> FirstSeen(rows, id) == |rows|
  {
    if rows != [] { FirstRowOf(rows[..|rows| - 1], id); }
  }

  /** The i-th key is that of the i-th id: its name carries the id, its table and actions are those of the
      first row with the id, and its column pairs are those of the rows with the id. */
  lemma KeyAt(rows: seq<FkRow>, i: nat)
    requires i < |Ids(rows)|
    ensures |Grouped(rows)| == |Ids(rows)| && FirstSeen(rows, Ids(rows)[i]) < |rows|
    ensures var id, fk := Ids(rows)[i], Grouped(rows)[i];
            var first, own := rows[FirstSeen(rows, id)], RowsOf(rows, id);
            && fk.name == "fk_" + SignedDecimal(id)
            && fk.refTable == first.refTable && fk.onDelete == first.onDelete && fk.onUpdate == first.onUpdate
            && |fk.columns| == |fk.refColumns| == |own|
            && forall j :: 0 <= j < |own| ==> fk.columns[j] == own[j].from && fk.refColumns[j] == own[j].to
  {
    var id := Ids(rows)[i];
    assert id in Ids(rows);
    IdsAreThoseOfRows(rows, id);
    FirstRowOf(rows, id);
  }

  /** The rows of the keys, key after key. */
  function Flattened(rows: seq<FkRow>, ids: seq<int>): seq<FkRow> {
    if ids == [] then [] else RowsOf(rows, ids[0]) + Flattened(rows, ids[1..])
  }

  lemma {:induction false} RowsOfCount(rows: seq<FkRow>, id: int, row: FkRow)
    ensures multiset(RowsOf(rows, id))[row] == if row.id == id then multiset(rows)[row] else 0
  {
    if rows != [] {
      var init := rows[..|rows| - 1];
      RowsOfCount(init, id, row);
      assert rows == init + [rows[|rows| - 1]];
    }
  }

  lemma {:induction false} FlattenedCount(rows: seq<FkRow>, ids: seq<int>, row: FkRow)
    requires forall i, j :: 0 <= i < j < |ids| ==> ids[i] != ids[j]
    ensures multiset(Flattened(rows, ids))[row] == if row.id in ids then multiset(rows)[row] else 0
  {
    if ids != [] {
      RowsOfCount(rows, ids[0], row);
      FlattenedCount(rows, ids[1..], row);
      assert row.id in ids <==> row.id == ids[0] || row.id in ids[1..];
    }
  }

  /** No accepted row is lost or doubled: the keys' rows together are the accepted rows. */
  lemma GroupingLosesNothing(rows: seq<FkRow>)
    ensures multiset(Flattened(rows, Ids(rows))) == multiset(rows)
  {
    IdsInFirstSeenOrder(rows);
    forall row: FkRow
      ensures multiset(Flattened(rows, Ids(rows)))[row] == multiset(rows)[row]
    {
      FlattenedCount(rows, Ids(rows), row);
      if row in rows {
        var i :| 0 <= i < |rows| && rows[i] == row;
        assert FirstSeen(rows, row.id) <= i;
      }
    }
  }

  function Pairs(fks: seq<ForeignKey>): nat {
    if fks == [] then 0 else |fks[0].columns| + Pairs(fks[1..])
  }

  lemma {:induction false} PairsOfKeys(rows: seq<FkRow>, ids: seq<int>)
    ensures Pairs(KeysFor(rows, ids)) == |Flattened(rows, ids)|
  {
    if ids != [] {
      assert KeysFor(rows, ids)[1..] == KeysFor(rows, ids[1..]);
      PairsOfKeys(rows, ids[1..]);
    }
  }

  /** Every key pairs each column with one column, at least one, and the pairs are as many as the accepted rows. */
  lemma PairsConserved(rows: seq<FkRow>)
    ensures Pairs(Grouped(rows)) == |rows|
    ensures forall fk :: fk in Grouped(rows) ==> |fk.columns| == |fk.refColumns| > 0
  {
    PairsOfKeys(rows, Ids(rows));
    GroupingLosesNothing(rows);
    assert |multiset(Flattened(rows, Ids(rows)))| == |multiset(rows)|;
    forall id | id in Ids(rows)
      ensures RowsOf(rows, id) != []
    {
      IdsAreThoseOfRows(rows, id);
    }
  }
}
