/** What the row edit statements mean: read as an SQL database reads them, an edit changes exactly
    the rows whose key columns match, for every dialect and every order in which Go ranges over the maps. */
module RowEdits {
  import opened Text
  import opened Identifiers
  import opened RowStatements
  import opened RowReader

  /** Column values; None is NULL. */
  type Row = map<string, Option<string>>

  datatype Table = Table(columns: set<string>, rows: seq<Row>)

  /** The tables under schema and name; an empty schema is the one the database looks in by itself. */
  type Database = map<(string, string), Table>

  // ---------- what a statement does ----------

  /** Every binding names a column of the table and an argument of the list. */
  predicate Bound(columns: set<string>, bs: seq<Binding>, args: seq<string>) {
    forall b :: b in bs ==> b.column in columns && 1 <= b.arg <= |args|
  }

  predicate Holds(row: Row, wheres: seq<Binding>, args: seq<string>)
    requires forall b :: b in wheres ==> 1 <= b.arg <= |args|
  {
    forall b :: b in wheres ==> b.column in row && row[b.column] == Some(args[b.arg - 1])
  }

  function Assigned(row: Row, sets: seq<Binding>, args: seq<string>): Row
    requires forall b :: b in sets ==> 1 <= b.arg <= |args|
    decreases |sets|
  {
    if sets == [] then row
    else Assigned(row[sets[0].column := Some(args[sets[0].arg - 1])], sets[1..], args)
  }

  function UpdateRows(rows: seq<Row>, sets: seq<Binding>, wheres: seq<Binding>, args: seq<string>): seq<Row>
    requires forall b :: b in sets ==> 1 <= b.arg <= |args|
    requires forall b :: b in wheres ==> 1 <= b.arg <= |args|
  {
    seq(|rows|, i requires 0 <= i < |rows| =>
      if Holds(rows[i], wheres, args) then Assigned(rows[i], sets, args) else rows[i])
  }

  function DeleteRows(rows: seq<Row>, wheres: seq<Binding>, args: seq<string>): seq<Row>
    requires forall b :: b in wheres ==> 1 <= b.arg <= |args|
  {
    if rows == [] then []
    else (if Holds(rows[0], wheres, args) then [] else [rows[0]]) + DeleteRows(rows[1..], wheres, args)
  }

  /** The rows after an UPDATE or DELETE, or None where the database refuses it: a column that is not
      there, or a wrong number of arguments. */
  function Apply(columns: set<string>, rows: seq<Row>, st: Statement, args: seq<string>): Option<seq<Row>> {
    match st
    case Update(_, _, sets, wheres) =>
      if |sets| + |wheres| == |args| && Bound(columns, sets, args) && Bound(columns, wheres, args)
      then Some(UpdateRows(rows, sets, wheres, args)) else None
    case Delete(_, _, wheres) =>
      if |wheres| == |args| && Bound(columns, wheres, args) then Some(DeleteRows(rows, wheres, args)) else None
    case Insert(_, _, _, _) => None
  }

  /** The values an INSERT gives the named columns of the new row. */
  function NewRow(columns: set<string>, st: Statement, args: seq<string>): Option<map<string, string>> {
    match st
    case Insert(_, _, cols, ns) =>
      if |cols| == |ns| == |args| && (forall c :: c in cols ==> c in columns)
         && (forall i :: 0 <= i < |ns| ==> 1 <= ns[i] <= |args|)
      then Some(Given(cols, ns, args)) else None
    case _ => None
  }

  /** The database after an UPDATE or DELETE of the table that the statement names. */
  function Run(db: Database, st: Statement, args: seq<string>): Option<Database> {
    var name := (st.schema, st.table);
    if name !in db then None
    else
      match Apply(db[name].columns, db[name].rows, st, args)
      case None => None
      case Some(rows) => Some(db[name := Table(db[name].columns, rows)])
  }

  function ExecuteUpdate(k: Kind, db: Database, p: Prepared): Option<Database> {
    match ReadUpdate(k, p.text)
    case None => None
    case Some(st) => Run(db, st, p.args)
  }

  function ExecuteDelete(k: Kind, db: Database, p: Prepared): Option<Database> {
    match ReadDelete(k, p.text)
    case None => None
    case Some(st) => Run(db, st, p.args)
  }

  /** The table that an INSERT adds a row to, with the values it gives the row. */
  function RunInsert(db: Database, st: Statement, args: seq<string>): Option<((string, string), map<string, string>)> {
    var name := (st.schema, st.table);
    if name !in db then None
    else
      match NewRow(db[name].columns, st, args)
      case None => None
      case Some(given) => Some((name, given))
  }

  function ExecuteInsert(k: Kind, db: Database, p: Prepared): Option<((string, string), map<string, string>)> {
    match ReadInsert(k, p.text)
    case None => None
    case Some(st) => RunInsert(db, st, p.args)
  }

  function Given(cols: seq<string>, args: seq<nat>, values: seq<string>): map<string, string>
    requires |cols| == |args| && (forall i :: 0 <= i < |args| ==> 1 <= args[i] <= |values|)
  {
    if cols == [] then map[] else Given(cols[1..], args[1..], values)[cols[0] := values[args[0] - 1]]
  }

  // ---------- what an edit is meant to do ----------

  predicate Matches(row: Row, pk: map<string, string>) {
    forall c :: c in pk ==> c in row && row[c] == Some(pk[c])
  }

  function With(row: Row, values: map<string, string>): Row {
    row + map c | c in values :: Some(values[c])
  }

  function Updated(rows: seq<Row>, pk: map<string, string>, values: map<string, string>): (r: seq<Row>)
    ensures |r| == |rows|
  {
    seq(|rows|, i requires 0 <= i < |rows| => if Matches(rows[i], pk) then With(rows[i], values) else rows[i])
  }

  function Deleted(rows: seq<Row>, pk: map<string, string>): seq<Row> {
    if rows == [] then []
    else (if Matches(rows[0], pk) then [] else [rows[0]]) + Deleted(rows[1..], pk)
  }

  /** The table that an edit is meant for. */
  function Target(k: Kind, ref: ObjectRef): (string, string) { (SchemaOf(k, ref), ref.name) }

  /** The table of `ref` is there and has these columns. */
  predicate HasColumns(k: Kind, db: Database, ref: ObjectRef, names: set<string>) {
    Target(k, ref) in db && names <= db[Target(k, ref)].columns
  }

  /** The rows of the table of `ref` are replaced, and every other table stays as it is. */
  function WithRows(k: Kind, db: Database, ref: ObjectRef, rows: seq<Row>): Database
    requires Target(k, ref) in db
  {
    db[Target(k, ref) := db[Target(k, ref)].(rows := rows)]
  }

  // ---------- bindings mean what the maps say ----------

  /** The arguments from number `first` on are the values of m in this order. */
  predicate ArgsFrom(order: seq<string>, m: map<string, string>, first: nat, args: seq<string>) {
    && 1 <= first && first - 1 + |order| <= |args|
    && (forall c :: c in order ==> c in m)
    && (forall i :: 0 <= i < |order| ==> args[first - 1 + i] == m[order[i]])
  }

  lemma BindingsBound(columns: set<string>, order: seq<string>, m: map<string, string>, first: nat, args: seq<string>)
    requires Enumerates(order, m) && ArgsFrom(order, m, first, args)
    ensures forall b :: b in Bindings(order, first) ==> 1 <= b.arg <= |args|
    ensures Bound(columns, Bindings(order, first), args) <==> m.Keys <= columns
  {
    var bs := Bindings(order, first);
    if Bound(columns, bs, args) {
      forall c | c in m
        ensures c in columns
      {
        var i :| 0 <= i < |order| && order[i] == c;
        assert bs[i] in bs;
      }
    }
  }

  lemma HoldsIsMatches(row: Row, order: seq<string>, m: map<string, string>, first: nat, args: seq<string>)
    requires Enumerates(order, m) && ArgsFrom(order, m, first, args)
    requires forall b :: b in Bindings(order, first) ==> 1 <= b.arg <= |args|
    ensures Holds(row, Bindings(order, first), args) <==> Matches(row, m)
  {
    var bs := Bindings(order, first);
    if Holds(row, bs, args) {
      forall c | c in m
        ensures c in row && row[c] == Some(m[c])
      {
        var i :| 0 <= i < |order| && order[i] == c;
        assert bs[i] in bs;
      }
    }
  }

  /** Assigning the bindings one after the other, each column once, sets each to its value. */
  lemma {:induction false} AssignedAt(row: Row, order: seq<string>, m: map<string, string>, first: nat,
                                      args: seq<string>, c: string)
    requires ArgsFrom(order, m, first, args)
    requires forall i, j :: 0 <= i < j < |order| ==> order[i] != order[j]
    requires forall b :: b in Bindings(order, first) ==> 1 <= b.arg <= |args|
    ensures var r := Assigned(row, Bindings(order, first), args);
            (c in r <==> c in order || c in row) &&
            (c in r ==> r[c] == if c in order then Some(m[c]) else row[c])
    decreases |order|
  {
    if order != [] {
      var rest := order[1..];
      assert Bindings(order, first)[1..] == Bindings(rest, first + 1);
      AssignedAt(row[order[0] := Some(args[first - 1])], rest, m, first + 1, args, c);
    }
  }

  lemma AssignedIsWith(row: Row, order: seq<string>, m: map<string, string>, first: nat, args: seq<string>)
    requires Enumerates(order, m) && ArgsFrom(order, m, first, args)
    requires forall b :: b in Bindings(order, first) ==> 1 <= b.arg <= |args|
    ensures Assigned(row, Bindings(order, first), args) == With(row, m)
  {
    var r := Assigned(row, Bindings(order, first), args);
    forall c
      ensures c in r <==> c in With(row, m)
      ensures c in r ==> r[c] == With(row, m)[c]
    {
      AssignedAt(row, order, m, first, args, c);
    }
  }

  lemma {:induction false} DeletesMatching(rows: seq<Row>, order: seq<string>, m: map<string, string>, first: nat,
                                           args: seq<string>)
    requires Enumerates(order, m) && ArgsFrom(order, m, first, args)
    requires forall b :: b in Bindings(order, first) ==> 1 <= b.arg <= |args|
    ensures DeleteRows(rows, Bindings(order, first), args) == Deleted(rows, m)
    decreases |rows|
  {
    if rows != [] {
      HoldsIsMatches(rows[0], order, m, first, args);
      DeletesMatching(rows[1..], order, m, first, args);
    }
  }

  lemma {:induction false} GivenAt(order: seq<string>, m: map<string, string>, first: nat, args: seq<string>, c: string)
    requires ArgsFrom(order, m, first, args)
    requires forall i, j :: 0 <= i < j < |order| ==> order[i] != order[j]
    ensures var g := Given(order, Numbers(first, |order|), args);
            (c in g <==> c in order) && (c in g ==> g[c] == m[c])
    decreases |order|
  {
    if order != [] {
      assert Numbers(first, |order|)[1..] == Numbers(first + 1, |order| - 1);
      GivenAt(order[1..], m, first + 1, args, c);
    }
  }

  // ---------- the edits ----------

  predicate NamesQuotable(k: Kind, m: map<string, string>) { forall c :: c in m ==> Quotable(k, c) }

  lemma EnumerationSize(order: seq<string>, m: map<string, string>)
    requires Enumerates(order, m)
    ensures order == [] <==> |m| == 0
  {
    if order != [] {
      assert order[0] in m.Keys;
    }
  }

  lemma CheckedOk(k: Kind, order: seq<string>, m: map<string, string>, ref: ObjectRef)
    requires Enumerates(order, m)
    ensures FirstError(k, order) == None <==> NamesQuotable(k, m)
    ensures NamesQuotable(k, m) ==> AllQuotable(k, order)
    ensures TableText(k, ref).Ok? <==> TableQuotable(k, ref)
  {
    ReadBackTable(k, "", ref, "");
  }

  /** UpdateRow: refused without a key or with a name that cannot be quoted; otherwise, with something
      to set, the statement sets the given columns of exactly the rows of the table of `ref` that match
      the key, and touches no other table. */
  lemma UpdateMeaning(k: Kind, ref: ObjectRef, pk: map<string, string>, values: map<string, string>,
                      pkOrder: seq<string>, valueOrder: seq<string>, db: Database)
    requires Enumerates(pkOrder, pk) && Enumerates(valueOrder, values)
    ensures var r := PreparedUpdate(k, ref, pk, values, pkOrder, valueOrder);
            && (r.Ok? <==> |pk| != 0 && NamesQuotable(k, pk) && NamesQuotable(k, values) && TableQuotable(k, ref))
            && (r.Ok? ==>
                  (ExecuteUpdate(k, db, r.value) ==
                   if |values| != 0 && HasColumns(k, db, ref, pk.Keys + values.Keys)
                   then Some(WithRows(k, db, ref, Updated(db[Target(k, ref)].rows, pk, values))) else None))
  {
    CheckedOk(k, pkOrder, pk, ref);
    CheckedOk(k, valueOrder, values, ref);
    FirstErrorSplit(k, valueOrder, pkOrder);
    EnumerationSize(pkOrder, pk);
    EnumerationSize(valueOrder, values);
    if PreparedUpdate(k, ref, pk, values, pkOrder, valueOrder).Ok? {
      ReadBackUpdate(k, ref, valueOrder, pkOrder);
      if |values| != 0 && Target(k, ref) in db {
        UpdateApplies(SchemaOf(k, ref), ref.name, pk, values, pkOrder, valueOrder,
                      db[Target(k, ref)].columns, db[Target(k, ref)].rows);
      }
    }
  }

  lemma UpdatesMatching(pk: map<string, string>, values: map<string, string>, pkOrder: seq<string>,
                        valueOrder: seq<string>, args: seq<string>, rows: seq<Row>)
    requires Enumerates(pkOrder, pk) && Enumerates(valueOrder, values)
    requires ArgsFrom(valueOrder, values, 1, args) && ArgsFrom(pkOrder, pk, 1 + |valueOrder|, args)
    requires forall b :: b in Bindings(valueOrder, 1) ==> 1 <= b.arg <= |args|
    requires forall b :: b in Bindings(pkOrder, 1 + |valueOrder|) ==> 1 <= b.arg <= |args|
    ensures UpdateRows(rows, Bindings(valueOrder, 1), Bindings(pkOrder, 1 + |valueOrder|), args) ==
            Updated(rows, pk, values)
  {
    forall i | 0 <= i < |rows|
      ensures Holds(rows[i], Bindings(pkOrder, 1 + |valueOrder|), args) <==> Matches(rows[i], pk)
      ensures Assigned(rows[i], Bindings(valueOrder, 1), args) == With(rows[i], values)
    {
      HoldsIsMatches(rows[i], pkOrder, pk, 1 + |valueOrder|, args);
      AssignedIsWith(rows[i], valueOrder, values, 1, args);
    }
  }

  lemma UpdateApplies(schema: string, table: string, pk: map<string, string>, values: map<string, string>,
                      pkOrder: seq<string>, valueOrder: seq<string>, columns: set<string>, rows: seq<Row>)
    requires Enumerates(pkOrder, pk) && Enumerates(valueOrder, values)
    ensures Apply(columns, rows, Update(schema, table, Bindings(valueOrder, 1), Bindings(pkOrder, 1 + |valueOrder|)),
                  ValuesIn(valueOrder, values) + ValuesIn(pkOrder, pk)) ==
            if pk.Keys <= columns && values.Keys <= columns then Some(Updated(rows, pk, values)) else None
  {
    var args := ValuesIn(valueOrder, values) + ValuesIn(pkOrder, pk);
    BindingsBound(columns, valueOrder, values, 1, args);
    BindingsBound(columns, pkOrder, pk, 1 + |valueOrder|, args);
    UpdatesMatching(pk, values, pkOrder, valueOrder, args, rows);
  }

  lemma DeleteApplies(schema: string, table: string, pk: map<string, string>, pkOrder: seq<string>,
                      columns: set<string>, rows: seq<Row>)
    requires Enumerates(pkOrder, pk)
    ensures Apply(columns, rows, Delete(schema, table, Bindings(pkOrder, 1)), ValuesIn(pkOrder, pk)) ==
            if pk.Keys <= columns then Some(Deleted(rows, pk)) else None
  {
    var args := ValuesIn(pkOrder, pk);
    BindingsBound(columns, pkOrder, pk, 1, args);
    DeletesMatching(rows, pkOrder, pk, 1, args);
  }

  lemma GivenIsValues(values: map<string, string>, order: seq<string>, args: seq<string>)
    requires Enumerates(order, values) && args == ValuesIn(order, values)
    ensures Given(order, Numbers(1, |order|), args) == values
  {
    var given := Given(order, Numbers(1, |order|), args);
    forall c
      ensures c in given <==> c in values
      ensures c in given ==> given[c] == values[c]
    {
      GivenAt(order, values, 1, args, c);
    }
  }

  lemma InsertApplies(schema: string, table: string, values: map<string, string>, valueOrder: seq<string>,
                      columns: set<string>)
    requires Enumerates(valueOrder, values)
    ensures NewRow(columns, Insert(schema, table, valueOrder, Numbers(1, |valueOrder|)),
                   ValuesIn(valueOrder, values)) ==
            if values.Keys <= columns then Some(values) else None
  {
    GivenIsValues(values, valueOrder, ValuesIn(valueOrder, values));
  }

  /** DeleteRow removes exactly the rows of the table of `ref` that match the key. */
  lemma DeleteMeaning(k: Kind, ref: ObjectRef, pk: map<string, string>, pkOrder: seq<string>, db: Database)
    requires Enumerates(pkOrder, pk)
    ensures var r := PreparedDelete(k, ref, pk, pkOrder);
            && (r.Ok? <==> |pk| != 0 && NamesQuotable(k, pk) && TableQuotable(k, ref))
            && (r.Ok? ==>
                  (ExecuteDelete(k, db, r.value) ==
                   if HasColumns(k, db, ref, pk.Keys)
                   then Some(WithRows(k, db, ref, Deleted(db[Target(k, ref)].rows, pk))) else None))
  {
    CheckedOk(k, pkOrder, pk, ref);
    EnumerationSize(pkOrder, pk);
    if PreparedDelete(k, ref, pk, pkOrder).Ok? {
      ReadBackDelete(k, ref, pkOrder);
      if Target(k, ref) in db {
        DeleteApplies(SchemaOf(k, ref), ref.name, pk, pkOrder, db[Target(k, ref)].columns, db[Target(k, ref)].rows);
      }
    }
  }

  /** InsertRow gives the new row of the table of `ref` exactly the given values. */
  lemma InsertMeaning(k: Kind, ref: ObjectRef, values: map<string, string>, valueOrder: seq<string>, db: Database)
    requires Enumerates(valueOrder, values)
    ensures var r := PreparedInsert(k, ref, values, valueOrder);
            && (r.Ok? <==> NamesQuotable(k, values) && TableQuotable(k, ref))
            && (r.Ok? ==>
                  (ExecuteInsert(k, db, r.value) ==
                   if |values| != 0 && HasColumns(k, db, ref, values.Keys)
                   then Some((Target(k, ref), values)) else None))
  {
    CheckedOk(k, valueOrder, values, ref);
    EnumerationSize(valueOrder, values);
    if PreparedInsert(k, ref, values, valueOrder).Ok? {
      ReadBackInsert(k, ref, valueOrder);
      if |values| != 0 && Target(k, ref) in db {
        InsertApplies(SchemaOf(k, ref), ref.name, values, valueOrder, db[Target(k, ref)].columns);
      }
    }
  }

  // ---------- conservation ----------

  function MatchCount(rows: seq<Row>, pk: map<string, string>): nat {
    if rows == [] then 0 else (if Matches(rows[0], pk) then 1 else 0) + MatchCount(rows[1..], pk)
  }

  /** A delete loses as many rows as match, and no row that is left matches. */
  lemma {:induction false} DeleteConserves(rows: seq<Row>, pk: map<string, string>)
    ensures |Deleted(rows, pk)| + MatchCount(rows, pk) == |rows|
    ensures forall row :: row in Deleted(rows, pk) ==> !Matches(row, pk) && row in rows
  {
    if rows != [] {
      DeleteConserves(rows[1..], pk);
    }
  }

  /** Rows that do not match stay, each as often as before. */
  lemma {:induction false} DeleteKeepsOthers(rows: seq<Row>, pk: map<string, string>, row: Row)
    ensures multiset(Deleted(rows, pk))[row] == if Matches(row, pk) then 0 else multiset(rows)[row]
  {
    if rows != [] {
      DeleteKeepsOthers(rows[1..], pk, row);
      assert rows == [rows[0]] + rows[1..];
    }
  }
}
