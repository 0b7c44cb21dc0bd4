/** The statements of row edits (internal/dbx/pg.go, mysql.go, sqlite.go) as text with an argument
    list. Go ranges over a map in any order: the order is a parameter, and everything holds for all of
    them. */
module RowStatements {
  import opened Text
  import opened Decimals
  import opened Identifiers

  datatype ObjectRef = ObjectRef(schema: string, name: string)

  datatype EditError = NoPrimaryKey | Ident(error: IdentError)

  datatype Prepared = Prepared(text: string, args: seq<string>)

  predicate Enumerates(order: seq<string>, m: map<string, string>) {
    && (forall c :: c in order ==> c in m)
    && (forall c :: c in m ==> c in order)
    && (forall i, j :: 0 <= i < j < |order| ==> order[i] != order[j])
  }

  // ---------- the pieces ----------

  /** Postgres numbers its placeholders, MySQL and SQLite take the arguments in turn. */
  function Placeholder(k: Kind, i: nat): string { if k == Postgres then "$" + Decimal(i) else "?" }

  function Quoted(k: Kind, name: string): string { [QuoteChar(k)] + name + [QuoteChar(k)] }

  function Assign(k: Kind, name: string, i: nat): string { Quoted(k, name) + ("=" + Placeholder(k, i)) }

  /** The i-th assignment or condition takes argument first + i. */
  function Assigns(k: Kind, order: seq<string>, first: nat): seq<string> {
    seq(|order|, i requires 0 <= i < |order| => Assign(k, order[i], first + i))
  }

  function QuotedAll(k: Kind, order: seq<string>): seq<string> {
    seq(|order|, i requires 0 <= i < |order| => Quoted(k, order[i]))
  }

  function Placeholders(k: Kind, n: nat): seq<string> { seq(n, i requires 0 <= i < n => Placeholder(k, i + 1)) }

  function ValuesIn(order: seq<string>, m: map<string, string>): seq<string>
    requires forall c :: c in order ==> c in m
  {
    seq(|order|, i requires 0 <= i < |order| => m[order[i]])
  }

  /** The error of the first name that cannot be quoted. */
  function FirstError(k: Kind, names: seq<string>): (e: Option<IdentError>)
    ensures e == None <==> forall c :: c in names ==> Quotable(k, c)
  {
    if names == [] then None
    else if Quotable(k, names[0]) then FirstError(k, names[1..])
    else Some(QuoteIdent(k, names[0]).error)
  }

  /** SQLite has no schemas here and prints the bare name. */
  function TableText(k: Kind, ref: ObjectRef): Result<string, IdentError> {
    if k == SQLite then QuoteIdent(k, ref.name) else Qualified(k, ref.schema, ref.name)
  }

  function SchemaOf(k: Kind, ref: ObjectRef): string { if k == SQLite then "" else ref.schema }

  // ---------- the statements ----------

  function ChangeText(k: Kind, values: seq<string>, pk: seq<string>): string {
    " SET " + (Join(Assigns(k, values, 1), ", ") + (" WHERE " + Join(Assigns(k, pk, 1 + |values|), " AND ")))
  }

  function UpdateText(k: Kind, table: string, values: seq<string>, pk: seq<string>): string {
    "UPDATE " + (table + ChangeText(k, values, pk))
  }

  function DeleteText(k: Kind, table: string, pk: seq<string>): string {
    "DELETE FROM " + (table + (" WHERE " + Join(Assigns(k, pk, 1), " AND ")))
  }

  function InsertText(k: Kind, table: string, values: seq<string>): string {
    "INSERT INTO " + (table + (" (" + (Join(QuotedAll(k, values), ", ") +
      (") VALUES (" + (Join(Placeholders(k, |values|), ", ") + ")")))))
  }

  /** The statement, or the error of the first name that cannot be quoted: columns in the order of
      iteration, the table last. */
  function Checked(k: Kind, columns: seq<string>, ref: ObjectRef, text: string, args: seq<string>)
    : Result<Prepared, EditError>
  {
    if FirstError(k, columns).Some? then Err(Ident(FirstError(k, columns).value))
    else if TableText(k, ref).Err? then Err(Ident(TableText(k, ref).error))
    else Ok(Prepared(text, args))
  }

  function Table(k: Kind, ref: ObjectRef): string { if TableText(k, ref).Ok? then TableText(k, ref).value else "" }

  function PreparedUpdate(k: Kind, ref: ObjectRef, pk: map<string, string>, values: map<string, string>,
                          pkOrder: seq<string>, valueOrder: seq<string>): Result<Prepared, EditError>
    requires Enumerates(pkOrder, pk) && Enumerates(valueOrder, values)
  {
    if |pk| == 0 then Err(NoPrimaryKey)
    else Checked(k, valueOrder + pkOrder, ref, UpdateText(k, Table(k, ref), valueOrder, pkOrder),
                 ValuesIn(valueOrder, values) + ValuesIn(pkOrder, pk))
  }

  function PreparedDelete(k: Kind, ref: ObjectRef, pk: map<string, string>, pkOrder: seq<string>)
    : Result<Prepared, EditError>
    requires Enumerates(pkOrder, pk)
  {
    if |pk| == 0 then Err(NoPrimaryKey)
    else Checked(k, pkOrder, ref, DeleteText(k, Table(k, ref), pkOrder), ValuesIn(pkOrder, pk))
  }

  function PreparedInsert(k: Kind, ref: ObjectRef, values: map<string, string>, valueOrder: seq<string>)
    : Result<Prepared, EditError>
    requires Enumerates(valueOrder, values)
  {
    Checked(k, valueOrder, ref, InsertText(k, Table(k, ref), valueOrder), ValuesIn(valueOrder, values))
  }

  // ---------- the drivers' loops ----------

  lemma FirstErrorSplit(k: Kind, a: seq<string>, b: seq<string>)
    ensures FirstError(k, a + b) == if FirstError(k, a).Some? then FirstError(k, a) else FirstError(k, b)
  {
    if a == [] {
      assert a + b == b;
    } else {
      assert (a + b)[1..] == a[1..] + b;
      FirstErrorSplit(k, a[1..], b);
    }
  }

  lemma FirstErrorAt(k: Kind, names: seq<string>, n: nat)
    requires n < |names| && FirstError(k, names[..n]) == None && !Quotable(k, names[n])
    ensures FirstError(k, names) == Some(QuoteIdent(k, names[n]).error)
  {
    assert names == names[..n] + names[n..];
    FirstErrorSplit(k, names[..n], names[n..]);
  }

  /** One of the loops over a map: the assignments or conditions, and the arguments. */
  method WriteAssigns(k: Kind, m: map<string, string>, order: seq<string>, args0: seq<string>)
    returns (cols: seq<string>, args: seq<string>, err: Option<IdentError>)
    requires Enumerates(order, m)
    ensures err == FirstError(k, order)
    ensures err == None ==> cols == Assigns(k, order, 1 + |args0|) && args == args0 + ValuesIn(order, m)
  {
    cols, args, err := [], args0, None;
    var i := 1 + |args0|;
    for n := 0 to |order|
      invariant FirstError(k, order[..n]) == None
      invariant i == 1 + |args0| + n
      invariant cols == Assigns(k, order[..n], 1 + |args0|)
      invariant args == args0 + ValuesIn(order[..n], m)
    {
      var col := QuoteIdent(k, order[n]);
      if col.Err? {
        FirstErrorAt(k, order, n);
        return [], [], Some(col.error);
      }
      assert order[..n + 1] == order[..n] + [order[n]];
      FirstErrorSplit(k, order[..n], [order[n]]);
      cols := cols + [col.value + ("=" + Placeholder(k, i))];
      args := args + [m[order[n]]];
      i := i + 1;
    }
    assert order[..|order|] == order;
  }

  /** The two loops of UpdateRow; the conditions go on with the numbers after the values. */
  method WriteChange(k: Kind, pk: map<string, string>, values: map<string, string>,
                     pkOrder: seq<string>, valueOrder: seq<string>)
    returns (change: string, args: seq<string>, err: Option<IdentError>)
    requires Enumerates(pkOrder, pk) && Enumerates(valueOrder, values)
    ensures err == FirstError(k, valueOrder + pkOrder)
    ensures err == None ==> change == ChangeText(k, valueOrder, pkOrder)
                            && args == ValuesIn(valueOrder, values) + ValuesIn(pkOrder, pk)
  {
    FirstErrorSplit(k, valueOrder, pkOrder);
    assert [] + ValuesIn(valueOrder, values) == ValuesIn(valueOrder, values);
    change := "";
    var setCols;
    setCols, args, err := WriteAssigns(k, values, valueOrder, []);
    if err.Some? {
      return;
    }
    assert |args| == |valueOrder|;
    var whereCols;
    whereCols, args, err := WriteAssigns(k, pk, pkOrder, args);
    change := " SET " + (Join(setCols, ", ") + (" WHERE " + Join(whereCols, " AND ")));
  }

  method UpdateRow(k: Kind, ref: ObjectRef, pk: map<string, string>, values: map<string, string>,
                   pkOrder: seq<string>, valueOrder: seq<string>) returns (r: Result<Prepared, EditError>)
    requires Enumerates(pkOrder, pk) && Enumerates(valueOrder, values)
    ensures r == PreparedUpdate(k, ref, pk, values, pkOrder, valueOrder)
  {
    if |pk| == 0 {
      return Err(NoPrimaryKey);
    }
    var change, args, err := WriteChange(k, pk, values, pkOrder, valueOrder);
    if err.Some? {
      return Err(Ident(err.value));
    }
    var tbl := TableText(k, ref);
    if tbl.Err? {
      return Err(Ident(tbl.error));
    }
    r := Ok(Prepared("UPDATE " + (tbl.value + change), args));
  }

  method DeleteRow(k: Kind, ref: ObjectRef, pk: map<string, string>, pkOrder: seq<string>)
    returns (r: Result<Prepared, EditError>)
    requires Enumerates(pkOrder, pk)
    ensures r == PreparedDelete(k, ref, pk, pkOrder)
  {
    if |pk| == 0 {
      return Err(NoPrimaryKey);
    }
    assert [] + ValuesIn(pkOrder, pk) == ValuesIn(pkOrder, pk);
    var whereCols, args, err := WriteAssigns(k, pk, pkOrder, []);
    if err.Some? {
      return Err(Ident(err.value));
    }
    var tbl := TableText(k, ref);
    if tbl.Err? {
      return Err(Ident(tbl.error));
    }
    r := Ok(Prepared("DELETE FROM " + (tbl.value + (" WHERE " + Join(whereCols, " AND "))), args));
  }

  method InsertRow(k: Kind, ref: ObjectRef, values: map<string, string>, valueOrder: seq<string>)
    returns (r: Result<Prepared, EditError>)
    requires Enumerates(valueOrder, values)
    ensures r == PreparedInsert(k, ref, values, valueOrder)
  {
    var cols, args, placeholders := [], [], [];
    var i := 1;
    for n := 0 to |valueOrder|
      invariant FirstError(k, valueOrder[..n]) == None
      invariant i == 1 + n
      invariant cols == QuotedAll(k, valueOrder[..n])
      invariant args == ValuesIn(valueOrder[..n], values)
      invariant placeholders == Placeholders(k, n)
    {
      var col := QuoteIdent(k, valueOrder[n]);
      if col.Err? {
        FirstErrorAt(k, valueOrder, n);
        return Err(Ident(col.error));
      }
      assert valueOrder[..n + 1] == valueOrder[..n] + [valueOrder[n]];
      FirstErrorSplit(k, valueOrder[..n], [valueOrder[n]]);
      cols := cols + [col.value];
      args := args + [values[valueOrder[n]]];
      placeholders := placeholders + [Placeholder(k, i)];
      i := i + 1;
    }
    assert valueOrder[..|valueOrder|] == valueOrder;
    var tbl := TableText(k, ref);
    if tbl.Err? {
      return Err(Ident(tbl.error));
    }
    r := Ok(Prepared("INSERT INTO " + (tbl.value + (" (" + (Join(cols, ", ") +
      (") VALUES (" + (Join(placeholders, ", ") + ")"))))), args));
  }
}
