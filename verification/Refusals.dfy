/** Which definitions and row edits are refused, and with which error (internal/dbx/ddl.go, pg.go, mysql.go,
    sqlite.go, identifier.go): of several faults the one that the code meets first. */
module Refusals {
  import opened Text
  import opened Identifiers
  import opened DdlPrinter
  import RowStatements
  import RowReader

  /** The error for a name that cannot be quoted. */
  function NameError(name: string): IdentError { if name == "" then EmptyIdentifier else ContainsQuote(name) }

  /** Names are put in backticks for MySQL and in double quotes otherwise, and are refused if empty or with
      that character in them. */
  lemma QuotedName(k: Kind, name: string)
    ensures Quotable(k, name) <==> name != "" && (if k == MySQL then '`' else '"') !in name
    ensures QuoteIdent(k, name) ==
            if !Quotable(k, name) then Err(NameError(name))
            else if k == MySQL then Ok("`" + name + "`") else Ok("\"" + name + "\"")
  {
  }

  /** The name that a table is refused for: the schema if it is at fault, else the name itself. */
  function BadTableName(k: Kind, schema: string, name: string): string {
    if schema != "" && !Quotable(k, schema) then schema else name
  }

  lemma TableName(k: Kind, schema: string, name: string)
    ensures Qualified(k, schema, name).Ok? <==> QualifiedQuotable(k, schema, name)
    ensures !QualifiedQuotable(k, schema, name) ==>
              Qualified(k, schema, name) == Err(NameError(BadTableName(k, schema, name)))
  {
  }

  // ---------- CREATE TABLE ----------

  predicate GoodColumn(k: Kind, c: ColumnDef) { Quotable(k, c.name) && !AllSpace(c.dataType) }

  lemma GoodColumns(k: Kind, c: ColumnDef)
    ensures ColumnError(k, c) ==
            if GoodColumn(k, c) then None
            else if !Quotable(k, c.name) then Some(BadIdentifier(NameError(c.name)))
            else Some(MissingDataType(c.name))
  {
    var _, _ := TrimDecomposes(c.dataType);
  }

  /** Exactly the definitions with a column, a quotable table name, quotable column names and types that are
      not blank are printed. */
  lemma TableAccepted(k: Kind, def: CreateTableDef)
    ensures CreateTableText(k, def).Ok? <==>
            && def.columns != [] && QualifiedQuotable(k, def.schema, def.name)
            && forall i :: 0 <= i < |def.columns| ==> GoodColumn(k, def.columns[i])
  {
    TableName(k, def.schema, def.name);
    forall i | 0 <= i < |def.columns|
      ensures ColumnError(k, def.columns[i]) == None <==> GoodColumn(k, def.columns[i])
    {
      GoodColumns(k, def.columns[i]);
    }
    var _ := FirstError(k, def.columns);
  }

  /** A definition without columns is refused for that, before anything else; then comes the table name. */
  lemma TableRefused(k: Kind, def: CreateTableDef)
    ensures def.columns == [] ==> CreateTableText(k, def) == Err(NoColumns)
    ensures def.columns != [] && !QualifiedQuotable(k, def.schema, def.name) ==>
              CreateTableText(k, def) == Err(BadIdentifier(NameError(BadTableName(k, def.schema, def.name))))
  {
    TableName(k, def.schema, def.name);
  }

  /** Then the first column at fault, for its name before its type. */
  lemma ColumnRefused(k: Kind, def: CreateTableDef, i: nat)
    requires QualifiedQuotable(k, def.schema, def.name) && i < |def.columns|
    requires !GoodColumn(k, def.columns[i]) && forall j :: 0 <= j < i ==> GoodColumn(k, def.columns[j])
    ensures var c := def.columns[i];
            CreateTableText(k, def) ==
            Err(if !Quotable(k, c.name) then BadIdentifier(NameError(c.name)) else MissingDataType(c.name))
  {
    TableName(k, def.schema, def.name);
    GoodColumns(k, def.columns[i]);
    forall j | 0 <= j < i ensures ColumnError(k, def.columns[..i][j]) == None {
      GoodColumns(k, def.columns[j]);
    }
    FirstErrorAt(k, def.columns, i);
  }

  // ---------- CREATE INDEX ----------

  /** No columns, the index name, the table name, the first bad column, in this order. */
  lemma IndexRefused(k: Kind, def: IndexDef)
    ensures def.columns == [] ==> CreateIndexText(k, def) == Err(NoColumns)
    ensures def.columns != [] && !Quotable(k, def.name) ==>
              CreateIndexText(k, def) == Err(BadIdentifier(NameError(def.name)))
    ensures def.columns != [] && Quotable(k, def.name) && !QualifiedQuotable(k, def.schema, def.table) ==>
              CreateIndexText(k, def) == Err(BadIdentifier(NameError(BadTableName(k, def.schema, def.table))))
  {
    TableName(k, def.schema, def.table);
  }

  lemma IndexColumnRefused(k: Kind, def: IndexDef, i: nat)
    requires Quotable(k, def.name) && QualifiedQuotable(k, def.schema, def.table) && i < |def.columns|
    requires !Quotable(k, def.columns[i]) && forall j :: 0 <= j < i ==> Quotable(k, def.columns[j])
    ensures CreateIndexText(k, def) == Err(BadIdentifier(NameError(def.columns[i])))
  {
    TableName(k, def.schema, def.table);
    QuoteAllFails(k, def.columns, i);
  }

  // ---------- row edits ----------

  lemma {:induction false} FirstBadName(k: Kind, names: seq<string>, i: nat)
    requires i < |names| && !Quotable(k, names[i]) && forall j :: 0 <= j < i ==> Quotable(k, names[j])
    ensures RowStatements.FirstError(k, names) == Some(NameError(names[i]))
  {
    if i > 0 { FirstBadName(k, names[1..], i - 1); }
  }

  /** The table text: SQLite leaves the schema out, the others do not. Texts are equal for equal tables only. */
  lemma TableTexts(k: Kind, r1: RowStatements.ObjectRef, r2: RowStatements.ObjectRef)
    requires RowStatements.TableText(k, r1).Ok? && RowStatements.TableText(k, r2).Ok?
    ensures RowStatements.TableText(k, r1) == RowStatements.TableText(k, r2) <==>
            r1.name == r2.name && (k == SQLite || r1.schema == r2.schema)
  {
    var s1, s2 := RowStatements.SchemaOf(k, r1), RowStatements.SchemaOf(k, r2);
    RowReader.ReadBackTable(k, "", r1, "");
    RowReader.ReadBackTable(k, "", r2, "");
    if RowStatements.TableText(k, r1) == RowStatements.TableText(k, r2) {
      QualifiedInjective(k, s1, r1.name, s2, r2.name);
    }
  }

  /** The error for a table that cannot be named. */
  lemma TableTextRefused(k: Kind, ref: RowStatements.ObjectRef)
    ensures RowStatements.TableText(k, ref).Ok? <==>
            Quotable(k, ref.name) && (k == SQLite || ref.schema == "" || Quotable(k, ref.schema))
    ensures RowStatements.TableText(k, ref).Err? ==>
              RowStatements.TableText(k, ref).error ==
              NameError(if k == SQLite then ref.name else BadTableName(k, ref.schema, ref.name))
  {
    TableName(k, ref.schema, ref.name);
  }

  /** UpdateRow is refused without a key before anything else, then for the first bad name among the columns
      to set and the key columns in the order of iteration, then for the table. */
  lemma UpdateRefused(k: Kind, ref: RowStatements.ObjectRef, pk: map<string, string>, values: map<string, string>,
                      pkOrder: seq<string>, valueOrder: seq<string>, i: nat)
    requires RowStatements.Enumerates(pkOrder, pk) && RowStatements.Enumerates(valueOrder, values)
    ensures var r, names := RowStatements.PreparedUpdate(k, ref, pk, values, pkOrder, valueOrder), valueOrder + pkOrder;
            && (|pk| == 0 ==> r == Err(RowStatements.NoPrimaryKey))
            && (|pk| != 0 && i < |names| && !Quotable(k, names[i])
                && (forall j :: 0 <= j < i ==> Quotable(k, names[j])) ==>
                  r == Err(RowStatements.Ident(NameError(names[i]))))
            && (|pk| != 0 && (forall name :: name in names ==> Quotable(k, name))
                && RowStatements.TableText(k, ref).Err? ==>
                  r == Err(RowStatements.Ident(RowStatements.TableText(k, ref).error)))
  {
    var names := valueOrder + pkOrder;
    if i < |names| && !Quotable(k, names[i]) && forall j :: 0 <= j < i ==> Quotable(k, names[j]) {
      FirstBadName(k, names, i);
    }
  }

  /** The same for DeleteRow. */
  lemma DeleteRefused(k: Kind, ref: RowStatements.ObjectRef, pk: map<string, string>, pkOrder: seq<string>, i: nat)
    requires RowStatements.Enumerates(pkOrder, pk)
    ensures var r := RowStatements.PreparedDelete(k, ref, pk, pkOrder);
            && (|pk| == 0 ==> r == Err(RowStatements.NoPrimaryKey))
            && (|pk| != 0 && i < |pkOrder| && !Quotable(k, pkOrder[i])
                && (forall j :: 0 <= j < i ==> Quotable(k, pkOrder[j])) ==>
                  r == Err(RowStatements.Ident(NameError(pkOrder[i]))))
            && (|pk| != 0 && (forall name :: name in pkOrder ==> Quotable(k, name))
                && RowStatements.TableText(k, ref).Err? ==>
                  r == Err(RowStatements.Ident(RowStatements.TableText(k, ref).error)))
  {
    if i < |pkOrder| && !Quotable(k, pkOrder[i]) && forall j :: 0 <= j < i ==> Quotable(k, pkOrder[j]) {
      FirstBadName(k, pkOrder, i);
    }
  }

  /** The same for InsertRow, which needs no key. */
  lemma InsertRefused(k: Kind, ref: RowStatements.ObjectRef, values: map<string, string>, order: seq<string>, i: nat)
    requires RowStatements.Enumerates(order, values)
    ensures var r := RowStatements.PreparedInsert(k, ref, values, order);
            && (i < |order| && !Quotable(k, order[i]) && (forall j :: 0 <= j < i ==> Quotable(k, order[j])) ==>
                  r == Err(RowStatements.Ident(NameError(order[i]))))
            && ((forall name :: name in order ==> Quotable(k, name)) && RowStatements.TableText(k, ref).Err? ==>
                  r == Err(RowStatements.Ident(RowStatements.TableText(k, ref).error)))
  {
    if i < |order| && !Quotable(k, order[i]) && forall j :: 0 <= j < i ==> Quotable(k, order[j]) {
      FirstBadName(k, order, i);
    }
  }
}
