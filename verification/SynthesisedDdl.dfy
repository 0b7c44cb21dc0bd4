/** The DDL shown for a table whose own DDL the database does not keep (internal/dbx/ddl.go),
    and what the statement splitter makes of it. */
module SynthesisedDdl {
  import opened Text
  import opened SqlScanner
  import opened Identifiers
  import opened Catalog
  import DdlPrinter

  // ---------- what is printed ----------

  /** quoteIdent with its error dropped. */
  function Quoted(k: Kind, name: string): string {
    match QuoteIdent(k, name)
    case Ok(q) => q
    case Err(_) => ""
  }

  function QuotedQualified(k: Kind, schema: string, name: string): string {
    match Qualified(k, schema, name)
    case Ok(q) => q
    case Err(_) => ""
  }

  function QuotedAll(k: Kind, names: seq<string>): (r: seq<string>)
    ensures |r| == |names|
  {
    if names == [] then [] else [Quoted(k, names[0])] + QuotedAll(k, names[1..])
  }

  function ColumnLine(k: Kind, c: Column): string {
    "  " + Quoted(k, c.name) + " " + c.dataType
    + (if c.nullable then "" else " NOT NULL") + (if c.default == "" then "" else " DEFAULT " + c.default)
  }

  function ColumnLines(k: Kind, cols: seq<Column>): seq<string> {
    if cols == [] then [] else [ColumnLine(k, cols[0])] + ColumnLines(k, cols[1..])
  }

  function KeyNames(k: Kind, cols: seq<Column>): seq<string> {
    if cols == [] then []
    else (if cols[0].isPK then [Quoted(k, cols[0].name)] else []) + KeyNames(k, cols[1..])
  }

  function ForeignKeyLine(k: Kind, fk: ForeignKey): string {
    "  FOREIGN KEY (" + Join(QuotedAll(k, fk.columns), ", ") + ") REFERENCES "
    + QuotedQualified(k, fk.refSchema, fk.refTable) + " (" + Join(QuotedAll(k, fk.refColumns), ", ") + ")"
  }

  function ForeignKeyLines(k: Kind, fks: seq<ForeignKey>): seq<string> {
    if fks == [] then [] else [ForeignKeyLine(k, fks[0])] + ForeignKeyLines(k, fks[1..])
  }

  /** Columns, key and foreign keys, in that order. */
  function TableItems(k: Kind, cols: seq<Column>, fks: seq<ForeignKey>): seq<string> {
    ColumnLines(k, cols) + DdlPrinter.KeyLines(KeyNames(k, cols)) + ForeignKeyLines(k, fks)
  }

  function TableStatement(k: Kind, table: string, cols: seq<Column>, fks: seq<ForeignKey>): string {
    var items := TableItems(k, cols, fks);
    "CREATE TABLE " + table + " (\n" + (if items == [] then "" else Join(items, ",\n") + "\n") + ")"
  }

  function IndexStatement(k: Kind, table: string, ix: IndexInfo): string {
    CreateIndex(ix.unique) + Quoted(k, ix.name) + " ON " + table
    + " (" + Join(QuotedAll(k, ix.columns), ", ") + ")"
  }

  function CreateIndex(unique: bool): string {
    "CREATE " + (if unique then "UNIQUE " else "") + "INDEX "
  }

  /** The statements of the indexes other than the primary key's, in order. */
  function IndexStatements(k: Kind, table: string, idx: seq<IndexInfo>): seq<string> {
    if idx == [] then []
    else (if idx[0].primary then [] else [IndexStatement(k, table, idx[0])]) + IndexStatements(k, table, idx[1..])
  }

  /** Every statement followed by a semicolon and a newline. */
  function Script(stmts: seq<string>): string {
    if stmts == [] then "" else stmts[0] + ";\n" + Script(stmts[1..])
  }

  function ScriptText(k: Kind, schema: string, name: string, cols: seq<Column>, idx: seq<IndexInfo>,
                      fks: seq<ForeignKey>): Result<string, IdentError>
  {
    match Qualified(k, schema, name)
    case Err(e) => Err(e)
    case Ok(table) => Ok(Script([TableStatement(k, table, cols, fks)] + IndexStatements(k, table, idx)))
  }

  // ---------- the streaming printer ----------

  lemma {:induction false} ColumnLinesSnoc(k: Kind, cols: seq<Column>, c: Column)
    ensures ColumnLines(k, cols + [c]) == ColumnLines(k, cols) + [ColumnLine(k, c)]
    ensures KeyNames(k, cols + [c]) == KeyNames(k, cols) + if c.isPK then [Quoted(k, c.name)] else []
  {
    if cols == [] {
      assert cols + [c] == [c] && [c][1..] == [];
    } else {
      assert (cols + [c])[1..] == cols[1..] + [c];
      ColumnLinesSnoc(k, cols[1..], c);
    }
  }

  lemma {:induction false} ForeignKeyLinesSnoc(k: Kind, fks: seq<ForeignKey>, fk: ForeignKey)
    ensures ForeignKeyLines(k, fks + [fk]) == ForeignKeyLines(k, fks) + [ForeignKeyLine(k, fk)]
  {
    if fks == [] {
      assert fks + [fk] == [fk] && [fk][1..] == [];
    } else {
      assert (fks + [fk])[1..] == fks[1..] + [fk];
      ForeignKeyLinesSnoc(k, fks[1..], fk);
    }
  }

  lemma {:induction false} IndexStatementsSnoc(k: Kind, table: string, idx: seq<IndexInfo>, ix: IndexInfo)
    ensures IndexStatements(k, table, idx + [ix]) ==
            IndexStatements(k, table, idx) + if ix.primary then [] else [IndexStatement(k, table, ix)]
  {
    if idx == [] {
      assert idx + [ix] == [ix] && [ix][1..] == [];
    } else {
      assert (idx + [ix])[1..] == idx[1..] + [ix];
      IndexStatementsSnoc(k, table, idx[1..], ix);
    }
  }

  lemma {:induction false} ScriptSnoc(stmts: seq<string>, stmt: string)
    ensures Script(stmts + [stmt]) == Script(stmts) + (stmt + ";\n")
  {
    if stmts == [] {
      assert stmts + [stmt] == [stmt];
      assert stmt + ";\n" + "" == stmt + ";\n" && "" + (stmt + ";\n") == stmt + ";\n";
      assert Script([stmt][1..]) == "";
    } else {
      assert (stmts + [stmt])[1..] == stmts[1..] + [stmt];
      ScriptSnoc(stmts[1..], stmt);
      assert stmts[0] + ";\n" + (Script(stmts[1..]) + (stmt + ";\n")) == Script(stmts) + (stmt + ";\n");
    }
  }

  lemma {:induction false} QuotedAllSnoc(k: Kind, names: seq<string>, name: string)
    ensures QuotedAll(k, names + [name]) == QuotedAll(k, names) + [Quoted(k, name)]
  {
    if names == [] {
      assert names + [name] == [name] && [name][1..] == [];
    } else {
      assert (names + [name])[1..] == names[1..] + [name];
      QuotedAllSnoc(k, names[1..], name);
    }
  }

  method QuoteColumns(k: Kind, names: seq<string>) returns (quoted: seq<string>)
    ensures quoted == QuotedAll(k, names)
  {
    quoted := [];
    for j := 0 to |names|
      invariant quoted == QuotedAll(k, names[..j])
    {
      assert names[..j + 1] == names[..j] + [names[j]];
      QuotedAllSnoc(k, names[..j], names[j]);
      quoted := quoted + [Quoted(k, names[j])];
    }
    assert names[..|names|] == names;
  }

  /** Where the printer stands: some items are out, and `more` says whether others follow. */
  ghost predicate Written(b: string, table: string, items: seq<string>, more: bool) {
    DdlPrinter.Streamed(b, "CREATE TABLE " + table + " (\n", items, more)
  }

  lemma WriteColumn(k: Kind, table: string, b: string, cols: seq<Column>, i: nat, pks: seq<string>, moreAfter: bool)
    requires i < |cols| && pks == KeyNames(k, cols[..i])
    requires Written(b, table, ColumnLines(k, cols[..i]), true)
    ensures var pks' := pks + if cols[i].isPK then [Quoted(k, cols[i].name)] else [];
            var comma := if i < |cols| - 1 || |pks'| > 0 || moreAfter then "," else "";
            && pks' == KeyNames(k, cols[..i + 1])
            && Written(b + (ColumnLine(k, cols[i]) + comma + "\n"), table, ColumnLines(k, cols[..i + 1]), comma == ",")
  {
    assert cols[..i + 1] == cols[..i] + [cols[i]];
    ColumnLinesSnoc(k, cols[..i], cols[i]);
    var pks' := pks + if cols[i].isPK then [Quoted(k, cols[i].name)] else [];
    DdlPrinter.StreamLine(b, "CREATE TABLE " + table + " (\n", ColumnLines(k, cols[..i]), ColumnLine(k, cols[i]),
                          i < |cols| - 1 || |pks'| > 0 || moreAfter);
  }

  lemma ScriptOne(stmt: string)
    ensures Script([stmt]) == stmt + ";\n"
  {
    assert Script([stmt][1..]) == "";
    assert stmt + ";\n" + "" == stmt + ";\n";
  }

  lemma EndStatement(b: string)
    ensures b + ");\n" == Script([b + ")"])
  {
    ScriptOne(b + ")");
    assert b + ")" + ";\n" == b + (")" + ";\n");
  }

  lemma CloseTable(k: Kind, table: string, b: string, cols: seq<Column>, fks: seq<ForeignKey>)
    requires Written(b, table, TableItems(k, cols, fks), false)
    ensures b + ");\n" == Script([TableStatement(k, table, cols, fks)])
  {
    var items := TableItems(k, cols, fks);
    var head := "CREATE TABLE " + table + " (\n";
    if items == [] {
      assert head + "" == head;
    } else {
      assert head + Join(items, ",\n") + "\n" == head + (Join(items, ",\n") + "\n");
    }
    assert TableStatement(k, table, cols, fks) == b + ")";
    EndStatement(b);
  }

  // ---------- synthesisedCreateTable, in its four loops ----------

  method WriteColumns(k: Kind, table: string, cols: seq<Column>, hasForeignKeys: bool)
    returns (b: string, pks: seq<string>)
    ensures pks == KeyNames(k, cols)
    ensures Written(b, table, ColumnLines(k, cols), |pks| > 0 || hasForeignKeys)
  {
    b := "CREATE TABLE " + table + " (\n";
    pks := [];
    for i := 0 to |cols|
      invariant pks == KeyNames(k, cols[..i])
      invariant Written(b, table, ColumnLines(k, cols[..i]), i < |cols| || |pks| > 0 || hasForeignKeys)
    {
      var c := cols[i];
      assert i > 0 || ColumnLines(k, cols[..i]) == [];
      WriteColumn(k, table, b, cols, i, pks, hasForeignKeys);
      var line := PrintColumn(k, c);
      if c.isPK {
        pks := pks + [Quoted(k, c.name)];
      }
      ghost var comma := if i < |cols| - 1 || |pks| > 0 || hasForeignKeys then "," else "";
      if i < |cols| - 1 || |pks| > 0 || hasForeignKeys {
        line := line + ",";
      }
      assert line == ColumnLine(k, c) + comma;
      b := b + (line + "\n");
    }
    assert cols[..|cols|] == cols;
  }

  method PrintColumn(k: Kind, c: Column) returns (line: string)
    ensures line == ColumnLine(k, c)
  {
    line := "  " + Quoted(k, c.name) + " " + c.dataType;
    ghost var start := line;
    if !c.nullable {
      line := line + " NOT NULL";
    }
    assert line == start + if c.nullable then "" else " NOT NULL";
    ghost var withNull := line;
    if c.default != "" {
      line := line + (" DEFAULT " + c.default);
    }
    assert line == withNull + if c.default == "" then "" else " DEFAULT " + c.default;
  }

  method WriteKey(k: Kind, table: string, start: string, lines: seq<string>, pks: seq<string>, hasForeignKeys: bool)
    returns (b: string)
    requires Written(start, table, lines, |pks| > 0 || hasForeignKeys)
    requires |pks| > 0 ==> lines != []
    ensures Written(b, table, lines + DdlPrinter.KeyLines(pks), hasForeignKeys)
  {
    b := start;
    if |pks| > 0 {
      var suffix := "";
      if hasForeignKeys {
        suffix := ",";
      }
      var key := "  PRIMARY KEY (" + Join(pks, ", ") + ")";
      DdlPrinter.StreamLine(b, "CREATE TABLE " + table + " (\n", lines, key, hasForeignKeys);
      b := b + (key + suffix + "\n");
    } else {
      assert lines + DdlPrinter.KeyLines(pks) == lines;
    }
  }

  lemma ForeignKeyWritten(k: Kind, table: string, b: string, items: seq<string>, fks: seq<ForeignKey>, i: nat)
    requires i < |fks| && Written(b, table, items + ForeignKeyLines(k, fks[..i]), true)
    ensures var comma := if i < |fks| - 1 then "," else "";
            Written(b + (ForeignKeyLine(k, fks[i]) + comma + "\n"), table, items + ForeignKeyLines(k, fks[..i + 1]),
                    i + 1 < |fks|)
  {
    var line := ForeignKeyLine(k, fks[i]);
    assert fks[..i + 1] == fks[..i] + [fks[i]];
    ForeignKeyLinesSnoc(k, fks[..i], fks[i]);
    Assoc(items, ForeignKeyLines(k, fks[..i]), [line]);
    DdlPrinter.StreamLine(b, "CREATE TABLE " + table + " (\n", items + ForeignKeyLines(k, fks[..i]), line,
                          i < |fks| - 1);
  }

  method WriteForeignKeys(k: Kind, table: string, start: string, items: seq<string>, fks: seq<ForeignKey>)
    returns (b: string)
    requires Written(start, table, items, |fks| > 0)
    ensures Written(b, table, items + ForeignKeyLines(k, fks), false)
  {
    b := start;
    assert items + ForeignKeyLines(k, fks[..0]) == items;
    for i := 0 to |fks|
      invariant Written(b, table, items + ForeignKeyLines(k, fks[..i]), i < |fks|)
    {
      ForeignKeyWritten(k, table, b, items, fks, i);
      var line := PrintForeignKey(k, fks[i]);
      ghost var bare, comma := line, if i < |fks| - 1 then "," else "";
      if i < |fks| - 1 {
        line := line + ",";
      }
      assert line == bare + comma;
      b := b + (line + "\n");
    }
    assert fks[..|fks|] == fks;
  }

  method PrintForeignKey(k: Kind, fk: ForeignKey) returns (line: string)
    ensures line == ForeignKeyLine(k, fk)
  {
    var refTbl := QuotedQualified(k, fk.refSchema, fk.refTable);
    var colsQ := QuoteColumns(k, fk.columns);
    var refColsQ := QuoteColumns(k, fk.refColumns);
    line := "  FOREIGN KEY (" + Join(colsQ, ", ") + ") REFERENCES " + refTbl + " (" + Join(refColsQ, ", ") + ")";
  }

  lemma IndexWritten(k: Kind, table: string, b: string, statement: string, idx: seq<IndexInfo>, i: nat)
    requires i < |idx| && b == Script([statement] + IndexStatements(k, table, idx[..i]))
    ensures var b' := if idx[i].primary then b else b + (IndexStatement(k, table, idx[i]) + ";\n");
            b' == Script([statement] + IndexStatements(k, table, idx[..i + 1]))
  {
    var done := [statement] + IndexStatements(k, table, idx[..i]);
    var added := if idx[i].primary then [] else [IndexStatement(k, table, idx[i])];
    assert idx[..i + 1] == idx[..i] + [idx[i]];
    IndexStatementsSnoc(k, table, idx[..i], idx[i]);
    Assoc([statement], IndexStatements(k, table, idx[..i]), added);
    if idx[i].primary {
      assert done + [] == done;
    } else {
      ScriptSnoc(done, added[0]);
    }
  }

  method WriteIndexes(k: Kind, table: string, start: string, ghost statement: string, idx: seq<IndexInfo>)
    returns (b: string)
    requires start == Script([statement])
    ensures b == Script([statement] + IndexStatements(k, table, idx))
  {
    b := start;
    assert [statement] + IndexStatements(k, table, idx[..0]) == [statement];
    for i := 0 to |idx|
      invariant b == Script([statement] + IndexStatements(k, table, idx[..i]))
    {
      IndexWritten(k, table, b, statement, idx, i);
      if idx[i].primary {
        continue;
      }
      var stmt := PrintIndex(k, table, idx[i]);
      b := b + (stmt + ";\n");
    }
    assert idx[..|idx|] == idx;
  }

  method PrintIndex(k: Kind, table: string, ix: IndexInfo) returns (stmt: string)
    ensures stmt == IndexStatement(k, table, ix)
  {
    var colsQ := QuoteColumns(k, ix.columns);
    var uniq := "";
    if ix.unique {
      uniq := "UNIQUE ";
    }
    stmt := "CREATE " + uniq + "INDEX " + Quoted(k, ix.name) + " ON " + table + " (" + Join(colsQ, ", ") + ")";
  }

  /** synthesisedCreateTable: the commas its loops place are those of a separator-join, and every
      statement ends in a semicolon. The error stands for the comment line shown instead. */
  method SynthesisedCreateTable(k: Kind, schema: string, name: string, cols: seq<Column>, idx: seq<IndexInfo>,
                                fks: seq<ForeignKey>) returns (r: Result<string, IdentError>)
    ensures r == ScriptText(k, schema, name, cols, idx, fks)
  {
    var tbl := Qualified(k, schema, name);
    if tbl.Err? {
      return Err(tbl.error);
    }
    var table := tbl.value;
    var b, pks := WriteColumns(k, table, cols, |fks| > 0);
    assert |pks| > 0 ==> cols != [];
    b := WriteKey(k, table, b, ColumnLines(k, cols), pks, |fks| > 0);
    b := WriteForeignKeys(k, table, b, ColumnLines(k, cols) + DdlPrinter.KeyLines(pks), fks);
    CloseTable(k, table, b, cols, fks);
    b := b + ");\n";
    b := WriteIndexes(k, table, b, TableStatement(k, table, cols, fks), idx);
    return Ok(b);
  }

  // ---------- what the splitter makes of the script ----------

  lemma {:induction false} QuotedAllClosed(k: Kind, names: seq<string>)
    requires k != MySQL
    ensures Closed(Join(QuotedAll(k, names), ", "))
    ensures forall i :: 0 <= i < |names| ==> Closed(QuotedAll(k, names)[i])
  {
    if names != [] {
      QuotedClosed(k, names[0]);
      QuotedAllClosed(k, names[1..]);
    }
    JoinIsClosed(QuotedAll(k, names), ", ");
  }

  /** Whatever the name, accepted or not. */
  lemma QuotedClosed(k: Kind, name: string)
    requires k != MySQL
    ensures Closed(Quoted(k, name))
  {
    if Quotable(k, name) { IdentIsClosed(k, name); }
  }

  lemma QuotedQualifiedClosed(k: Kind, schema: string, name: string)
    requires k != MySQL
    ensures Closed(QuotedQualified(k, schema, name))
  {
    QualifiedForm(k, schema, name);
    if QualifiedQuotable(k, schema, name) { QualifiedIsClosed(k, schema, name); }
  }

  /** Quotes opened in the type and the default are closed there, and semicolons stay inside them. */
  predicate ClosedAtoms(cols: seq<Column>) {
    forall i :: 0 <= i < |cols| ==> Closed(cols[i].dataType) && Closed(cols[i].default)
  }

  lemma ColumnLineClosed(k: Kind, c: Column)
    requires k != MySQL && Closed(c.dataType) && Closed(c.default)
    ensures Closed(ColumnLine(k, c))
  {
    var n := if c.nullable then "" else " NOT NULL";
    QuotedClosed(k, c.name);
    Enclosed("  ", Quoted(k, c.name), " ");
    var start := "  " + Quoted(k, c.name) + " ";
    AlsoEnclosed(start, c.dataType, n);
    DefaultClosed(c.default);
    ClosedConcat(start + c.dataType + n, if c.default == "" then "" else " DEFAULT " + c.default);
  }

  lemma DefaultClosed(default: string)
    requires Closed(default)
    ensures Closed(if default == "" then "" else " DEFAULT " + default)
  {
    Enclosed(" DEFAULT ", default, "");
    assert " DEFAULT " + default + "" == " DEFAULT " + default;
  }

  lemma {:induction false} ColumnLinesClosed(k: Kind, cols: seq<Column>)
    requires k != MySQL && ClosedAtoms(cols)
    ensures AllClosed(ColumnLines(k, cols))
  {
    if cols != [] {
      ColumnLineClosed(k, cols[0]);
      ColumnLinesClosed(k, cols[1..]);
    }
  }

  lemma {:induction false} KeyNamesClosed(k: Kind, cols: seq<Column>)
    requires k != MySQL
    ensures AllClosed(KeyNames(k, cols))
  {
    if cols != [] {
      QuotedClosed(k, cols[0].name);
      KeyNamesClosed(k, cols[1..]);
    }
  }

  lemma KeyLinesClosed(k: Kind, cols: seq<Column>)
    requires k != MySQL
    ensures AllClosed(DdlPrinter.KeyLines(KeyNames(k, cols)))
  {
    KeyNamesClosed(k, cols);
    JoinIsClosed(KeyNames(k, cols), ", ");
    Enclosed("  PRIMARY KEY (", Join(KeyNames(k, cols), ", "), ")");
  }

  lemma ForeignKeyWords()
    ensures Plain("  FOREIGN KEY (") && Plain(") REFERENCES ") && Plain(" (") && Plain(")")
  {
  }

  lemma ForeignKeyLineClosed(k: Kind, fk: ForeignKey)
    requires k != MySQL
    ensures Closed(ForeignKeyLine(k, fk))
  {
    QuotedAllClosed(k, fk.columns);
    QuotedAllClosed(k, fk.refColumns);
    QuotedQualifiedClosed(k, fk.refSchema, fk.refTable);
    ForeignKeyWords();
    Alternating7("  FOREIGN KEY (", Join(QuotedAll(k, fk.columns), ", "), ") REFERENCES ",
                 QuotedQualified(k, fk.refSchema, fk.refTable), " (", Join(QuotedAll(k, fk.refColumns), ", "), ")");
  }

  lemma Alternating7(p: string, x: string, q: string, y: string, r: string, z: string, t: string)
    requires Plain(p) && Plain(q) && Plain(r) && Plain(t) && Closed(x) && Closed(y) && Closed(z)
    ensures Closed(p + x + q + y + r + z + t)
  {
    Enclosed(p, x, q);
    AlsoEnclosed(p + x + q, y, r);
    AlsoEnclosed(p + x + q + y + r, z, t);
  }

  lemma {:induction false} ForeignKeyLinesClosed(k: Kind, fks: seq<ForeignKey>)
    requires k != MySQL
    ensures AllClosed(ForeignKeyLines(k, fks))
  {
    if fks != [] {
      ForeignKeyLineClosed(k, fks[0]);
      ForeignKeyLinesClosed(k, fks[1..]);
    }
  }

  lemma TableItemsClosed(k: Kind, cols: seq<Column>, fks: seq<ForeignKey>)
    requires k != MySQL && ClosedAtoms(cols)
    ensures AllClosed(TableItems(k, cols, fks))
  {
    ColumnLinesClosed(k, cols);
    KeyLinesClosed(k, cols);
    ForeignKeyLinesClosed(k, fks);
    var lines, keys := ColumnLines(k, cols), DdlPrinter.KeyLines(KeyNames(k, cols));
    AllClosedConcat(lines, keys);
    AllClosedConcat(lines + keys, ForeignKeyLines(k, fks));
  }

  lemma LineClosed(body: string)
    requires Closed(body)
    ensures Closed(body + "\n")
  {
    PlainIsClosed("\n");
    ClosedConcat(body, "\n");
  }

  lemma HeadClosed(table: string)
    requires Closed(table)
    ensures Closed("CREATE TABLE " + table + " (\n")
  {
    Enclosed("CREATE TABLE ", table, " (\n");
  }

  /** The table statement is closed when the types and defaults are, whatever the names hold. */
  lemma TableStatementClosed(k: Kind, table: string, cols: seq<Column>, fks: seq<ForeignKey>)
    requires k != MySQL && Closed(table) && ClosedAtoms(cols)
    ensures Closed(TableStatement(k, table, cols, fks))
  {
    var items := TableItems(k, cols, fks);
    TableItemsClosed(k, cols, fks);
    JoinIsClosed(items, ",\n");
    var body := Join(items, ",\n");
    LineClosed(body);
    HeadClosed(table);
    AlsoEnclosed("CREATE TABLE " + table + " (\n", if items == [] then "" else body + "\n", ")");
  }

  lemma CreateIndexPlain(unique: bool)
    ensures Plain(CreateIndex(unique))
  {
  }

  lemma IndexStatementClosed(k: Kind, table: string, ix: IndexInfo)
    requires k != MySQL && Closed(table)
    ensures Closed(IndexStatement(k, table, ix))
  {
    QuotedClosed(k, ix.name);
    QuotedAllClosed(k, ix.columns);
    CreateIndexPlain(ix.unique);
    Alternating7(CreateIndex(ix.unique), Quoted(k, ix.name), " ON ", table, " (",
                 Join(QuotedAll(k, ix.columns), ", "), ")");
  }

  /** Closed, and without white space at its ends. */
  predicate Statement(s: string) { Closed(s) && s != "" && Tight(s) }

  lemma TableStatementTight(k: Kind, table: string, cols: seq<Column>, fks: seq<ForeignKey>)
    ensures TableStatement(k, table, cols, fks) != "" && Tight(TableStatement(k, table, cols, fks))
  {
    var s := TableStatement(k, table, cols, fks);
    assert s[0] == 'C' && s[|s| - 1] == ')';
  }

  lemma IndexStatementTight(k: Kind, table: string, ix: IndexInfo)
    ensures IndexStatement(k, table, ix) != "" && Tight(IndexStatement(k, table, ix))
  {
    var s := IndexStatement(k, table, ix);
    assert s[0] == 'C' && s[|s| - 1] == ')';
  }

  lemma {:induction false} IndexStatementsAreStatements(k: Kind, table: string, idx: seq<IndexInfo>)
    requires k != MySQL && Closed(table)
    ensures forall i :: 0 <= i < |IndexStatements(k, table, idx)| ==> Statement(IndexStatements(k, table, idx)[i])
  {
    if idx != [] {
      IndexStatementClosed(k, table, idx[0]);
      IndexStatementTight(k, table, idx[0]);
      IndexStatementsAreStatements(k, table, idx[1..]);
    }
  }

  function OnOwnLines(stmts: seq<string>): (r: seq<string>)
    ensures |r| == |stmts|
  {
    if stmts == [] then [] else ["\n" + stmts[0]] + OnOwnLines(stmts[1..])
  }

  lemma NewlineOnly()
    ensures Closed("\n") && Cut("\n") == ["\n"] && Trim("\n") == ""
  {
    var nl := "\n";
    PlainIsClosed(nl);
    CutWhole(nl);
    TrimAround("\n", "", "");
    assert "\n" + "" + "" == "\n";
  }

  lemma CleanCons(seg: string, segs: seq<string>)
    ensures Clean([seg] + segs) == (if Trim(seg) == "" then [] else [Trim(seg)]) + Clean(segs)
  {
    assert ([seg] + segs)[1..] == segs;
  }

  lemma ScriptHead(stmt: string, rest: seq<string>)
    ensures Script([stmt] + rest) == stmt + ";" + ("\n" + Script(rest))
  {
    assert ([stmt] + rest)[1..] == rest;
    assert stmt + ";\n" == stmt + ";" + "\n";
    assert stmt + ";" + "\n" + Script(rest) == stmt + ";" + ("\n" + Script(rest));
  }

  lemma LedScriptHead(stmt: string, rest: seq<string>)
    ensures "\n" + Script([stmt] + rest) == ("\n" + stmt) + ";" + ("\n" + Script(rest))
  {
    ScriptHead(stmt, rest);
    var tail := "\n" + Script(rest);
    assert "\n" + (stmt + ";" + tail) == "\n" + (stmt + ";") + tail;
    assert "\n" + (stmt + ";") == "\n" + stmt + ";";
  }

  lemma LineOf(stmt: string)
    requires Statement(stmt)
    ensures Cut("\n" + stmt) == ["\n" + stmt] && Trim("\n" + stmt) == stmt && After(Neutral, "\n" + stmt) == Neutral
  {
    NewlineOnly();
    ClosedConcat("\n", stmt);
    CutWhole("\n" + stmt);
    TrimAround("\n", stmt, "");
    assert "\n" + stmt + "" == "\n" + stmt;
  }

  lemma {:induction false} CutOfRest(stmts: seq<string>)
    requires forall i :: 0 <= i < |stmts| ==> Statement(stmts[i])
    ensures Cut("\n" + Script(stmts)) == OnOwnLines(stmts) + ["\n"]
    ensures Clean(OnOwnLines(stmts) + ["\n"]) == stmts
  {
    NewlineOnly();
    if stmts == [] {
      assert "\n" + "" == "\n";
      CleanCons("\n", []);
      assert ["\n"] + [] == ["\n"];
    } else {
      var line, rest := "\n" + stmts[0], stmts[1..];
      CutOfRest(rest);
      LineOf(stmts[0]);
      LedScriptHead(stmts[0], rest);
      assert stmts == [stmts[0]] + rest;
      CutAtSemicolon(line, "\n" + Script(rest));
      assert OnOwnLines(stmts) + ["\n"] == [line] + (OnOwnLines(rest) + ["\n"]);
      CleanCons(line, OnOwnLines(rest) + ["\n"]);
    }
  }

  lemma CutOfScript(stmt: string, rest: seq<string>)
    requires Statement(stmt) && forall i :: 0 <= i < |rest| ==> Statement(rest[i])
    ensures Cut(Script([stmt] + rest)) == [stmt] + OnOwnLines(rest) + ["\n"]
  {
    ScriptHead(stmt, rest);
    CutOfRest(rest);
    CutWhole(stmt);
    CutAtSemicolon(stmt, "\n" + Script(rest));
    Assoc([stmt], OnOwnLines(rest), ["\n"]);
  }

  lemma BlankTailDropped(segs: seq<string>, s: string)
    requires Cut(s) == segs + ["\n"]
    ensures SplitSql(s) == segs
  {
    NewlineOnly();
    assert Cut(s)[..|segs|] == segs;
  }

  lemma ClosedHeadSplits(stmt: string, rest: seq<string>)
    requires Statement(stmt) && forall i :: 0 <= i < |rest| ==> Statement(rest[i])
    ensures Statements(Script([stmt] + rest)) == [stmt] + rest
    ensures SplitSql(Script([stmt] + rest)) == [stmt] + OnOwnLines(rest)
  {
    var text := Script([stmt] + rest);
    CutOfScript(stmt, rest);
    BlankTailDropped([stmt] + OnOwnLines(rest), text);
    StatementsAreCleanCuts(text);
    CutOfRest(rest);
    TrimFixed(stmt);
    CleanCons(stmt, OnOwnLines(rest) + ["\n"]);
    Assoc([stmt], OnOwnLines(rest), ["\n"]);
  }

  lemma SplitHeadIsClosed(stmt: string, rest: seq<string>)
    requires stmt != "" && Tight(stmt)
    requires forall i :: 0 <= i < |rest| ==> Statement(rest[i])
    requires Statements(Script([stmt] + rest)) == [stmt] + rest
    ensures Closed(stmt)
  {
    var text, tail := Script([stmt] + rest), "\n" + Script(rest);
    StatementsAreCleanCuts(text);
    CutIsExact(text);
    CleanKeepsSeparated(Cut(text));
    assert ([stmt] + rest)[0] == stmt;
    CutWhole(stmt);
    StatementsAreCleanCuts(stmt);
    TrimFixed(stmt);
    CleanCons(stmt, []);
    assert [stmt] + [] == [stmt];
    CutOfRest(rest);
    StatementsAreCleanCuts(tail);
    ScriptHead(stmt, rest);
    StatementsHomomorphism(stmt, tail);
  }

  /** There is a script exactly for a table that can be named; a name that cannot be quoted prints as nothing. */
  lemma ScriptAccepted(k: Kind, schema: string, name: string, cols: seq<Column>, idx: seq<IndexInfo>,
                       fks: seq<ForeignKey>, other: string)
    ensures ScriptText(k, schema, name, cols, idx, fks).Ok? <==> QualifiedQuotable(k, schema, name)
    ensures Quoted(k, other) == "" <==> !Quotable(k, other)
  {
    QualifiedForm(k, schema, name);
  }

  /** For the double-quote dialects the script splits into the table statement and the statements
      of the indexes other than the primary key's, in order, exactly if the table statement is
      closed; for that it is enough that the types and defaults are closed. No condition is put
      on the names, which may hold semicolons, apostrophes and newlines. */
  lemma ScriptSplits(k: Kind, schema: string, name: string, cols: seq<Column>, idx: seq<IndexInfo>,
                     fks: seq<ForeignKey>)
    requires k != MySQL && QualifiedQuotable(k, schema, name)
    ensures var table, text := Qualified(k, schema, name).value, ScriptText(k, schema, name, cols, idx, fks).value;
            var statement, indexes := TableStatement(k, table, cols, fks), IndexStatements(k, table, idx);
            && (Statements(text) == [statement] + indexes <==> Closed(statement))
            && (ClosedAtoms(cols) ==>
                  Closed(statement)
                  && SplitSql(text) == [statement] + OnOwnLines(indexes)
                  && |SplitSql(text)| == 1 + |indexes|)
  {
    QualifiedForm(k, schema, name);
    QualifiedIsClosed(k, schema, name);
    var table := Qualified(k, schema, name).value;
    TableStatementTight(k, table, cols, fks);
    IndexStatementsAreStatements(k, table, idx);
    var statement, indexes := TableStatement(k, table, cols, fks), IndexStatements(k, table, idx);
    if ClosedAtoms(cols) {
      TableStatementClosed(k, table, cols, fks);
    }
    if Closed(statement) {
      ClosedHeadSplits(statement, indexes);
    } else if Statements(Script([statement] + indexes)) == [statement] + indexes {
      SplitHeadIsClosed(statement, indexes);
    }
  }

  lemma {:induction false} IndexStatementCount(k: Kind, table: string, idx: seq<IndexInfo>)
    ensures |IndexStatements(k, table, idx)| == |NonPrimary(idx)|
  {
    if idx != [] { IndexStatementCount(k, table, idx[1..]); }
  }

  function NonPrimary(idx: seq<IndexInfo>): seq<IndexInfo> {
    if idx == [] then []
    else (if idx[0].primary then [] else [idx[0]]) + NonPrimary(idx[1..])
  }
}
