/** The CREATE TABLE and CREATE INDEX builders (internal/dbx/ddl.go). */
module DdlPrinter {
  import opened Text
  import opened SqlScanner
  import opened Identifiers

  datatype ColumnDef = ColumnDef(name: string, dataType: string, nullable: bool, default: string, isPK: bool)

  datatype CreateTableDef =
    CreateTableDef(schema: string, name: string, columns: seq<ColumnDef>, ifNotExists: bool)

  datatype IndexDef =
    IndexDef(name: string, schema: string, table: string, columns: seq<string>, unique: bool, indexMethod: string)

  datatype DdlError = NoColumns | BadIdentifier(error: IdentError) | MissingDataType(column: string)

  // ---------- what is printed ----------

  /** What follows the column name: type, NOT NULL, DEFAULT. */
  function ColumnText(c: ColumnDef): string {
    Trim(c.dataType) + ColumnSuffix(c)
  }

  function ColumnSuffix(c: ColumnDef): string {
    (if c.nullable then "" else " NOT NULL") + (if c.default == "" then "" else " DEFAULT " + c.default)
  }

  function ColumnLine(k: Kind, c: ColumnDef): string
    requires QuoteIdent(k, c.name).Ok?
  {
    "  " + QuoteIdent(k, c.name).value + " " + ColumnText(c)
  }

  function ColumnError(k: Kind, c: ColumnDef): Option<DdlError> {
    match QuoteIdent(k, c.name)
    case Err(e) => Some(BadIdentifier(e))
    case Ok(_) => if Trim(c.dataType) == "" then Some(MissingDataType(c.name)) else None
  }

  predicate AllPrintable(k: Kind, cols: seq<ColumnDef>) {
    forall i :: 0 <= i < |cols| ==> ColumnError(k, cols[i]) == None
  }

  function ColumnLines(k: Kind, cols: seq<ColumnDef>): seq<string>
    requires AllPrintable(k, cols)
  {
    seq(|cols|, i requires 0 <= i < |cols| => ColumnLine(k, cols[i]))
  }

  /** The quoted names of the key columns, in column order. */
  function KeyNames(k: Kind, cols: seq<ColumnDef>): seq<string>
    requires AllPrintable(k, cols)
  {
    if cols == [] then []
    else (if cols[0].isPK then [QuoteIdent(k, cols[0].name).value] else []) + KeyNames(k, cols[1..])
  }

  function KeyLines(names: seq<string>): seq<string> {
    if names == [] then [] else ["  PRIMARY KEY (" + Join(names, ", ") + ")"]
  }

  /** The column lines and the key line, if there is a key, separated by commas. */
  function TableBody(k: Kind, cols: seq<ColumnDef>): string
    requires AllPrintable(k, cols)
  {
    Join(ColumnLines(k, cols) + KeyLines(KeyNames(k, cols)), ",\n")
  }

  function TableHead(def: CreateTableDef, table: string): string {
    "CREATE TABLE " + (if def.ifNotExists then "IF NOT EXISTS " else "") + table + " (\n"
  }

  /** The error of the first column that has one. */
  function FirstError(k: Kind, cols: seq<ColumnDef>): (e: Option<DdlError>)
    ensures e == None <==> AllPrintable(k, cols)
  {
    if cols == [] then None
    else if ColumnError(k, cols[0]) != None then ColumnError(k, cols[0])
    else FirstError(k, cols[1..])
  }

  function CreateTableText(k: Kind, def: CreateTableDef): Result<string, DdlError> {
    if def.columns == [] then Err(NoColumns)
    else
      match Qualified(k, def.schema, def.name)
      case Err(e) => Err(BadIdentifier(e))
      case Ok(table) =>
        match FirstError(k, def.columns)
        case Some(e) => Err(e)
        case None => Ok(TableHead(def, table) + TableBody(k, def.columns) + "\n)")
  }

  // ---------- the streaming builder ----------

  lemma {:induction false} FirstErrorAt(k: Kind, cols: seq<ColumnDef>, i: nat)
    requires i < |cols| && AllPrintable(k, cols[..i]) && ColumnError(k, cols[i]) != None
    ensures FirstError(k, cols) == ColumnError(k, cols[i])
  {
    if i > 0 {
      assert cols[..i][0] == cols[0];
      assert cols[1..][..i - 1] == cols[..i][1..];
      FirstErrorAt(k, cols[1..], i - 1);
    }
  }

  lemma {:induction false} KeyNamesSnoc(k: Kind, cols: seq<ColumnDef>, c: ColumnDef)
    requires AllPrintable(k, cols) && ColumnError(k, c) == None
    ensures AllPrintable(k, cols + [c])
    ensures KeyNames(k, cols + [c]) == KeyNames(k, cols) + if c.isPK then [QuoteIdent(k, c.name).value] else []
  {
    if cols == [] {
      assert cols + [c] == [c] && [c][1..] == [];
    } else {
      assert (cols + [c])[1..] == cols[1..] + [c];
      KeyNamesSnoc(k, cols[1..], c);
    }
  }

  /** What has been written after some columns: their lines joined, then the separator to what
      follows, which is a bare newline exactly if nothing follows. */
  ghost predicate Streamed(b: string, head: string, lines: seq<string>, more: bool) {
    if lines == [] then b == head else b == head + Join(lines, ",\n") + (if more then ",\n" else "\n")
  }

  lemma StreamLine(b: string, head: string, lines: seq<string>, line: string, more: bool)
    requires Streamed(b, head, lines, true)
    ensures Streamed(b + (line + (if more then "," else "") + "\n"), head, lines + [line], more)
  {
    var sep := if more then ",\n" else "\n";
    assert line + (if more then "," else "") + "\n" == line + sep;
    if lines == [] {
      assert lines + [line] == [line];
      assert head + (line + sep) == head + line + sep;
    } else {
      JoinSnoc(lines, ",\n", line);
      var j := Join(lines, ",\n");
      Reassociate(head, j, ",\n", line + sep);
      Reassociate(j, ",\n", line, sep);
      assert head + (j + ",\n" + line + sep) == head + (j + ",\n" + line) + sep;
    }
  }

  /** The builder's state after `i` columns. */
  ghost predicate Progress(k: Kind, cols: seq<ColumnDef>, i: nat, head: string, b: string, pks: seq<string>) {
    && i <= |cols|
    && AllPrintable(k, cols[..i])
    && pks == KeyNames(k, cols[..i])
    && Streamed(b, head, ColumnLines(k, cols[..i]), i < |cols| || |pks| > 0)
  }

  lemma AddColumn(k: Kind, cols: seq<ColumnDef>, i: nat, head: string, b: string, pks: seq<string>)
    requires Progress(k, cols, i, head, b, pks) && i < |cols| && ColumnError(k, cols[i]) == None
    ensures var pks' := pks + if cols[i].isPK then [QuoteIdent(k, cols[i].name).value] else [];
            var comma := if i < |cols| - 1 || |pks'| > 0 then "," else "";
            Progress(k, cols, i + 1, head, b + (ColumnLine(k, cols[i]) + comma + "\n"), pks')
  {
    var c, line := cols[i], ColumnLine(k, cols[i]);
    var pks' := pks + if c.isPK then [QuoteIdent(k, c.name).value] else [];
    var more := i < |cols| - 1 || |pks'| > 0;
    KeyNamesSnoc(k, cols[..i], c);
    assert cols[..i + 1] == cols[..i] + [c];
    assert ColumnLines(k, cols[..i + 1]) == ColumnLines(k, cols[..i]) + [line];
    StreamLine(b, head, ColumnLines(k, cols[..i]), line, more);
  }

  lemma CloseBracket(head: string, lines: seq<string>, b: string)
    requires lines != [] && Streamed(b, head, lines, false)
    ensures b + ")" == head + Join(lines, ",\n") + "\n)"
  {
    Assoc(head + Join(lines, ",\n"), "\n", ")");
  }

  lemma KeyLineLast(head: string, lines: seq<string>, b: string, line: string)
    requires Streamed(b, head, lines, true)
    ensures Streamed(b + (line + "\n"), head, lines + [line], false)
  {
    StreamLine(b, head, lines, line, false);
    assert line + "" == line;
  }

  lemma Finish(k: Kind, cols: seq<ColumnDef>, head: string, b: string, pks: seq<string>)
    requires cols != [] && Progress(k, cols, |cols|, head, b, pks)
    ensures AllPrintable(k, cols)
    ensures var key := if |pks| > 0 then "  PRIMARY KEY (" + Join(pks, ", ") + ")" + "\n" else "";
            b + key + ")" == head + TableBody(k, cols) + "\n)"
  {
    assert cols[..|cols|] == cols;
    var lines := ColumnLines(k, cols);
    if pks == [] {
      assert lines + KeyLines(pks) == lines;
      assert b + "" == b;
      CloseBracket(head, lines, b);
    } else {
      var line := "  PRIMARY KEY (" + Join(pks, ", ") + ")";
      KeyLineLast(head, lines, b, line);
      CloseBracket(head, lines + [line], b + (line + "\n"));
    }
  }

  /** The line of one column, in the order in which it is put together. */
  method WriteColumn(k: Kind, c: ColumnDef, col: string, dt: string, comma: bool) returns (line: string)
    requires QuoteIdent(k, c.name) == Ok(col) && dt == Trim(c.dataType)
    ensures line == ColumnLine(k, c) + (if comma then "," else "")
  {
    line := "  " + col + " " + dt;
    if !c.nullable {
      line := line + " NOT NULL";
    }
    if c.default != "" {
      line := line + (" DEFAULT " + c.default);
    }
    assert line == ColumnLine(k, c) by { LineAssembled(k, c); }
    if comma {
      line := line + ",";
    } else {
      assert line + "" == line;
    }
  }

  /** buildCreateTable: the commas placed while streaming are those of a separator-join. */
  method BuildCreateTable(k: Kind, def: CreateTableDef) returns (r: Result<string, DdlError>)
    ensures r == CreateTableText(k, def)
  {
    var cols := def.columns;
    if |cols| == 0 {
      return Err(NoColumns);
    }
    var tbl := Qualified(k, def.schema, def.name);
    if tbl.Err? {
      return Err(BadIdentifier(tbl.error));
    }
    var b := "CREATE TABLE ";
    if def.ifNotExists {
      b := b + "IF NOT EXISTS ";
    }
    b := b + tbl.value;
    b := b + " (\n";
    ghost var head := b;
    assert head == TableHead(def, tbl.value);

    var pks := [];
    for i := 0 to |cols|
      invariant Progress(k, cols, i, head, b, pks)
    {
      var c := cols[i];
      var col := QuoteIdent(k, c.name);
      if col.Err? {
        FirstErrorAt(k, cols, i);
        return Err(BadIdentifier(col.error));
      }
      var dt := Trim(c.dataType);
      if dt == "" {
        FirstErrorAt(k, cols, i);
        return Err(MissingDataType(c.name));
      }
      AddColumn(k, cols, i, head, b, pks);
      if c.isPK {
        pks := pks + [col.value];
      }
      var line := WriteColumn(k, c, col.value, dt, i < |cols| - 1 || |pks| > 0);
      b := b + (line + "\n");
    }
    Finish(k, cols, head, b, pks);
    ghost var key := if |pks| > 0 then "  PRIMARY KEY (" + Join(pks, ", ") + ")" + "\n" else "";
    ghost var before := b;
    if |pks| > 0 {
      b := b + ("  PRIMARY KEY (" + Join(pks, ", ") + ")" + "\n");
    }
    assert b == before + key;
    b := b + ")";
    return Ok(b);
  }

  lemma LineAssembled(k: Kind, c: ColumnDef)
    requires QuoteIdent(k, c.name).Ok?
    ensures var start := "  " + QuoteIdent(k, c.name).value + " " + Trim(c.dataType);
            var withNull := if c.nullable then start else start + " NOT NULL";
            ColumnLine(k, c) == if c.default == "" then withNull else withNull + (" DEFAULT " + c.default)
  {
    var q := "  " + QuoteIdent(k, c.name).value + " ";
    var dt := Trim(c.dataType);
    var n, d := if c.nullable then "" else " NOT NULL", if c.default == "" then "" else " DEFAULT " + c.default;
    Reassociate(q, dt, n, d);
    assert q + dt + "" == q + dt;
    assert q + dt + n + "" == q + dt + n;
  }

  // ---------- CREATE INDEX ----------

  function QuoteAll(k: Kind, names: seq<string>): (r: Result<seq<string>, IdentError>)
    ensures r.Ok? ==> |r.value| == |names| &&
                      forall i :: 0 <= i < |names| ==> QuoteIdent(k, names[i]) == Ok(r.value[i])
  {
    if names == [] then Ok([])
    else
      match QuoteIdent(k, names[0])
      case Err(e) => Err(e)
      case Ok(q) =>
        match QuoteAll(k, names[1..])
        case Err(e) => Err(e)
        case Ok(qs) => Ok([q] + qs)
  }

  function CreateIndexText(k: Kind, def: IndexDef): Result<string, DdlError> {
    if def.columns == [] then Err(NoColumns)
    else
      match QuoteIdent(k, def.name)
      case Err(e) => Err(BadIdentifier(e))
      case Ok(index) =>
        match Qualified(k, def.schema, def.table)
        case Err(e) => Err(BadIdentifier(e))
        case Ok(table) =>
          match QuoteAll(k, def.columns)
          case Err(e) => Err(BadIdentifier(e))
          case Ok(cols) =>
            Ok("CREATE " + (if def.unique then "UNIQUE " else "") + ("INDEX " + index + " ON " + table)
               + (if k == Postgres && def.indexMethod != "" then " USING " + def.indexMethod else "")
               + (" (" + Join(cols, ", ") + ")"))
  }

  lemma {:induction false} QuoteAllFails(k: Kind, names: seq<string>, i: nat)
    requires i < |names| && QuoteIdent(k, names[i]).Err?
    requires forall j :: 0 <= j < i ==> QuoteIdent(k, names[j]).Ok?
    ensures QuoteAll(k, names) == Err(QuoteIdent(k, names[i]).error)
  {
    if i > 0 {
      assert QuoteIdent(k, names[0]).Ok?;
      forall j | 0 <= j < i - 1 ensures QuoteIdent(k, names[1..][j]).Ok? {
        assert names[1..][j] == names[j + 1];
      }
      QuoteAllFails(k, names[1..], i - 1);
    }
  }

  lemma {:induction false} QuoteAllSucceeds(k: Kind, names: seq<string>, quoted: seq<string>)
    requires |quoted| == |names| && forall i :: 0 <= i < |names| ==> QuoteIdent(k, names[i]) == Ok(quoted[i])
    ensures QuoteAll(k, names) == Ok(quoted)
  {
    if names != [] {
      QuoteAllSucceeds(k, names[1..], quoted[1..]);
      assert quoted == [quoted[0]] + quoted[1..];
    }
  }

  /** buildCreateIndex, with the errors in the order in which it meets them. */
  method BuildCreateIndex(k: Kind, def: IndexDef) returns (r: Result<string, DdlError>)
    ensures r == CreateIndexText(k, def)
  {
    if |def.columns| == 0 {
      return Err(NoColumns);
    }
    var idxName := QuoteIdent(k, def.name);
    if idxName.Err? {
      return Err(BadIdentifier(idxName.error));
    }
    var tbl := Qualified(k, def.schema, def.table);
    if tbl.Err? {
      return Err(BadIdentifier(tbl.error));
    }
    var cols := [];
    for i := 0 to |def.columns|
      invariant |cols| == i && forall j :: 0 <= j < i ==> QuoteIdent(k, def.columns[j]) == Ok(cols[j])
    {
      var q := QuoteIdent(k, def.columns[i]);
      if q.Err? {
        QuoteAllFails(k, def.columns, i);
        return Err(BadIdentifier(q.error));
      }
      cols := cols + [q.value];
    }
    QuoteAllSucceeds(k, def.columns, cols);
    var stmt := "CREATE ";
    if def.unique {
      stmt := stmt + "UNIQUE ";
    }
    assert stmt == "CREATE " + if def.unique then "UNIQUE " else "";
    stmt := stmt + ("INDEX " + idxName.value + " ON " + tbl.value);
    ghost var upToTable := stmt;
    if k == Postgres && def.indexMethod != "" {
      stmt := stmt + (" USING " + def.indexMethod);
    }
    assert stmt == upToTable + if k == Postgres && def.indexMethod != "" then " USING " + def.indexMethod else "";
    stmt := stmt + (" (" + Join(cols, ", ") + ")");
    return Ok(stmt);
  }
}
