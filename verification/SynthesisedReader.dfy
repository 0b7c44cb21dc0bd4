/** What the DDL shown for a table says (internal/dbx/ddl.go): a reader of the table statement with its
    foreign keys gives back the table, and the reader of CREATE INDEX gives back the indexes. */
module SynthesisedReader {
  import opened Text
  import opened Identifiers
  import opened Catalog
  import opened DdlPrinter
  import opened DdlParser
  import IndexParser
  import S = SynthesisedDdl

  // ---------- without foreign keys: the text of buildCreateTable ----------

  function Def(c: Column): ColumnDef { ColumnDef(c.name, c.dataType, c.nullable, c.default, c.isPK) }

  function Defs(cols: seq<Column>): seq<ColumnDef> {
    seq(|cols|, i requires 0 <= i < |cols| => Def(cols[i]))
  }

  /** Columns that buildCreateTable would print, with types that have no white space at their ends. */
  predicate Presentable(k: Kind, cols: seq<Column>) {
    cols != [] && forall i :: 0 <= i < |cols| ==>
      Quotable(k, cols[i].name) && cols[i].dataType != "" && Tight(cols[i].dataType)
  }

  lemma PresentablePrints(k: Kind, cols: seq<Column>)
    requires Presentable(k, cols)
    ensures AllPrintable(k, Defs(cols)) && TrimTypes(Defs(cols)) == Defs(cols)
  {
    var defs := Defs(cols);
    forall i | 0 <= i < |cols|
      ensures ColumnError(k, defs[i]) == None && Trim(defs[i].dataType) == defs[i].dataType
    {
      TrimFixed(cols[i].dataType);
    }
    forall i | 0 <= i < |cols| ensures TrimTypes(defs)[i] == defs[i] {
      TrimTypesAt(defs, i);
    }
  }

  lemma SameLine(k: Kind, c: Column)
    requires Quotable(k, c.name) && c.dataType != "" && Tight(c.dataType)
    ensures S.ColumnLine(k, c) == ColumnLine(k, Def(c))
  {
    TrimFixed(c.dataType);
    var q := "  " + QuoteIdent(k, c.name).value + " ";
    Reassociate(q, c.dataType, if c.nullable then "" else " NOT NULL",
                if c.default == "" then "" else " DEFAULT " + c.default);
  }

  lemma {:induction false} LinesAt(k: Kind, cols: seq<Column>)
    ensures |S.ColumnLines(k, cols)| == |cols|
    ensures forall i :: 0 <= i < |cols| ==> S.ColumnLines(k, cols)[i] == S.ColumnLine(k, cols[i])
  {
    if cols != [] { LinesAt(k, cols[1..]); }
  }

  lemma SameLines(k: Kind, cols: seq<Column>)
    requires Presentable(k, cols) && AllPrintable(k, Defs(cols))
    ensures S.ColumnLines(k, cols) == ColumnLines(k, Defs(cols))
  {
    LinesAt(k, cols);
    forall i | 0 <= i < |cols| ensures S.ColumnLines(k, cols)[i] == ColumnLines(k, Defs(cols))[i] {
      SameLine(k, cols[i]);
    }
  }

  lemma {:induction false} SameKeyNames(k: Kind, cols: seq<Column>)
    requires AllPrintable(k, Defs(cols))
    ensures S.KeyNames(k, cols) == KeyNames(k, Defs(cols))
  {
    if cols != [] {
      assert Defs(cols)[0] == Def(cols[0]);
      assert Defs(cols)[1..] == Defs(cols[1..]);
      assert AllPrintable(k, Defs(cols[1..])) by {
        assert forall i :: 0 <= i < |cols| - 1 ==> Defs(cols[1..])[i] == Defs(cols)[i + 1];
      }
      SameKeyNames(k, cols[1..]);
    }
  }

  lemma SameItems(k: Kind, cols: seq<Column>, fks: seq<ForeignKey>)
    requires Presentable(k, cols) && AllPrintable(k, Defs(cols))
    ensures S.TableItems(k, cols, fks) ==
            ColumnLines(k, Defs(cols)) + KeyLines(KeyNames(k, Defs(cols))) + S.ForeignKeyLines(k, fks)
    ensures S.TableItems(k, cols, fks) != []
  {
    SameLines(k, cols);
    SameKeyNames(k, cols);
    assert |ColumnLines(k, Defs(cols))| > 0;
  }

  function TableDef(schema: string, name: string, cols: seq<Column>): CreateTableDef {
    CreateTableDef(schema, name, Defs(cols), false)
  }

  lemma StatementForm(k: Kind, schema: string, name: string, cols: seq<Column>, fks: seq<ForeignKey>, table: string)
    requires S.TableItems(k, cols, fks) != []
    ensures S.TableStatement(k, table, cols, fks) ==
            TableHead(TableDef(schema, name, cols), table) + (Join(S.TableItems(k, cols, fks), ",\n") + "\n)")
  {
    var head, body := "CREATE TABLE " + table + " (\n", Join(S.TableItems(k, cols, fks), ",\n");
    assert "CREATE TABLE " + "" == "CREATE TABLE ";
    Assoc(head, body + "\n", ")");
    assert body + "\n" + ")" == body + "\n)";
  }

  /** Without foreign keys the script's table statement is the statement that creates the table, so that
      what reads back of it is what RoundTrip says. */
  lemma StatementCreatesTable(k: Kind, schema: string, name: string, cols: seq<Column>)
    requires QualifiedQuotable(k, schema, name) && Presentable(k, cols)
    ensures CreateTableText(k, TableDef(schema, name, cols)) ==
            Ok(S.TableStatement(k, Qualified(k, schema, name).value, cols, []))
  {
    var table, def := Qualified(k, schema, name).value, TableDef(schema, name, cols);
    PresentablePrints(k, cols);
    SameItems(k, cols, []);
    StatementForm(k, schema, name, cols, [], table);
    QualifiedForm(k, schema, name);
    var lines := ColumnLines(k, Defs(cols)) + KeyLines(KeyNames(k, Defs(cols)));
    assert lines + [] == lines;
    Assoc(TableHead(def, table), TableBody(k, Defs(cols)), "\n)");
  }

  // ---------- reading foreign keys ----------

  /** What a FOREIGN KEY line says. */
  datatype Reference = Reference(columns: seq<string>, schema: string, table: string, refColumns: seq<string>)

  function Said(fk: ForeignKey): Reference { Reference(fk.columns, fk.refSchema, fk.refTable, fk.refColumns) }

  function AllSaid(fks: seq<ForeignKey>): seq<Reference> {
    seq(|fks|, i requires 0 <= i < |fks| => Said(fks[i]))
  }

  function Skip(word: string, s: string): (r: Option<string>)
    ensures r.Some? ==> |r.value| <= |s|
  {
    if word <= s then Some(s[|word|..]) else None
  }

  /** Names with commas between them, then the word. */
  function ReadNames(k: Kind, s: string, word: string): (r: Option<Read<seq<string>>>)
    ensures r.Some? ==> |r.value.rest| < |s|
  {
    match ReadIdents(k, s)
    case None => None
    case Some(Read(names, rest)) =>
      ReadIdentsShortens(k, s);
      match Skip(word, rest)
      case None => None
      case Some(rest') => Some(Read(names, rest'))
  }

  lemma {:induction false} ReadIdentsShortens(k: Kind, s: string)
    ensures ReadIdents(k, s).Some? ==> |ReadIdents(k, s).value.rest| < |s|
    decreases |s|
  {
    match ReadIdent(k, s)
    case None =>
    case Some(Read(_, rest)) => if ", " <= rest { ReadIdentsShortens(k, rest[2..]); }
  }

  const FOREIGN := "  FOREIGN KEY ("
  const REFERENCES := ") REFERENCES "

  /** The table and its columns, after REFERENCES. */
  function ReadTarget(k: Kind, s: string): (r: Option<Read<((string, string), seq<string>)>>)
    ensures r.Some? ==> |r.value.rest| < |s|
  {
    match ReadQualified(k, s)
    case None => None
    case Some(Read(table, s1)) =>
      match Skip(" (", s1)
      case None => None
      case Some(s2) =>
        match ReadNames(k, s2, ")")
        case None => None
        case Some(Read(names, rest)) => Some(Read((table, names), rest))
  }

  function ReadForeignKey(k: Kind, s: string): (r: Option<Read<Reference>>)
    ensures r.Some? ==> |r.value.rest| < |s|
  {
    match Skip(FOREIGN, s)
    case None => None
    case Some(s1) =>
      match ReadNames(k, s1, REFERENCES)
      case None => None
      case Some(Read(columns, s2)) =>
        match ReadTarget(k, s2)
        case None => None
        case Some(Read(((schema, table), refColumns), rest)) =>
          Some(Read(Reference(columns, schema, table, refColumns), rest))
  }

  /** Foreign keys on lines of their own, to the closing bracket. */
  function ReadForeignKeys(k: Kind, s: string): Option<seq<Reference>>
    decreases |s|
  {
    match ReadForeignKey(k, s)
    case None => None
    case Some(Read(fk, rest)) =>
      if rest == "\n)" then Some([fk])
      else
        match Skip(",\n", rest)
        case None => None
        case Some(more) =>
          match ReadForeignKeys(k, more)
          case None => None
          case Some(fks) => Some([fk] + fks)
  }

  // ---------- foreign keys read back ----------

  predicate AllQuotable(k: Kind, names: seq<string>) {
    names != [] && forall i :: 0 <= i < |names| ==> Quotable(k, names[i])
  }

  /** A foreign key with columns on both sides and names that can be quoted. */
  predicate Sound(k: Kind, fk: ForeignKey) {
    AllQuotable(k, fk.columns) && AllQuotable(k, fk.refColumns) && QualifiedQuotable(k, fk.refSchema, fk.refTable)
  }

  lemma {:induction false} QuotedAllIsQuoteAll(k: Kind, names: seq<string>)
    requires forall i :: 0 <= i < |names| ==> Quotable(k, names[i])
    ensures QuoteAll(k, names) == Ok(S.QuotedAll(k, names))
  {
    if names != [] { QuotedAllIsQuoteAll(k, names[1..]); }
  }

  lemma SkipWord(word: string, s: string)
    ensures Skip(word, word + s) == Some(s)
  {
    DropPrefix(word, s);
  }

  lemma ReadBackNames(k: Kind, names: seq<string>, word: string, rest: string)
    requires AllQuotable(k, names) && word != "" && word[0] == ')'
    ensures ReadNames(k, Join(S.QuotedAll(k, names), ", ") + (word + rest), word) == Some(Read(names, rest))
  {
    QuotedAllIsQuoteAll(k, names);
    assert (word + rest)[0] == ')';
    ReadBackIdents(k, names, S.QuotedAll(k, names), word + rest);
    SkipWord(word, rest);
  }

  lemma ReadBackTarget(k: Kind, schema: string, table: string, names: seq<string>, rest: string)
    requires QualifiedQuotable(k, schema, table) && AllQuotable(k, names)
    ensures ReadTarget(k, S.QuotedQualified(k, schema, table)
                          + (" (" + (Join(S.QuotedAll(k, names), ", ") + (")" + rest)))) ==
            Some(Read(((schema, table), names), rest))
  {
    var body := Join(S.QuotedAll(k, names), ", ") + (")" + rest);
    QualifiedForm(k, schema, table);
    ReadBackQualified(k, schema, table, " (" + body);
    SkipWord(" (", body);
    ReadBackNames(k, names, ")", rest);
  }

  lemma ReadForeignKeyParts(k: Kind, s1: string, columns: seq<string>, s2: string,
                            target: ((string, string), seq<string>), rest: string)
    requires ReadNames(k, s1, REFERENCES) == Some(Read(columns, s2)) && ReadTarget(k, s2) == Some(Read(target, rest))
    ensures ReadForeignKey(k, FOREIGN + s1) == Some(Read(Reference(columns, target.0.0, target.0.1, target.1), rest))
  {
    SkipWord(FOREIGN, s1);
  }

  lemma Nested(foreign: string, columns: string, references: string, table: string, on: string, refColumns: string,
               end: string, rest: string)
    ensures foreign + columns + references + table + on + refColumns + end + rest ==
            foreign + (columns + (references + (table + (on + (refColumns + (end + rest))))))
  {
    var a := foreign + columns + references + table;
    Reassociate(a, on, refColumns, end);
    Assoc(a, on + (refColumns + end), rest);
    Assoc(on, refColumns + end, rest);
    Assoc(refColumns, end, rest);
    var tail := on + (refColumns + (end + rest));
    Reassociate(foreign, columns, references, table);
    Assoc(foreign, columns + (references + table), tail);
    Assoc(columns, references + table, tail);
    Assoc(references, table, tail);
  }

  /** A FOREIGN KEY line says which columns reference which columns of which table. */
  lemma ReadBackForeignKey(k: Kind, fk: ForeignKey, rest: string)
    requires Sound(k, fk)
    ensures ReadForeignKey(k, S.ForeignKeyLine(k, fk) + rest) == Some(Read(Said(fk), rest))
  {
    var columns, refColumns := Join(S.QuotedAll(k, fk.columns), ", "), Join(S.QuotedAll(k, fk.refColumns), ", ");
    var table := S.QuotedQualified(k, fk.refSchema, fk.refTable);
    var s2 := table + (" (" + (refColumns + (")" + rest)));
    Nested(FOREIGN, columns, REFERENCES, table, " (", refColumns, ")", rest);
    ReadBackNames(k, fk.columns, REFERENCES, s2);
    ReadBackTarget(k, fk.refSchema, fk.refTable, fk.refColumns, rest);
    ReadForeignKeyParts(k, columns + (REFERENCES + s2), fk.columns, s2, ((fk.refSchema, fk.refTable), fk.refColumns),
                        rest);
  }

  lemma ReadForeignKeysLast(k: Kind, s: string, fk: Reference)
    requires ReadForeignKey(k, s) == Some(Read(fk, "\n)"))
    ensures ReadForeignKeys(k, s) == Some([fk])
  {
  }

  lemma ReadForeignKeysMore(k: Kind, s: string, fk: Reference, more: string, fks: seq<Reference>)
    requires ReadForeignKey(k, s) == Some(Read(fk, ",\n" + more)) && ReadForeignKeys(k, more) == Some(fks)
    ensures ReadForeignKeys(k, s) == Some([fk] + fks)
  {
    SkipWord(",\n", more);
    assert (",\n" + more)[0] == ',';
  }

  function LinesText(lines: seq<string>): string { Join(lines, ",\n") + "\n)" }

  lemma LinesCons(line: string, lines: seq<string>)
    requires lines != []
    ensures LinesText([line] + lines) == line + (",\n" + LinesText(lines))
  {
    JoinCons(line, lines, ",\n");
    var j := Join(lines, ",\n");
    Assoc(line, ",\n" + j, "\n)");
    Assoc(",\n", j, "\n)");
  }

  lemma LinesOne(line: string)
    ensures LinesText([line]) == line + "\n)"
  {
  }

  lemma KeysCons(k: Kind, fks: seq<ForeignKey>)
    requires fks != []
    ensures S.ForeignKeyLines(k, fks) == [S.ForeignKeyLine(k, fks[0])] + S.ForeignKeyLines(k, fks[1..])
    ensures AllSaid(fks) == [Said(fks[0])] + AllSaid(fks[1..])
    ensures S.ForeignKeyLines(k, fks[1..]) == [] <==> |fks| == 1
  {
  }

  lemma {:induction false} ReadBackForeignKeys(k: Kind, fks: seq<ForeignKey>)
    requires fks != [] && forall i :: 0 <= i < |fks| ==> Sound(k, fks[i])
    ensures ReadForeignKeys(k, LinesText(S.ForeignKeyLines(k, fks))) == Some(AllSaid(fks))
  {
    KeysCons(k, fks);
    OneKeyReadBack(k, fks[0], S.ForeignKeyLines(k, fks[1..]));
    if |fks| > 1 {
      ReadBackForeignKeys(k, fks[1..]);
    } else {
      assert S.ForeignKeyLines(k, fks[1..]) == [] && AllSaid(fks[1..]) == [];
      assert [S.ForeignKeyLine(k, fks[0])] + [] == [S.ForeignKeyLine(k, fks[0])];
      assert [Said(fks[0])] + [] == [Said(fks[0])];
    }
  }

  lemma OneKeyReadBack(k: Kind, fk: ForeignKey, lines: seq<string>)
    requires Sound(k, fk)
    ensures var line := S.ForeignKeyLine(k, fk);
            && ReadForeignKeys(k, LinesText([line])) == Some([Said(fk)])
            && (lines != [] && ReadForeignKeys(k, LinesText(lines)).Some? ==>
                  ReadForeignKeys(k, LinesText([line] + lines)) ==
                  Some([Said(fk)] + ReadForeignKeys(k, LinesText(lines)).value))
  {
    var line, more := S.ForeignKeyLine(k, fk), LinesText(lines);
    LinesOne(line);
    ReadBackForeignKey(k, fk, "\n)");
    ReadForeignKeysLast(k, line + "\n)", Said(fk));
    if lines != [] && ReadForeignKeys(k, more).Some? {
      LinesCons(line, lines);
      ReadBackForeignKey(k, fk, ",\n" + more);
      ReadForeignKeysMore(k, line + (",\n" + more), Said(fk), more, ReadForeignKeys(k, more).value);
    }
  }

  // ---------- the whole table statement ----------

  /** What follows the columns: the key line, the foreign keys, both or nothing. */
  function ReadConstraints(k: Kind, s: string): Option<(seq<string>, seq<Reference>)> {
    if ReadKey(k, s).Some? then Some((ReadKey(k, s).value, []))
    else
      match Skip(KEY_START, s)
      case None =>
        (match ReadForeignKeys(k, s)
         case None => None
         case Some(fks) => Some(([], fks)))
      case Some(s') =>
        match ReadNames(k, s', "),\n")
        case None => None
        case Some(Read(names, rest)) =>
          match ReadForeignKeys(k, rest)
          case None => None
          case Some(fks) => Some((names, fks))
  }

  function ReadBody(k: Kind, s: string): Option<(seq<ColumnDef>, seq<Reference>)> {
    var raws := ReadColumns(k, s);
    match ReadConstraints(k, raws.rest)
    case None => None
    case Some((keys, fks)) =>
      match Interpret(raws.value, keys, keys != [] || fks != [])
      case None => None
      case Some(cols) => Some((cols, fks))
  }

  function ParseTable(k: Kind, text: string): Option<(CreateTableDef, seq<Reference>)> {
    match Skip(HEAD, text)
    case None => None
    case Some(s) =>
      match ReadQualified(k, s)
      case None => None
      case Some(Read((schema, name), s1)) =>
        match Skip(OPEN, s1)
        case None => None
        case Some(body) =>
          match ReadBody(k, body)
          case None => None
          case Some((cols, fks)) => Some((CreateTableDef(schema, name, cols, false), fks))
  }

  /** A line that starts like a constraint is not taken for a column. */
  lemma NoColumn(k: Kind, s: string)
    requires |s| > 2 && s[2] != QuoteChar(k)
    ensures ReadColumns(k, s) == Read([], s)
  {
    assert s[2..][0] == s[2];
    assert ReadColumn(k, s) == None;
  }

  lemma {:induction false} ReadBackLines(k: Kind, cols: seq<ColumnDef>, lines: seq<string>)
    requires AllPrintable(k, cols) && lines != [] && |lines[0]| > 2 && lines[0][2] != QuoteChar(k)
    requires forall i :: 0 <= i < |cols| ==> '\n' !in ColumnText(cols[i])
    ensures ReadColumns(k, LinesText(ColumnLines(k, cols) + lines)) == Read(Raws(cols, true), LinesText(lines))
  {
    if cols == [] {
      assert ColumnLines(k, cols) + lines == lines;
      FirstLine(lines);
      NoColumn(k, LinesText(lines));
    } else {
      var c, rest := cols[0], cols[1..];
      ColumnNameQuotable(k, c);
      RawsCons(cols, true);
      assert Raws(cols, true) == [Raws(cols, true)[0]] + Raws(rest, true);
      ItemsCons(k, cols, lines);
      ReadColumnAndMore(k, c, Join(ColumnLines(k, rest) + lines, ",\n"));
      ReadBackLines(k, rest, lines);
    }
  }

  lemma FirstLine(lines: seq<string>)
    requires lines != []
    ensures lines[0] <= LinesText(lines)
  {
  }

  lemma ConstraintStarts(k: Kind, names: seq<string>, fks: seq<ForeignKey>)
    requires fks != []
    ensures var lines := KeyLines(names) + S.ForeignKeyLines(k, fks);
            lines != [] && |lines[0]| > 2 && lines[0][2] != QuoteChar(k)
  {
    if names != [] {
      assert KeyLines(names)[0][2] == 'P';
    } else {
      assert S.ForeignKeyLine(k, fks[0])[2] == 'F';
    }
  }

  lemma NotKeyAlone(k: Kind, s: string, names: seq<string>, rest: string)
    requires ReadIdents(k, s) == Some(Read(names, "),\n" + rest))
    ensures ReadKey(k, KEY_START + s) == None
  {
    DropPrefix(KEY_START, s);
    assert ("),\n" + rest)[1] == ',';
    assert (KEY_START + s)[0] == ' ';
  }

  lemma NamesThenMore(k: Kind, s: string, names: seq<string>, rest: string)
    requires ReadIdents(k, s) == Some(Read(names, "),\n" + rest))
    ensures ReadNames(k, s, "),\n") == Some(Read(names, rest))
  {
    SkipWord("),\n", rest);
  }

  lemma ConstraintParts(k: Kind, s: string, s': string, names: seq<string>, rest: string, fks: seq<Reference>)
    requires ReadKey(k, s) == None && Skip(KEY_START, s) == Some(s')
    requires ReadNames(k, s', "),\n") == Some(Read(names, rest)) && ReadForeignKeys(k, rest) == Some(fks)
    ensures ReadConstraints(k, s) == Some((names, fks))
  {
  }

  lemma KeyThenForeign(k: Kind, names: seq<string>, quoted: seq<string>, rest: string, fks: seq<Reference>)
    requires names != [] && QuoteAll(k, names) == Ok(quoted) && ReadForeignKeys(k, rest) == Some(fks)
    ensures ReadConstraints(k, KEY_START + (Join(quoted, ", ") + ("),\n" + rest))) == Some((names, fks))
  {
    var s' := Join(quoted, ", ") + ("),\n" + rest);
    assert ("),\n" + rest)[0] == ')';
    ReadBackIdents(k, names, quoted, "),\n" + rest);
    NotKeyAlone(k, s', names, rest);
    SkipWord(KEY_START, s');
    NamesThenMore(k, s', names, rest);
    ConstraintParts(k, KEY_START + s', s', names, rest, fks);
  }

  lemma ForeignOnly(k: Kind, s: string, fks: seq<Reference>)
    requires |s| > 2 && s[2] != 'P' && ReadForeignKeys(k, s) == Some(fks)
    ensures ReadConstraints(k, s) == Some(([], fks))
  {
    NoKey(k, s);
  }

  lemma ForeignStart(k: Kind, fk: ForeignKey)
    ensures |S.ForeignKeyLine(k, fk)| > 2 && S.ForeignKeyLine(k, fk)[2] == 'F'
  {
  }

  lemma NoKey(k: Kind, s: string)
    requires |s| > 2 && s[2] != 'P'
    ensures ReadKey(k, s) == None && Skip(KEY_START, s) == None
  {
    assert KEY_START[2] == 'P';
  }

  lemma KeyLineText(joined: string, text: string)
    ensures "  PRIMARY KEY (" + joined + ")" + (",\n" + text) == KEY_START + (joined + ("),\n" + text))
  {
    Reassociate(KEY_START, joined, ")", ",\n" + text);
    assert ")" + (",\n" + text) == "),\n" + text;
  }

  lemma ReadBackConstraints(k: Kind, names: seq<string>, quoted: seq<string>, fks: seq<ForeignKey>)
    requires QuoteAll(k, names) == Ok(quoted) && fks != [] && forall i :: 0 <= i < |fks| ==> Sound(k, fks[i])
    ensures ReadConstraints(k, LinesText(KeyLines(quoted) + S.ForeignKeyLines(k, fks))) == Some((names, AllSaid(fks)))
  {
    var lines := S.ForeignKeyLines(k, fks);
    ReadBackForeignKeys(k, fks);
    if quoted == [] {
      assert KeyLines(quoted) + lines == lines;
      FirstLine(lines);
      ForeignStart(k, fks[0]);
      ForeignOnly(k, LinesText(lines), AllSaid(fks));
    } else {
      LinesCons(KeyLines(quoted)[0], lines);
      KeyLineText(Join(quoted, ", "), LinesText(lines));
      KeyThenForeign(k, names, quoted, LinesText(lines), AllSaid(fks));
    }
  }

  lemma ParseTableHead(k: Kind, schema: string, name: string, cols: seq<Column>, body: string,
                       read: (seq<ColumnDef>, seq<Reference>))
    requires QualifiedQuotable(k, schema, name) && ReadBody(k, body) == Some(read)
    ensures ParseTable(k, TableHead(TableDef(schema, name, cols), Qualified(k, schema, name).value) + body) ==
            Some((CreateTableDef(schema, name, read.0, false), read.1))
  {
    var table := Qualified(k, schema, name).value;
    assert HEAD + "" == HEAD;
    Reassociate(HEAD, table, OPEN, body);
    SkipWord(HEAD, table + (OPEN + body));
    ReadBackQualified(k, schema, name, OPEN + body);
    SkipWord(OPEN, body);
  }

  lemma ReadBodyParts(k: Kind, s: string, raws: seq<RawColumn>, rest: string, keys: seq<string>, fks: seq<Reference>,
                      cols: seq<ColumnDef>)
    requires ReadColumns(k, s) == Read(raws, rest) && ReadConstraints(k, rest) == Some((keys, fks))
    requires fks != [] && Interpret(raws, keys, true) == Some(cols)
    ensures ReadBody(k, s) == Some((cols, fks))
  {
  }

  lemma NoNewline(c: ColumnDef)
    requires Unambiguous(TrimType(c))
    ensures '\n' !in ColumnText(c)
  {
  }

  lemma InterpretedBack(cols: seq<ColumnDef>)
    requires Recoverable(cols)
    ensures Interpret(Raws(cols, true), KeyColumns(cols), true) == Some(TrimTypes(cols))
  {
    forall i | 0 <= i < |cols| ensures cols[i].name in KeyColumns(cols) <==> cols[i].isPK {
      KeyColumnsDecide(cols, i);
    }
    InterpretRaws(cols, KeyColumns(cols), true);
  }

  lemma ReadBackBody(k: Kind, cols: seq<ColumnDef>, fks: seq<ForeignKey>)
    requires AllPrintable(k, cols) && Recoverable(cols) && fks != [] && forall i :: 0 <= i < |fks| ==> Sound(k, fks[i])
    ensures ReadBody(k, LinesText(ColumnLines(k, cols) + (KeyLines(KeyNames(k, cols)) + S.ForeignKeyLines(k, fks)))) ==
            Some((TrimTypes(cols), AllSaid(fks)))
  {
    var names := KeyNames(k, cols);
    var lines := KeyLines(names) + S.ForeignKeyLines(k, fks);
    InterpretedBack(cols);
    forall i | 0 <= i < |cols| ensures '\n' !in ColumnText(cols[i]) {
      NoNewline(cols[i]);
    }
    ConstraintStarts(k, names, fks);
    ReadBackLines(k, cols, lines);
    KeyColumnsQuoted(k, cols);
    ReadBackConstraints(k, KeyColumns(cols), names, fks);
    ReadBodyParts(k, LinesText(ColumnLines(k, cols) + lines), Raws(cols, true), LinesText(lines), KeyColumns(cols),
                  AllSaid(fks), TrimTypes(cols));
  }

  lemma StatementReadsWhole(k: Kind, schema: string, name: string, cols: seq<Column>, fks: seq<ForeignKey>)
    requires QualifiedQuotable(k, schema, name) && Presentable(k, cols) && Recoverable(Defs(cols))
    requires fks != [] && forall i :: 0 <= i < |fks| ==> Sound(k, fks[i])
    ensures ParseTable(k, S.TableStatement(k, Qualified(k, schema, name).value, cols, fks)) ==
            Some((TableDef(schema, name, cols), AllSaid(fks)))
  {
    var table, defs := Qualified(k, schema, name).value, Defs(cols);
    PresentablePrints(k, cols);
    SameItems(k, cols, fks);
    StatementForm(k, schema, name, cols, fks, table);
    Assoc(ColumnLines(k, defs), KeyLines(KeyNames(k, defs)), S.ForeignKeyLines(k, fks));
    ReadBackBody(k, defs, fks);
    ParseTableHead(k, schema, name, cols, LinesText(S.TableItems(k, cols, fks)), (defs, AllSaid(fks)));
  }

  lemma ReadBodyIsUnambiguous(k: Kind, s: string)
    requires ReadBody(k, s).Some?
    ensures var cols := ReadBody(k, s).value.0;
            KeysAgree(cols) && forall i :: 0 <= i < |cols| ==> Unambiguous(cols[i])
  {
    var raws := ReadColumns(k, s);
    var (keys, fks) := ReadConstraints(k, raws.rest).value;
    ReadColumnsHaveNoNewline(k, s);
    InterpretIsUnambiguous(raws.value, keys, keys != [] || fks != []);
  }

  lemma ReadTableIsRecoverable(k: Kind, text: string, cols: seq<Column>)
    requires Presentable(k, cols)
    requires ParseTable(k, text).Some? && ParseTable(k, text).value.0.columns == Defs(cols)
    ensures Recoverable(Defs(cols))
  {
    var s1 := ReadQualified(k, Skip(HEAD, text).value).value.rest;
    ReadBodyIsUnambiguous(k, Skip(OPEN, s1).value);
    PresentablePrints(k, cols);
    forall i | 0 <= i < |cols| ensures Unambiguous(TrimType(Defs(cols)[i])) {
      TrimTypesAt(Defs(cols), i);
    }
  }

  /** A table statement with foreign keys says what the table is: its name, its columns with type, NOT NULL,
      default and key, and which columns reference which columns of which table, all in order. It does so if
      and only if the columns are recoverable, which is the condition for a statement without foreign keys. */
  lemma StatementReadsBack(k: Kind, schema: string, name: string, cols: seq<Column>, fks: seq<ForeignKey>)
    requires QualifiedQuotable(k, schema, name) && Presentable(k, cols)
    requires fks != [] && forall i :: 0 <= i < |fks| ==> Sound(k, fks[i])
    ensures ParseTable(k, S.TableStatement(k, Qualified(k, schema, name).value, cols, fks)) ==
            Some((TableDef(schema, name, cols), AllSaid(fks)))
            <==> Recoverable(Defs(cols))
  {
    var text := S.TableStatement(k, Qualified(k, schema, name).value, cols, fks);
    if Recoverable(Defs(cols)) {
      StatementReadsWhole(k, schema, name, cols, fks);
    } else if ParseTable(k, text) == Some((TableDef(schema, name, cols), AllSaid(fks))) {
      ReadTableIsRecoverable(k, text, cols);
    }
  }

  // ---------- the index statements ----------

  function IndexDefOf(schema: string, name: string, ix: IndexInfo): IndexDef {
    IndexDef(ix.name, schema, name, ix.columns, ix.unique, "")
  }

  lemma IndexStatementIsCreateIndex(k: Kind, schema: string, name: string, ix: IndexInfo)
    requires QualifiedQuotable(k, schema, name) && Quotable(k, ix.name) && AllQuotable(k, ix.columns)
    ensures CreateIndexText(k, IndexDefOf(schema, name, ix)) ==
            Ok(S.IndexStatement(k, Qualified(k, schema, name).value, ix))
  {
    var table, cols := Qualified(k, schema, name).value, Join(S.QuotedAll(k, ix.columns), ", ");
    var q, create := QuoteIdent(k, ix.name).value, "CREATE " + (if ix.unique then "UNIQUE " else "");
    QualifiedForm(k, schema, name);
    QuotedAllIsQuoteAll(k, ix.columns);
    IndexTexts(create, "INDEX ", q, " ON ", table, " (", cols, ")");
  }

  lemma IndexTexts(create: string, index: string, q: string, on: string, table: string, open: string, cols: string,
                   close: string)
    ensures create + (index + q + on + table) + "" + (open + cols + close) ==
            create + index + q + on + table + open + cols + close
  {
    Reassociate(index, q, on, table);
    Reassociate(create, index, q, on + table);
    Assoc(create + index + q, on, table);
    assert create + (index + q + on + table) + "" == create + (index + q + on + table);
    Reassociate(create + index + q + on + table, open, cols, close);
    Assoc(open, cols, close);
  }

  lemma IndexesCons(k: Kind, table: string, idx: seq<IndexInfo>)
    requires idx != []
    ensures idx[0].primary ==>
              S.IndexStatements(k, table, idx) == S.IndexStatements(k, table, idx[1..])
              && S.NonPrimary(idx) == S.NonPrimary(idx[1..])
    ensures !idx[0].primary ==>
              S.IndexStatements(k, table, idx) ==
              [S.IndexStatement(k, table, idx[0])] + S.IndexStatements(k, table, idx[1..])
              && S.NonPrimary(idx) == [idx[0]] + S.NonPrimary(idx[1..])
  {
  }

  lemma IndexReadsBack(k: Kind, schema: string, name: string, ix: IndexInfo)
    requires QualifiedQuotable(k, schema, name) && Quotable(k, ix.name) && AllQuotable(k, ix.columns)
    ensures IndexParser.ParseCreateIndex(k, S.IndexStatement(k, Qualified(k, schema, name).value, ix)) ==
            Some(IndexDefOf(schema, name, ix))
  {
    IndexStatementIsCreateIndex(k, schema, name, ix);
    IndexParser.IndexRoundTrip(k, IndexDefOf(schema, name, ix));
  }

  lemma {:induction false} IndexStatementAt(k: Kind, table: string, idx: seq<IndexInfo>, i: nat)
    requires i < |S.NonPrimary(idx)|
    ensures i < |S.IndexStatements(k, table, idx)|
    ensures S.IndexStatements(k, table, idx)[i] == S.IndexStatement(k, table, S.NonPrimary(idx)[i])
  {
    IndexesCons(k, table, idx);
    if idx[0].primary {
      IndexStatementAt(k, table, idx[1..], i);
    } else if i > 0 {
      IndexStatementAt(k, table, idx[1..], i - 1);
    }
  }

  /** The i-th index statement of the script creates the i-th index that is not the primary key's. */
  lemma IndexStatementsReadBack(k: Kind, schema: string, name: string, idx: seq<IndexInfo>, i: nat)
    requires QualifiedQuotable(k, schema, name) && i < |S.NonPrimary(idx)|
    requires Quotable(k, S.NonPrimary(idx)[i].name) && AllQuotable(k, S.NonPrimary(idx)[i].columns)
    ensures var stmts := S.IndexStatements(k, Qualified(k, schema, name).value, idx);
            i < |stmts| &&
            IndexParser.ParseCreateIndex(k, stmts[i]) == Some(IndexDefOf(schema, name, S.NonPrimary(idx)[i]))
  {
    IndexStatementAt(k, Qualified(k, schema, name).value, idx, i);
    IndexReadsBack(k, schema, name, S.NonPrimary(idx)[i]);
  }
}
