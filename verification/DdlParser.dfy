/** A reader for the CREATE TABLE text of DdlPrinter, and the exact condition under which
    it gives back the definition that was printed. */
module DdlParser {
  import opened Text
  import opened Identifiers
  import opened DdlPrinter

  /** One line of the body: the column name and everything up to the end of the line. */
  datatype RawColumn = RawColumn(name: string, text: string)

  // ---------- reading lines ----------

  function ReadColumn(k: Kind, s: string): (r: Option<Read<RawColumn>>)
    ensures r.Some? ==> |r.value.rest| < |s|
  {
    if !("  " <= s) then None
    else
      match ReadIdent(k, s[2..])
      case None => None
      case Some(Read(name, rest)) =>
        if rest == "" || rest[0] != ' ' then None
        else
          var end := IndexOf(rest[1..], '\n');
          if end == |rest| - 1 then None
          else Some(Read(RawColumn(name, rest[1..][..end]), rest[1..][end + 1..]))
  }

  function ReadColumns(k: Kind, s: string): Read<seq<RawColumn>>
    decreases |s|
  {
    match ReadColumn(k, s)
    case None => Read([], s)
    case Some(Read(raw, rest)) =>
      var more := ReadColumns(k, rest);
      Read([raw] + more.value, more.rest)
  }

  function ReadIdents(k: Kind, s: string): Option<Read<seq<string>>>
    decreases |s|
  {
    match ReadIdent(k, s)
    case None => None
    case Some(Read(name, rest)) =>
      if ", " <= rest then
        match ReadIdents(k, rest[2..])
        case None => None
        case Some(Read(names, rest')) => Some(Read([name] + names, rest'))
      else Some(Read([name], rest))
  }

  const KEY_START := "  PRIMARY KEY ("

  /** What follows the columns: nothing, or the key line. */
  function ReadKey(k: Kind, s: string): Option<seq<string>> {
    if s == ")" then Some([])
    else if !(KEY_START <= s) then None
    else
      match ReadIdents(k, s[|KEY_START|..])
      case None => None
      case Some(Read(names, rest)) => if rest == ")\n)" then Some(names) else None
  }

  // ---------- reading the text of a column ----------

  const NOT_NULL := " NOT NULL"
  const DEFAULT := " DEFAULT"
  const DEFAULT_VALUE := " DEFAULT "

  predicate AtSuffix(t: string) { NOT_NULL <= t || DEFAULT <= t }

  /** Where the type ends: at the first NOT NULL or DEFAULT. */
  function TypeEnd(t: string): (i: nat)
    ensures i <= |t|
  {
    if t == "" || AtSuffix(t) then 0 else 1 + TypeEnd(t[1..])
  }

  function ReadDefault(t: string): Option<string> {
    if t == "" then Some("")
    else if DEFAULT_VALUE <= t && |t| > |DEFAULT_VALUE| then Some(t[|DEFAULT_VALUE|..])
    else None
  }

  function ReadText(t: string): Option<(string, bool, string)> {
    var end := TypeEnd(t);
    match ReadSuffix(t[end..])
    case None => None
    case Some((nullable, default)) => Some((t[..end], nullable, default))
  }

  function ReadSuffix(t: string): Option<(bool, string)> {
    var nullable := !(NOT_NULL <= t);
    match ReadDefault(if nullable then t else t[|NOT_NULL|..])
    case None => None
    case Some(default) => Some((nullable, default))
  }

  /** Strips the comma that every line but the last ends with. */
  function StripComma(t: string, last: bool): Option<string> {
    if last then Some(t)
    else if t != "" && t[|t| - 1] == ',' then Some(t[..|t| - 1])
    else None
  }

  /** The columns of the lines; `more` says that something follows the last of them. */
  function Interpret(raws: seq<RawColumn>, keys: seq<string>, more: bool): Option<seq<ColumnDef>> {
    if raws == [] then Some([])
    else
      match StripComma(raws[0].text, |raws| == 1 && !more)
      case None => None
      case Some(t) =>
        match ReadText(t)
        case None => None
        case Some((dataType, nullable, default)) =>
          match Interpret(raws[1..], keys, more)
          case None => None
          case Some(cols) =>
            Some([ColumnDef(raws[0].name, dataType, nullable, default, raws[0].name in keys)] + cols)
  }

  function ParseBody(k: Kind, s: string): Option<seq<ColumnDef>> {
    var raws := ReadColumns(k, s);
    match ReadKey(k, raws.rest)
    case None => None
    case Some(keys) => Interpret(raws.value, keys, keys != [])
  }

  const HEAD := "CREATE TABLE "
  const IF_NOT_EXISTS := "IF NOT EXISTS "
  const OPEN := " (\n"

  /** Everything from the table name on. */
  function ParseNamed(k: Kind, ifNotExists: bool, t: string): Option<CreateTableDef> {
    match ReadQualified(k, t)
    case None => None
    case Some(Read((schema, name), rest)) =>
      if !(OPEN <= rest) then None
      else
        match ParseBody(k, rest[|OPEN|..])
        case None => None
        case Some(cols) => Some(CreateTableDef(schema, name, cols, ifNotExists))
  }

  function ParseCreateTable(k: Kind, text: string): Option<CreateTableDef> {
    if !(HEAD <= text) then None
    else
      var t := text[|HEAD|..];
      if IF_NOT_EXISTS <= t then ParseNamed(k, true, t[|IF_NOT_EXISTS|..]) else ParseNamed(k, false, t)
  }

  // ---------- the condition ----------

  /** The definition as printed: types without the white space around them. */
  function Trimmed(def: CreateTableDef): CreateTableDef {
    def.(columns := TrimTypes(def.columns))
  }

  function TrimType(c: ColumnDef): ColumnDef { c.(dataType := Trim(c.dataType)) }

  function TrimTypes(cols: seq<ColumnDef>): (r: seq<ColumnDef>)
    ensures |r| == |cols|
  {
    if cols == [] then [] else [TrimType(cols[0])] + TrimTypes(cols[1..])
  }

  lemma {:induction false} TrimTypesAt(cols: seq<ColumnDef>, i: nat)
    requires i < |cols|
    ensures TrimTypes(cols)[i] == TrimType(cols[i])
  {
    if i > 0 { TrimTypesAt(cols[1..], i - 1); }
  }

  /** No newline in type or default, and the type does not spell out a suffix of its own. */
  predicate Unambiguous(c: ColumnDef) {
    '\n' !in c.dataType && '\n' !in c.default && TypeEnd(c.dataType) == |c.dataType|
  }

  /** Columns of one name agree on being part of the key (columns of distinct names always do). */
  predicate KeysAgree(cols: seq<ColumnDef>) {
    forall i, j :: 0 <= i < |cols| && 0 <= j < |cols| && cols[i].name == cols[j].name ==> cols[i].isPK == cols[j].isPK
  }

  predicate Recoverable(cols: seq<ColumnDef>) {
    KeysAgree(cols) && forall i :: 0 <= i < |cols| ==> Unambiguous(TrimType(cols[i]))
  }

  // ---------- whatever is read is recoverable ----------

  lemma {:induction false} TypeEndOfPrefix(t: string)
    ensures TypeEnd(t[..TypeEnd(t)]) == TypeEnd(t)
  {
    var dt := t[..TypeEnd(t)];
    if dt != "" {
      assert dt[1..] == t[1..][..TypeEnd(t[1..])];
      TypeEndOfPrefix(t[1..]);
      assert dt <= t;
      assert !AtSuffix(dt);
    }
  }

  lemma ReadTextUnambiguous(t: string)
    requires '\n' !in t && ReadText(t).Some?
    ensures var (dataType, nullable, default) := ReadText(t).value;
            '\n' !in dataType && '\n' !in default && TypeEnd(dataType) == |dataType|
  {
    TypeEndOfPrefix(t);
  }

  lemma {:induction false} ReadColumnsHaveNoNewline(k: Kind, s: string)
    ensures forall i :: 0 <= i < |ReadColumns(k, s).value| ==> '\n' !in ReadColumns(k, s).value[i].text
    decreases |s|
  {
    match ReadColumn(k, s)
    case None =>
    case Some(Read(raw, rest)) =>
      ReadColumnsHaveNoNewline(k, rest);
  }

  lemma {:induction false} InterpretIsUnambiguous(raws: seq<RawColumn>, keys: seq<string>, more: bool)
    requires forall i :: 0 <= i < |raws| ==> '\n' !in raws[i].text
    requires Interpret(raws, keys, more).Some?
    ensures var cols := Interpret(raws, keys, more).value;
            forall i :: 0 <= i < |cols| ==> Unambiguous(cols[i]) && cols[i].isPK == (cols[i].name in keys)
  {
    if raws != [] {
      var t := StripComma(raws[0].text, |raws| == 1 && !more).value;
      assert '\n' !in raws[0].text;
      assert t <= raws[0].text;
      ReadTextUnambiguous(t);
      InterpretIsUnambiguous(raws[1..], keys, more);
    }
  }

  lemma ParsedIsUnambiguous(k: Kind, text: string)
    requires ParseCreateTable(k, text).Some?
    ensures var cols := ParseCreateTable(k, text).value.columns;
            KeysAgree(cols) && forall i :: 0 <= i < |cols| ==> Unambiguous(cols[i])
  {
    var t := text[|HEAD|..];
    var t' := if IF_NOT_EXISTS <= t then t[|IF_NOT_EXISTS|..] else t;
    var body := ReadQualified(k, t').value.rest[|OPEN|..];
    var raws := ReadColumns(k, body);
    ReadColumnsHaveNoNewline(k, body);
    var keys := ReadKey(k, raws.rest).value;
    InterpretIsUnambiguous(raws.value, keys, keys != []);
  }

  // ---------- whatever is recoverable is read back ----------

  /** The forms of what follows the type. */
  predicate IsSuffix(s: string) { s == "" || NOT_NULL <= s || DEFAULT_VALUE <= s }

  lemma {:induction false} TypeEndBeforeSuffix(dt: string, suffix: string)
    requires TypeEnd(dt) == |dt| && IsSuffix(suffix)
    ensures TypeEnd(dt + suffix) == |dt|
  {
    if dt == "" {
      assert dt + suffix == suffix;
    } else {
      TypeEndBeforeSuffix(dt[1..], suffix);
      assert (dt + suffix)[1..] == dt[1..] + suffix;
      SuffixDoesNotCross(dt, suffix);
    }
  }

  /** No NOT NULL or DEFAULT starts inside the type and ends in what follows it. */
  lemma SuffixDoesNotCross(dt: string, suffix: string)
    requires dt != "" && !AtSuffix(dt) && IsSuffix(suffix)
    ensures !AtSuffix(dt + suffix)
  {
    var t := dt + suffix;
    if |DEFAULT| <= |dt| { PrefixWithin(DEFAULT, dt, suffix); }
    if |NOT_NULL| <= |dt| { PrefixWithin(NOT_NULL, dt, suffix); }
    assert forall i :: 1 <= i < |DEFAULT| ==> DEFAULT[i] != ' ';
    assert forall i :: 1 <= i < |NOT_NULL| && NOT_NULL[i] == ' ' ==> i == 4 && NOT_NULL[i + 2] == 'U';
    if suffix != "" {
      assert t[|dt|] == suffix[0] && suffix[0] == ' ';
      assert t[|dt| + 2] == suffix[2] && suffix[2] != 'U';
    }
  }

  lemma ReadBackSuffix(c: ColumnDef)
    ensures IsSuffix(ColumnSuffix(c))
    ensures ReadSuffix(ColumnSuffix(c)) == Some((c.nullable, c.default))
  {
    var d := if c.default == "" then "" else DEFAULT_VALUE + c.default;
    DropPrefix(DEFAULT_VALUE, c.default);
    DropPrefix(NOT_NULL, d);
    assert ReadDefault(d) == Some(c.default);
    if c.nullable {
      assert ColumnSuffix(c) == d;
      assert DEFAULT_VALUE[1] == 'D' && NOT_NULL[1] == 'N';
    } else {
      assert ColumnSuffix(c) == NOT_NULL + d;
    }
  }

  lemma ReadBackText(c: ColumnDef)
    requires TypeEnd(Trim(c.dataType)) == |Trim(c.dataType)|
    ensures ReadText(ColumnText(c)) == Some((Trim(c.dataType), c.nullable, c.default))
  {
    ReadBackSuffix(c);
    TypeEndBeforeSuffix(Trim(c.dataType), ColumnSuffix(c));
    DropPrefix(Trim(c.dataType), ColumnSuffix(c));
  }

  lemma ReadColumnStep(k: Kind, s: string, name: string, text: string, rest: string)
    requires '\n' !in text
    requires ReadIdent(k, s) == Some(Read(name, " " + (text + ['\n'] + rest)))
    ensures ReadColumn(k, "  " + s) == Some(Read(RawColumn(name, text), rest))
  {
    var tail := text + ['\n'] + rest;
    DropPrefix("  ", s);
    DropPrefix(" ", tail);
    IndexOfFirst(text, '\n', rest);
    assert tail[..|text|] == text && tail[|text| + 1..] == rest;
  }

  lemma ReadBackColumn(k: Kind, c: ColumnDef, comma: string, rest: string)
    requires Quotable(k, c.name)
    requires '\n' !in ColumnText(c) && '\n' !in comma
    ensures ReadColumn(k, ColumnLine(k, c) + comma + "\n" + rest)
            == Some(Read(RawColumn(c.name, ColumnText(c) + comma), rest))
  {
    var q, text := QuoteIdent(k, c.name).value, ColumnText(c) + comma;
    var tail := " " + (text + "\n" + rest);
    ReadBackIdent(k, c.name, tail);
    ReadColumnStep(k, q + tail, c.name, text, rest);
    LineSplits("  ", q, ColumnText(c), comma, rest);
  }

  lemma LineSplits(indent: string, q: string, text: string, comma: string, rest: string)
    ensures (indent + q + " " + text) + comma + "\n" + rest == indent + (q + (" " + (text + comma + "\n" + rest)))
  {
    var tail := comma + "\n" + rest;
    Reassociate(indent + q + " " + text, comma, "\n", rest);
    Reassociate(text, comma, "\n", rest);
    assert comma + ("\n" + rest) == tail;
    Reassociate(indent, q, " ", text);
    assert indent + (q + (" " + text)) + tail == indent + (q + (" " + text) + tail);
    assert q + (" " + text) + tail == q + (" " + text + tail);
    assert " " + text + tail == " " + (text + tail);
  }

  /** The lines of the body, with the comma each of them carries. */
  function Raws(cols: seq<ColumnDef>, hasKey: bool): seq<RawColumn> {
    if cols == [] then []
    else [RawColumn(cols[0].name, ColumnText(cols[0]) + if |cols| > 1 || hasKey then "," else "")]
         + Raws(cols[1..], hasKey)
  }

  lemma ReadColumnsStep(k: Kind, s: string, raw: RawColumn, rest: string)
    requires ReadColumn(k, s) == Some(Read(raw, rest))
    ensures ReadColumns(k, s) == Read([raw] + ReadColumns(k, rest).value, ReadColumns(k, rest).rest)
  {
  }

  lemma ReadLastColumn(k: Kind, c: ColumnDef)
    requires Quotable(k, c.name) && '\n' !in ColumnText(c)
    ensures ReadColumns(k, ColumnLine(k, c) + "\n)") == Read([RawColumn(c.name, ColumnText(c))], ")")
  {
    var line := ColumnLine(k, c);
    assert line + "\n)" == line + "" + "\n" + ")";
    ReadBackColumn(k, c, "", ")");
    assert ColumnText(c) + "" == ColumnText(c);
    ReadColumnsStep(k, line + "\n)", RawColumn(c.name, ColumnText(c)), ")");
    assert ReadColumns(k, ")") == Read([], ")");
    assert [RawColumn(c.name, ColumnText(c))] + [] == [RawColumn(c.name, ColumnText(c))];
  }

  lemma ReadColumnAndMore(k: Kind, c: ColumnDef, joined: string)
    requires Quotable(k, c.name) && '\n' !in ColumnText(c)
    ensures var more := ReadColumns(k, joined + "\n)");
            ReadColumns(k, ColumnLine(k, c) + ",\n" + joined + "\n)")
            == Read([RawColumn(c.name, ColumnText(c) + ",")] + more.value, more.rest)
  {
    JoinedHead(ColumnLine(k, c), joined);
    ReadBackColumn(k, c, ",", joined + "\n)");
    ReadColumnsStep(k, ColumnLine(k, c) + "," + "\n" + (joined + "\n)"), RawColumn(c.name, ColumnText(c) + ","),
                    joined + "\n)");
  }

  lemma ItemsCons(k: Kind, cols: seq<ColumnDef>, key: seq<string>)
    requires cols != [] && AllPrintable(k, cols)
    ensures var items, rest := ColumnLines(k, cols) + key, ColumnLines(k, cols[1..]) + key;
            Join(items, ",\n") ==
            if rest == [] then ColumnLine(k, cols[0]) else ColumnLine(k, cols[0]) + ",\n" + Join(rest, ",\n")
  {
    var items := ColumnLines(k, cols) + key;
    assert items[0] == ColumnLine(k, cols[0]);
    assert items[1..] == ColumnLines(k, cols[1..]) + key;
  }

  lemma {:induction false} ReadBackColumns(k: Kind, cols: seq<ColumnDef>, names: seq<string>)
    requires AllPrintable(k, cols) && (cols != [] || names != [])
    requires forall i :: 0 <= i < |cols| ==> '\n' !in ColumnText(cols[i])
    ensures ReadColumns(k, Join(ColumnLines(k, cols) + KeyLines(names), ",\n") + "\n)")
            == Read(Raws(cols, names != []), AfterColumns(names))
  {
    if cols == [] {
      assert ColumnLines(k, cols) + KeyLines(names) == KeyLines(names);
      KeyLineIsNoColumn(k, names);
    } else {
      var c, rest := cols[0], cols[1..];
      ColumnNameQuotable(k, c);
      RawsCons(cols, names != []);
      var raws := Raws(cols, names != []);
      assert raws == [raws[0]] + raws[1..];
      ItemsCons(k, cols, KeyLines(names));
      if rest == [] && names == [] {
        ReadLastColumn(k, c);
        assert ColumnText(c) + "" == ColumnText(c);
      } else {
        ReadColumnAndMore(k, c, Join(ColumnLines(k, rest) + KeyLines(names), ",\n"));
        ReadBackColumns(k, rest, names);
      }
    }
  }

  lemma ColumnNameQuotable(k: Kind, c: ColumnDef)
    requires ColumnError(k, c) == None
    ensures Quotable(k, c.name)
  {
  }

  /** What remains of the body after its column lines. */
  function AfterColumns(names: seq<string>): string {
    if names == [] then ")" else KeyLines(names)[0] + "\n)"
  }

  lemma KeyLineIsNoColumn(k: Kind, names: seq<string>)
    requires names != []
    ensures ReadColumns(k, KeyLines(names)[0] + "\n)") == Read([], KeyLines(names)[0] + "\n)")
  {
    var s := KeyLines(names)[0] + "\n)";
    assert s[2..][0] == 'P';
    assert ReadColumn(k, s) == None;
  }

  lemma JoinedHead(line: string, joined: string)
    ensures line + ",\n" + joined + "\n)" == line + "," + "\n" + (joined + "\n)")
  {
    assert line + ",\n" == line + "," + "\n";
  }

  lemma ReadIdentsStep(k: Kind, s: string, name: string, more: string)
    requires ReadIdent(k, s) == Some(Read(name, ", " + more))
    requires ReadIdents(k, more).Some?
    ensures ReadIdents(k, s) == Some(Read([name] + ReadIdents(k, more).value.value, ReadIdents(k, more).value.rest))
  {
    DropPrefix(", ", more);
  }

  lemma QuoteAllCons(k: Kind, names: seq<string>, quoted: seq<string>)
    requires names != [] && QuoteAll(k, names) == Ok(quoted)
    ensures quoted != [] && Quotable(k, names[0]) && quoted[0] == QuoteIdent(k, names[0]).value
    ensures QuoteAll(k, names[1..]) == Ok(quoted[1..])
  {
  }

  lemma {:induction false} ReadBackIdents(k: Kind, names: seq<string>, quoted: seq<string>, rest: string)
    requires names != [] && QuoteAll(k, names) == Ok(quoted)
    requires !(", " <= rest)
    ensures ReadIdents(k, Join(quoted, ", ") + rest) == Some(Read(names, rest))
  {
    QuoteAllCons(k, names, quoted);
    if |names| == 1 {
      ReadBackIdent(k, names[0], rest);
      assert names == [names[0]];
    } else {
      QuoteAllCons(k, names[1..], quoted[1..]);
      var joined := Join(quoted[1..], ", ");
      var more := joined + rest;
      ReadBackIdents(k, names[1..], quoted[1..], rest);
      ReadBackIdent(k, names[0], ", " + more);
      ReadIdentsStep(k, quoted[0] + (", " + more), names[0], more);
      Reassociate(quoted[0], ", ", joined, rest);
      assert names == [names[0]] + names[1..];
    }
  }

  function KeyColumns(cols: seq<ColumnDef>): seq<string> {
    if cols == [] then []
    else (if cols[0].isPK then [cols[0].name] else []) + KeyColumns(cols[1..])
  }

  lemma {:induction false} KeyColumnsQuoted(k: Kind, cols: seq<ColumnDef>)
    requires AllPrintable(k, cols)
    ensures QuoteAll(k, KeyColumns(cols)) == Ok(KeyNames(k, cols))
  {
    if cols != [] {
      assert ColumnError(k, cols[0]) == None;
      KeyColumnsQuoted(k, cols[1..]);
      var name, rest := cols[0].name, KeyColumns(cols[1..]);
      assert ([name] + rest)[1..] == rest && [] + rest == rest;
      var names := KeyNames(k, cols[1..]);
      assert [] + names == names;
    }
  }

  lemma {:induction false} KeyColumnsMembers(cols: seq<ColumnDef>, name: string)
    ensures name in KeyColumns(cols) <==> exists i :: 0 <= i < |cols| && cols[i].isPK && cols[i].name == name
  {
    if cols != [] {
      var rest := cols[1..];
      KeyColumnsMembers(rest, name);
      forall i | 0 < i < |cols| ensures cols[i] == rest[i - 1] {}
      if name in KeyColumns(rest) {
        var j :| 0 <= j < |rest| && rest[j].isPK && rest[j].name == name;
        assert cols[j + 1].isPK && cols[j + 1].name == name;
      }
    }
  }

  lemma ReadBackKey(k: Kind, cols: seq<ColumnDef>)
    requires AllPrintable(k, cols)
    ensures var names := KeyNames(k, cols);
            ReadKey(k, AfterColumns(names)) == Some(KeyColumns(cols))
  {
    var names := KeyNames(k, cols);
    KeyColumnsQuoted(k, cols);
    if names != [] {
      var joined := Join(names, ", ");
      var s := KeyLines(names)[0] + "\n)";
      assert s == KEY_START + (joined + ")\n)") by {
        assert ")" + "\n)" == ")\n)";
        Reassociate(KEY_START, joined, ")", "\n)");
      }
      DropPrefix(KEY_START, joined + ")\n)");
      assert KEY_START[0] != ')' && ", "[0] != ")\n)"[0];
      ReadBackIdents(k, KeyColumns(cols), names, ")\n)");
    }
  }

  lemma InterpretStep(raws: seq<RawColumn>, keys: seq<string>, more: bool, c: ColumnDef, cols: seq<ColumnDef>)
    requires raws != [] && raws[0].name == c.name && c.isPK == (c.name in keys)
    requires StripComma(raws[0].text, |raws| == 1 && !more) == Some(ColumnText(c))
    requires TypeEnd(Trim(c.dataType)) == |Trim(c.dataType)|
    requires Interpret(raws[1..], keys, more) == Some(cols)
    ensures Interpret(raws, keys, more) == Some([c.(dataType := Trim(c.dataType))] + cols)
  {
    ReadBackText(c);
  }

  lemma CommaStripped(t: string, last: bool)
    ensures StripComma(t + if last then "" else ",", last) == Some(t)
  {
    if last { assert t + "" == t; } else { assert (t + ",")[..|t|] == t; }
  }

  lemma {:induction false} InterpretRaws(cols: seq<ColumnDef>, keys: seq<string>, more: bool)
    requires forall i :: 0 <= i < |cols| ==> Unambiguous(TrimType(cols[i]))
    requires forall i :: 0 <= i < |cols| ==> (cols[i].name in keys <==> cols[i].isPK)
    ensures Interpret(Raws(cols, more), keys, more) == Some(TrimTypes(cols))
  {
    if cols != [] {
      var raws := Raws(cols, more);
      RawsCons(cols, more);
      CommaStripped(ColumnText(cols[0]), |cols| == 1 && !more);
      InterpretRaws(cols[1..], keys, more);
      assert Unambiguous(TrimType(cols[0]));
      InterpretStep(raws, keys, more, cols[0], TrimTypes(cols[1..]));
    }
  }

  lemma RawsCons(cols: seq<ColumnDef>, hasKey: bool)
    requires cols != []
    ensures var raws, comma := Raws(cols, hasKey), if |cols| == 1 && !hasKey then "" else ",";
            |raws| == |cols| && raws[0] == RawColumn(cols[0].name, ColumnText(cols[0]) + comma)
            && raws[1..] == Raws(cols[1..], hasKey)
  {
    RawsLength(cols, hasKey);
  }

  lemma {:induction false} RawsLength(cols: seq<ColumnDef>, hasKey: bool)
    ensures |Raws(cols, hasKey)| == |cols|
  {
    if cols != [] { RawsLength(cols[1..], hasKey); }
  }

  lemma KeyColumnsDecide(cols: seq<ColumnDef>, i: nat)
    requires KeysAgree(cols) && i < |cols|
    ensures cols[i].name in KeyColumns(cols) <==> cols[i].isPK
  {
    KeyColumnsMembers(cols, cols[i].name);
  }

  lemma ParseBodyOfRendered(k: Kind, cols: seq<ColumnDef>)
    requires cols != [] && AllPrintable(k, cols) && Recoverable(cols)
    ensures ParseBody(k, TableBody(k, cols) + "\n)") == Some(TrimTypes(cols))
  {
    var names, keys := KeyNames(k, cols), KeyColumns(cols);
    forall i | 0 <= i < |cols| ensures '\n' !in ColumnText(cols[i]) {
      assert Unambiguous(TrimType(cols[i]));
    }
    ReadBackColumns(k, cols, names);
    ReadBackKey(k, cols);
    KeyColumnsQuoted(k, cols);
    assert names == [] <==> keys == [];
    forall i | 0 <= i < |cols| ensures cols[i].name in keys <==> cols[i].isPK {
      KeyColumnsDecide(cols, i);
    }
    InterpretRaws(cols, keys, keys != []);
  }

  lemma ParseNamedBack(k: Kind, def: CreateTableDef, body: string)
    requires QualifiedQuotable(k, def.schema, def.name)
    requires ParseBody(k, body).Some?
    ensures ParseNamed(k, def.ifNotExists, Qualified(k, def.schema, def.name).value + (OPEN + body))
            == Some(def.(columns := ParseBody(k, body).value))
  {
    ReadBackQualified(k, def.schema, def.name, OPEN + body);
    DropPrefix(OPEN, body);
  }

  lemma ParseHead(k: Kind, def: CreateTableDef, body: string)
    requires QualifiedQuotable(k, def.schema, def.name)
    requires ParseBody(k, body).Some?
    ensures ParseCreateTable(k, TableHead(def, Qualified(k, def.schema, def.name).value) + body)
            == Some(def.(columns := ParseBody(k, body).value))
  {
    var table := Qualified(k, def.schema, def.name).value;
    var named := table + (OPEN + body);
    HeadSplits(def, table, body);
    QualifiedForm(k, def.schema, def.name);
    NotIfNotExists(k, table, OPEN + body);
    DropPrefix(IF_NOT_EXISTS, named);
    ParseNamedBack(k, def, body);
  }

  lemma HeadSplits(def: CreateTableDef, table: string, body: string)
    ensures var t := (if def.ifNotExists then IF_NOT_EXISTS else "") + (table + (OPEN + body));
            HEAD <= TableHead(def, table) + body && (TableHead(def, table) + body)[|HEAD|..] == t
    ensures "" + (table + (OPEN + body)) == table + (OPEN + body)
  {
    var ine := if def.ifNotExists then IF_NOT_EXISTS else "";
    var named := table + (OPEN + body);
    Reassociate(HEAD + ine, table, OPEN, body);
    assert HEAD + ine + named == HEAD + (ine + named);
    DropPrefix(HEAD, ine + named);
  }

  lemma NotIfNotExists(k: Kind, table: string, rest: string)
    requires table != "" && table[0] == QuoteChar(k)
    ensures !(IF_NOT_EXISTS <= table + rest)
  {
    assert (table + rest)[0] == QuoteChar(k) && IF_NOT_EXISTS[0] == 'I';
  }

  lemma ReadIsRecoverable(k: Kind, text: string, def: CreateTableDef)
    requires ParseCreateTable(k, text) == Some(Trimmed(def))
    ensures Recoverable(def.columns)
  {
    ParsedIsUnambiguous(k, text);
    var cols, trimmed := def.columns, TrimTypes(def.columns);
    forall i | 0 <= i < |cols| ensures trimmed[i] == TrimType(cols[i]) {
      TrimTypesAt(cols, i);
    }
  }

  /** Print/parse round trip with its exact condition: the text of a successful buildCreateTable
      gives back the definition (with trimmed types) if and only if the definition is recoverable. */
  lemma RoundTrip(k: Kind, def: CreateTableDef)
    requires CreateTableText(k, def).Ok?
    ensures ParseCreateTable(k, CreateTableText(k, def).value) == Some(Trimmed(def))
            <==> Recoverable(def.columns)
  {
    var text := CreateTableText(k, def).value;
    QualifiedForm(k, def.schema, def.name);
    if Recoverable(def.columns) {
      var head, body := TableHead(def, Qualified(k, def.schema, def.name).value), TableBody(k, def.columns);
      assert text == head + (body + "\n)");
      ParseBodyOfRendered(k, def.columns);
      ParseHead(k, def, body + "\n)");
    } else if ParseCreateTable(k, text) == Some(Trimmed(def)) {
      ReadIsRecoverable(k, text, def);
    }
  }

  /** Two recoverable definitions that print the same are the same up to white space around types. */
  lemma PrintInjective(k: Kind, d1: CreateTableDef, d2: CreateTableDef)
    requires CreateTableText(k, d1).Ok? && CreateTableText(k, d1) == CreateTableText(k, d2)
    requires Recoverable(d1.columns) && Recoverable(d2.columns)
    ensures Trimmed(d1) == Trimmed(d2)
  {
    RoundTrip(k, d1);
    RoundTrip(k, d2);
  }

  /** Why the condition is needed: a type that spells out NOT NULL prints as a shorter type with
      the flag, so no reader could tell the two definitions apart. */
  lemma SpelledOutSuffixIsAmbiguous(c: ColumnDef)
    requires !c.nullable && Trim(c.dataType) != ""
    ensures ColumnText(c.(dataType := Trim(c.dataType) + NOT_NULL, nullable := true)) == ColumnText(c)
  {
    var dt := Trim(c.dataType);
    var _, _ := TrimDecomposes(c.dataType);
    TightExtended(dt);
    var c' := c.(dataType := dt + NOT_NULL, nullable := true);
    SuffixForm(c);
    SuffixForm(c');
    Assoc(dt, NOT_NULL, ColumnSuffix(c'));
  }

  lemma SuffixForm(c: ColumnDef)
    ensures var d := if c.default == "" then "" else DEFAULT_VALUE + c.default;
            ColumnSuffix(c) == if c.nullable then d else NOT_NULL + d
  {
  }

  lemma TightExtended(dt: string)
    requires dt != "" && Tight(dt)
    ensures Trim(dt + NOT_NULL) == dt + NOT_NULL
  {
    assert NOT_NULL[|NOT_NULL| - 1] == 'L';
    TrimFixed(dt + NOT_NULL);
  }
}
