/** A reader for the CREATE INDEX text of DdlPrinter. The index method is printed as it is, without
    quotes, and may hold anything: the reader still finds where it ends, because the quotes of the
    column list after it come in pairs. */
module IndexParser {
  import opened Text
  import opened Identifiers
  import opened DdlPrinter
  import opened DdlParser

  // ---------- the reader ----------

  function ReadWord(word: string, s: string): Option<string> { if word <= s then Some(s[|word|..]) else None }

  /** ` (`, the columns and `)`, to the end of the text. */
  function ReadList(k: Kind, s: string): Option<seq<string>> {
    match ReadWord(" (", s)
    case None => None
    case Some(s') =>
      match ReadIdents(k, s')
      case None => None
      case Some(Read(names, rest)) => if rest == ")" then Some(names) else None
  }

  /** Everything up to the first place from which the rest is a column list. */
  function ReadMethod(k: Kind, s: string): Option<(string, seq<string>)> {
    if ReadList(k, s).Some? then Some(("", ReadList(k, s).value))
    else if s == "" then None
    else
      match ReadMethod(k, s[1..])
      case None => None
      case Some((indexMethod, names)) => Some(([s[0]] + indexMethod, names))
  }

  function ReadUsing(k: Kind, s: string): Option<(string, seq<string>)> {
    match ReadWord(" USING ", s)
    case Some(s') => if k == Postgres then ReadMethod(k, s') else None
    case None =>
      match ReadList(k, s)
      case None => None
      case Some(names) => Some(("", names))
  }

  /** The table, the method and the columns. */
  function ReadTarget(k: Kind, s: string): Option<((string, string), (string, seq<string>))> {
    match ReadQualified(k, s)
    case None => None
    case Some(Read(table, rest)) =>
      match ReadUsing(k, rest)
      case None => None
      case Some(target) => Some((table, target))
  }

  function ReadIndex(k: Kind, unique: bool, s: string): Option<IndexDef> {
    match ReadWord("INDEX ", s)
    case None => None
    case Some(s1) =>
      match ReadIdent(k, s1)
      case None => None
      case Some(Read(name, s2)) =>
        match ReadWord(" ON ", s2)
        case None => None
        case Some(s3) =>
          match ReadTarget(k, s3)
          case None => None
          case Some(((schema, table), (indexMethod, columns))) =>
            Some(IndexDef(name, schema, table, columns, unique, indexMethod))
  }

  function ParseCreateIndex(k: Kind, text: string): Option<IndexDef> {
    match ReadWord("CREATE ", text)
    case None => None
    case Some(s) =>
      match ReadWord("UNIQUE ", s)
      case None => ReadIndex(k, false, s)
      case Some(s') => ReadIndex(k, true, s')
  }

  // ---------- quotes come in pairs ----------

  /** An odd number of quote characters. */
  predicate OddQuotes(k: Kind, s: string) {
    s != "" && ((s[0] == QuoteChar(k)) != OddQuotes(k, s[1..]))
  }

  lemma {:induction false} OddConcat(k: Kind, a: string, b: string)
    ensures OddQuotes(k, a + b) == (OddQuotes(k, a) != OddQuotes(k, b))
    decreases |a|
  {
    if a == "" {
      assert a + b == b;
    } else {
      assert (a + b)[1..] == a[1..] + b;
      OddConcat(k, a[1..], b);
    }
  }

  lemma {:induction false} NoQuotes(k: Kind, s: string)
    requires QuoteChar(k) !in s
    ensures !OddQuotes(k, s)
  {
    if s != "" {
      assert s[0] in s;
      NoQuotes(k, s[1..]);
    }
  }

  lemma IdentShape(k: Kind, s: string, name: string, rest: string)
    requires ReadIdent(k, s) == Some(Read(name, rest))
    ensures s == [QuoteChar(k)] + (name + ([QuoteChar(k)] + rest)) && QuoteChar(k) !in name
  {
  }

  lemma IdentParity(k: Kind, s: string, name: string, rest: string)
    requires ReadIdent(k, s) == Some(Read(name, rest))
    ensures OddQuotes(k, s) == OddQuotes(k, rest)
  {
    var q := [QuoteChar(k)];
    IdentShape(k, s, name, rest);
    OddConcat(k, q, name + (q + rest));
    OddConcat(k, name, q + rest);
    OddConcat(k, q, rest);
    NoQuotes(k, name);
  }

  /** A column list that is read to its bracket. */
  predicate IsList(k: Kind, s: string) {
    ReadIdents(k, s).Some? && ReadIdents(k, s).value.rest == ")"
  }

  /** What may follow a name of a list. */
  predicate IsListRest(k: Kind, rest: string) {
    rest == ")" || (", " <= rest && IsList(k, rest[2..]))
  }

  lemma ListHead(k: Kind, s: string)
    requires IsList(k, s)
    ensures ReadIdent(k, s).Some? && IsListRest(k, ReadIdent(k, s).value.rest)
  {
  }

  lemma {:induction false} ListParity(k: Kind, s: string)
    requires IsList(k, s)
    ensures !OddQuotes(k, s)
    decreases |s|
  {
    ListHead(k, s);
    var first := ReadIdent(k, s).value;
    IdentParity(k, s, first.value, first.rest);
    RestParity(k, first.rest);
  }

  lemma {:induction false} RestParity(k: Kind, rest: string)
    requires IsListRest(k, rest)
    ensures !OddQuotes(k, rest)
    decreases |rest|
  {
    if rest == ")" {
      NoQuotes(k, ")");
    } else {
      ListParity(k, rest[2..]);
      NoQuotes(k, ", ");
      OddConcat(k, ", ", rest[2..]);
      assert rest == ", " + rest[2..];
    }
  }

  /** The name read first reaches into r: then r holds its closing quote without the opening one. */
  lemma CutInsideName(k: Kind, p: string, r: string, name: string, rest: string)
    requires ReadIdent(k, p + (" (" + r)) == Some(Read(name, rest)) && |p| < |name| + 2
    requires !OddQuotes(k, rest)
    ensures OddQuotes(k, r)
  {
    var q := [QuoteChar(k)];
    var s := p + (" (" + r);
    IdentShape(k, s, name, rest);
    assert s[|name| + 1] == QuoteChar(k);
    assert s[|p|] == ' ' && s[|p| + 1] == '(';
    assert |p| + 2 <= |name| + 1;
    var inside := name[|p| + 1..];
    assert r == s[|p| + 2..];
    assert s[|p| + 2..] == inside + (q + rest);
    NoQuotes(k, inside);
    OddConcat(k, inside, q + rest);
    OddConcat(k, q, rest);
  }

  /** One character before ` (` is no separator. */
  lemma ShortRest(k: Kind, p: string, r: string)
    requires |p| < 2
    ensures !IsListRest(k, p + (" (" + r))
  {
    var rest := p + (" (" + r);
    assert |rest| >= 2;
    if p == "" {
      assert rest[0] == ' ';
    } else {
      assert rest[2] == '(' && rest[2..][0] == '(';
    }
  }

  lemma RestShifts(k: Kind, p: string, r: string)
    requires |p| >= 2 && IsListRest(k, p + (" (" + r))
    ensures IsList(k, p[2..] + (" (" + r))
  {
    assert (p + (" (" + r))[2..] == p[2..] + (" (" + r);
  }

  lemma RestAfterName(k: Kind, p: string, r: string, name: string, rest: string)
    requires ReadIdent(k, p + (" (" + r)) == Some(Read(name, rest)) && |p| >= |name| + 2
    ensures rest == p[|name| + 2..] + (" (" + r)
  {
    IdentShape(k, p + (" (" + r), name, rest);
  }

  /** No column list ends in ` (` and a column list: the quotes of the one cannot be those of the other. */
  lemma {:induction false} NoListInList(k: Kind, p: string, r: string)
    requires !OddQuotes(k, r) && IsList(k, p + (" (" + r))
    ensures false
    decreases |p|
  {
    var s := p + (" (" + r);
    ListHead(k, s);
    var name, rest := ReadIdent(k, s).value.value, ReadIdent(k, s).value.rest;
    if |p| < |name| + 2 {
      RestParity(k, rest);
      CutInsideName(k, p, r, name, rest);
    } else {
      RestAfterName(k, p, r, name, rest);
      if |p| < |name| + 4 {
        ShortRest(k, p[|name| + 2..], r);
      } else {
        RestShifts(k, p[|name| + 2..], r);
        NoListInList(k, p[|name| + 2..][2..], r);
      }
    }
  }

  // ---------- reading back ----------

  function ListText(quoted: seq<string>): string { " (" + (Join(quoted, ", ") + ")") }

  lemma ReadBackList(k: Kind, names: seq<string>, quoted: seq<string>)
    requires names != [] && QuoteAll(k, names) == Ok(quoted)
    ensures ReadList(k, ListText(quoted)) == Some(names)
    ensures !OddQuotes(k, Join(quoted, ", ") + ")")
  {
    var body := Join(quoted, ", ") + ")";
    ReadBackIdents(k, names, quoted, ")");
    DropPrefix(" (", body);
    ListParity(k, body);
  }

  lemma NoListAfterOne(k: Kind, c: string, r: string)
    requires |c| == 1
    ensures ReadList(k, c + (" (" + r)) == None
  {
    assert (c + (" (" + r))[1] == ' ';
  }

  lemma NoEarlierList(k: Kind, indexMethod: string, r: string)
    requires indexMethod != "" && !OddQuotes(k, r)
    ensures ReadList(k, indexMethod + (" (" + r)) == None
  {
    var s := indexMethod + (" (" + r);
    if |indexMethod| == 1 {
      NoListAfterOne(k, indexMethod, r);
    } else if ReadList(k, s).Some? {
      assert s[2..] == indexMethod[2..] + (" (" + r);
      NoListInList(k, indexMethod[2..], r);
    }
  }

  lemma {:induction false} ReadBackMethod(k: Kind, indexMethod: string, names: seq<string>, quoted: seq<string>)
    requires names != [] && QuoteAll(k, names) == Ok(quoted)
    ensures ReadMethod(k, indexMethod + ListText(quoted)) == Some((indexMethod, names))
  {
    var list := ListText(quoted);
    ReadBackList(k, names, quoted);
    if indexMethod == "" {
      assert indexMethod + list == list;
    } else {
      NoEarlierList(k, indexMethod, Join(quoted, ", ") + ")");
      assert (indexMethod + list)[1..] == indexMethod[1..] + list;
      ReadBackMethod(k, indexMethod[1..], names, quoted);
      assert indexMethod == [indexMethod[0]] + indexMethod[1..];
    }
  }

  function UsingText(k: Kind, indexMethod: string): string {
    if k == Postgres && indexMethod != "" then " USING " + indexMethod else ""
  }

  /** The method is kept for Postgres only. */
  function KeptMethod(k: Kind, indexMethod: string): string { if k == Postgres then indexMethod else "" }

  lemma ReadBackUsing(k: Kind, indexMethod: string, names: seq<string>, quoted: seq<string>)
    requires names != [] && QuoteAll(k, names) == Ok(quoted)
    ensures ReadUsing(k, UsingText(k, indexMethod) + ListText(quoted)) == Some((KeptMethod(k, indexMethod), names))
  {
    var list := ListText(quoted);
    if k == Postgres && indexMethod != "" {
      Assoc(" USING ", indexMethod, list);
      DropPrefix(" USING ", indexMethod + list);
      ReadBackMethod(k, indexMethod, names, quoted);
    } else {
      assert "" + list == list;
      ReadBackList(k, names, quoted);
      assert list[1] != 'U';
    }
  }

  lemma ReadBackTarget(k: Kind, schema: string, table: string, rest: string, target: (string, seq<string>))
    requires QualifiedQuotable(k, schema, table) && ReadUsing(k, rest) == Some(target)
    ensures ReadTarget(k, Qualified(k, schema, table).value + rest) == Some(((schema, table), target))
  {
    ReadBackQualified(k, schema, table, rest);
  }

  lemma ReadBackIndex(k: Kind, unique: bool, name: string, s: string,
                      table: (string, string), target: (string, seq<string>))
    requires Quotable(k, name) && ReadTarget(k, s) == Some((table, target))
    ensures ReadIndex(k, unique, "INDEX " + (QuoteIdent(k, name).value + (" ON " + s))) ==
            Some(IndexDef(name, table.0, table.1, target.1, unique, target.0))
  {
    var q := QuoteIdent(k, name).value;
    DropPrefix("INDEX ", q + (" ON " + s));
    ReadBackIdent(k, name, " ON " + s);
    DropPrefix(" ON ", s);
  }

  lemma ReadBackUnique(k: Kind, unique: bool, s: string)
    requires "INDEX " <= s
    ensures ParseCreateIndex(k, "CREATE " + ((if unique then "UNIQUE " else "") + s)) == ReadIndex(k, unique, s)
  {
    var t := (if unique then "UNIQUE " else "") + s;
    DropPrefix("CREATE ", t);
    if unique {
      DropPrefix("UNIQUE ", s);
    } else {
      assert t == s && s[0] == 'I';
    }
  }

  lemma Nested(create: string, unique: string, index: string, q: string, on: string, table: string, using: string,
               list: string)
    ensures create + unique + (index + q + on + table) + using + list ==
            create + (unique + (index + (q + (on + (table + (using + list))))))
  {
    var tail := using + list;
    Reassociate(index, q, on, table);
    Assoc(create + unique + (index + (q + (on + table))), using, list);
    Assoc(create, unique, index + (q + (on + table)));
    Assoc(create, unique + (index + (q + (on + table))), tail);
    Assoc(unique, index + (q + (on + table)), tail);
    Assoc(index, q + (on + table), tail);
    Assoc(q, on + table, tail);
    Assoc(on, table, tail);
  }

  /** The definition as the dialect keeps it. */
  function Kept(k: Kind, def: IndexDef): IndexDef { def.(indexMethod := KeptMethod(k, def.indexMethod)) }

  predicate Accepted(k: Kind, def: IndexDef) {
    && def.columns != [] && Quotable(k, def.name) && QualifiedQuotable(k, def.schema, def.table)
    && forall c :: c in def.columns ==> Quotable(k, c)
  }

  lemma {:induction false} QuoteAllAccepts(k: Kind, names: seq<string>)
    ensures QuoteAll(k, names).Ok? <==> forall c :: c in names ==> Quotable(k, c)
  {
    if names != [] {
      QuoteAllAccepts(k, names[1..]);
      assert names == [names[0]] + names[1..];
      assert names[0] in names;
    }
  }

  lemma TextForm(k: Kind, def: IndexDef)
    requires CreateIndexText(k, def).Ok?
    ensures Accepted(k, def) && QuoteAll(k, def.columns).Ok?
    ensures CreateIndexText(k, def).value ==
            "CREATE " + ((if def.unique then "UNIQUE " else "") + ("INDEX " + (QuoteIdent(k, def.name).value +
              (" ON " + (Qualified(k, def.schema, def.table).value +
                (UsingText(k, def.indexMethod) + ListText(QuoteAll(k, def.columns).value)))))))
  {
    QualifiedForm(k, def.schema, def.table);
    QuoteAllAccepts(k, def.columns);
    var quoted := QuoteAll(k, def.columns).value;
    Assoc(" (", Join(quoted, ", "), ")");
    Nested("CREATE ", if def.unique then "UNIQUE " else "", "INDEX ", QuoteIdent(k, def.name).value, " ON ",
           Qualified(k, def.schema, def.table).value, UsingText(k, def.indexMethod), ListText(quoted));
  }

  /** Every CREATE INDEX that is printed reads back, whatever its method holds: to the definition itself
      exactly if the dialect keeps the method or there is none. */
  lemma IndexRoundTrip(k: Kind, def: IndexDef)
    requires CreateIndexText(k, def).Ok?
    ensures ParseCreateIndex(k, CreateIndexText(k, def).value) == Some(Kept(k, def))
    ensures ParseCreateIndex(k, CreateIndexText(k, def).value) == Some(def) <==> k == Postgres || def.indexMethod == ""
  {
    TextForm(k, def);
    var quoted := QuoteAll(k, def.columns).value;
    var rest := UsingText(k, def.indexMethod) + ListText(quoted);
    ReadBackUsing(k, def.indexMethod, def.columns, quoted);
    var target := (KeptMethod(k, def.indexMethod), def.columns);
    ReadBackTarget(k, def.schema, def.table, rest, target);
    var table := Qualified(k, def.schema, def.table).value + rest;
    ReadBackIndex(k, def.unique, def.name, table, (def.schema, def.table), target);
    ReadBackUnique(k, def.unique, "INDEX " + (QuoteIdent(k, def.name).value + (" ON " + table)));
  }

  /** Exactly the definitions with columns and quotable names are printed. */
  lemma IndexAccepted(k: Kind, def: IndexDef)
    ensures CreateIndexText(k, def).Ok? <==> Accepted(k, def)
  {
    QualifiedForm(k, def.schema, def.table);
    QuoteAllAccepts(k, def.columns);
  }

  /** Two definitions that print the same are the same as far as the dialect keeps them. */
  lemma IndexPrintInjective(k: Kind, d1: IndexDef, d2: IndexDef)
    requires CreateIndexText(k, d1).Ok? && CreateIndexText(k, d1) == CreateIndexText(k, d2)
    ensures Kept(k, d1) == Kept(k, d2)
  {
    IndexRoundTrip(k, d1);
    IndexRoundTrip(k, d2);
  }
}
