/** A reader of the statements that row edits send, and the proof that it reads back what the
    drivers print: which column is bound to which argument. */
module RowReader {
  import opened Text
  import opened Decimals
  import opened Identifiers
  import opened RowStatements

  /** A column and the number of its argument, from 1. */
  datatype Binding = Binding(column: string, arg: nat)

  datatype Statement =
    | Update(schema: string, table: string, sets: seq<Binding>, wheres: seq<Binding>)
    | Delete(schema: string, table: string, wheres: seq<Binding>)
    | Insert(schema: string, table: string, columns: seq<string>, args: seq<nat>)

  // ---------- the reader ----------

  /** The number of the argument; a `?` takes the next one. */
  function ReadPlaceholder(k: Kind, s: string, next: nat): (r: Option<Read<nat>>)
    ensures r.Some? ==> |r.value.rest| < |s|
  {
    if k == Postgres then
      if s != "" && s[0] == '$' && StartsWithDigit(s[1..]) then
        var (n, rest) := ReadMore(s[1..], 0);
        ReadMoreShortens(s[1..], 0);
        Some(Read(n, rest))
      else None
    else if s != "" && s[0] == '?' then Some(Read(next, s[1..]))
    else None
  }

  lemma {:induction false} ReadMoreShortens(s: string, value: nat)
    ensures |ReadMore(s, value).1| <= |s|
  {
    if StartsWithDigit(s) {
      ReadMoreShortens(s[1..], value * 10 + DigitValue(s[0]).value);
    }
  }

  function ReadAssign(k: Kind, s: string, next: nat): (r: Option<Read<Binding>>)
    ensures r.Some? ==> |r.value.rest| < |s|
  {
    match ReadIdent(k, s)
    case None => None
    case Some(Read(column, rest)) =>
      if rest == "" || rest[0] != '=' then None
      else
        match ReadPlaceholder(k, rest[1..], next)
        case None => None
        case Some(Read(n, rest')) => Some(Read(Binding(column, n), rest'))
  }

  /** One or more assignments with a separator between them. */
  function ReadAssigns(k: Kind, sep: string, s: string, next: nat): Option<Read<seq<Binding>>>
    decreases |s|
  {
    match ReadAssign(k, s, next)
    case None => None
    case Some(Read(b, rest)) =>
      if sep <= rest then
        match ReadAssigns(k, sep, rest[|sep|..], next + 1)
        case None => None
        case Some(Read(bs, rest')) => Some(Read([b] + bs, rest'))
      else Some(Read([b], rest))
  }

  function ReadColumns(k: Kind, sep: string, s: string): Option<Read<seq<string>>>
    decreases |s|
  {
    match ReadIdent(k, s)
    case None => None
    case Some(Read(c, rest)) =>
      if sep <= rest then
        match ReadColumns(k, sep, rest[|sep|..])
        case None => None
        case Some(Read(cs, rest')) => Some(Read([c] + cs, rest'))
      else Some(Read([c], rest))
  }

  function ReadPlaceholders(k: Kind, sep: string, s: string, next: nat): Option<Read<seq<nat>>>
    decreases |s|
  {
    match ReadPlaceholder(k, s, next)
    case None => None
    case Some(Read(n, rest)) =>
      if sep <= rest then
        match ReadPlaceholders(k, sep, rest[|sep|..], next + 1)
        case None => None
        case Some(Read(ns, rest')) => Some(Read([n] + ns, rest'))
      else Some(Read([n], rest))
  }

  function After(word: string, s: string): Option<string> { if word <= s then Some(s[|word|..]) else None }

  function ReadTable(k: Kind, word: string, s: string): Option<Read<(string, string)>> {
    if After(word, s).None? then None else ReadQualified(k, After(word, s).value)
  }

  /** ` WHERE` and the conditions, to the end of the text. */
  function ReadWhere(k: Kind, s: string, next: nat): Option<seq<Binding>> {
    match After(" WHERE ", s)
    case None => None
    case Some(s') =>
      match ReadAssigns(k, " AND ", s', next)
      case None => None
      case Some(Read(wheres, rest)) => if rest == "" then Some(wheres) else None
  }

  /** ` SET`, the assignments and the conditions. */
  function ReadChange(k: Kind, s: string): Option<(seq<Binding>, seq<Binding>)> {
    match After(" SET ", s)
    case None => None
    case Some(s') =>
      match ReadAssigns(k, ", ", s', 1)
      case None => None
      case Some(Read(sets, rest)) =>
        match ReadWhere(k, rest, 1 + |sets|)
        case None => None
        case Some(wheres) => Some((sets, wheres))
  }

  function ReadUpdate(k: Kind, s: string): Option<Statement> {
    match ReadTable(k, "UPDATE ", s)
    case None => None
    case Some(Read((schema, table), rest)) =>
      match ReadChange(k, rest)
      case None => None
      case Some((sets, wheres)) => Some(Update(schema, table, sets, wheres))
  }

  function ReadDelete(k: Kind, s: string): Option<Statement> {
    match ReadTable(k, "DELETE FROM ", s)
    case None => None
    case Some(Read((schema, table), s1)) =>
      match ReadWhere(k, s1, 1)
      case None => None
      case Some(wheres) => Some(Delete(schema, table, wheres))
  }

  function ReadInsert(k: Kind, s: string): Option<Statement> {
    match ReadTable(k, "INSERT INTO ", s)
    case None => None
    case Some(Read((schema, table), s1)) =>
      match After(" (", s1)
      case None => None
      case Some(s2) =>
        match ReadColumns(k, ", ", s2)
        case None => None
        case Some(Read(columns, s3)) =>
          match After(") VALUES (", s3)
          case None => None
          case Some(s4) =>
            match ReadPlaceholders(k, ", ", s4, 1)
            case None => None
            case Some(Read(args, s5)) => if s5 == ")" then Some(Insert(schema, table, columns, args)) else None
  }

  // ---------- lists read back ----------

  predicate AllQuotable(k: Kind, order: seq<string>) { forall c :: c in order ==> Quotable(k, c) }

  function Bindings(order: seq<string>, first: nat): seq<Binding> {
    seq(|order|, i requires 0 <= i < |order| => Binding(order[i], first + i))
  }

  lemma ReadBackPlaceholder(k: Kind, i: nat, rest: string)
    requires !StartsWithDigit(rest)
    ensures ReadPlaceholder(k, Placeholder(k, i) + rest, i) == Some(Read(i, rest))
  {
    var s := Placeholder(k, i) + rest;
    if k == Postgres {
      assert s[1..] == Decimal(i) + rest;
      ReadBackDecimal(i, rest);
    } else {
      assert s[1..] == rest;
    }
  }

  lemma ReadAssignParts(k: Kind, s: string, c: string, next: nat, rest: string, n: nat, rest': string)
    requires ReadIdent(k, s) == Some(Read(c, "=" + rest))
    requires ReadPlaceholder(k, rest, next) == Some(Read(n, rest'))
    ensures ReadAssign(k, s, next) == Some(Read(Binding(c, n), rest'))
  {
    assert ("=" + rest)[1..] == rest;
  }

  lemma ReadBackAssign(k: Kind, c: string, i: nat, rest: string)
    requires Quotable(k, c) && !StartsWithDigit(rest)
    ensures ReadAssign(k, Assign(k, c, i) + rest, i) == Some(Read(Binding(c, i), rest))
  {
    var place := Placeholder(k, i);
    ReadBackPlaceholder(k, i, rest);
    ReadBackIdent(k, c, "=" + (place + rest));
    Reassociate(Quoted(k, c), "=", place, rest);
    Assoc(Quoted(k, c), "=", place);
    ReadAssignParts(k, Assign(k, c, i) + rest, c, i, place + rest, i, rest);
  }

  lemma ReadAssignsLast(k: Kind, sep: string, s: string, next: nat, b: Binding, rest: string)
    requires ReadAssign(k, s, next) == Some(Read(b, rest)) && !(sep <= rest)
    ensures ReadAssigns(k, sep, s, next) == Some(Read([b], rest))
  {
  }

  lemma ReadAssignsMore(k: Kind, sep: string, s: string, next: nat, b: Binding, more: string, bs: seq<Binding>,
                        rest: string)
    requires ReadAssign(k, s, next) == Some(Read(b, sep + more))
    requires ReadAssigns(k, sep, more, next + 1) == Some(Read(bs, rest))
    ensures ReadAssigns(k, sep, s, next) == Some(Read([b] + bs, rest))
  {
    DropPrefix(sep, more);
  }

  lemma AssignsCons(k: Kind, order: seq<string>, first: nat)
    requires |order| > 0
    ensures Assigns(k, order, first) == [Assign(k, order[0], first)] + Assigns(k, order[1..], first + 1)
  {
  }

  lemma BindingsCons(order: seq<string>, first: nat)
    requires |order| > 0
    ensures Bindings(order, first) == [Binding(order[0], first)] + Bindings(order[1..], first + 1)
  {
  }

  lemma QuotedCons(k: Kind, order: seq<string>)
    requires |order| > 0
    ensures QuotedAll(k, order) == [Quoted(k, order[0])] + QuotedAll(k, order[1..])
  {
  }

  /** The text of a list of at least two, and what follows it: the first part, the separator, the rest. */
  lemma JoinedCons(first: string, parts: seq<string>, sep: string, rest: string)
    requires |parts| > 0
    ensures Join([first] + parts, sep) + rest == first + (sep + (Join(parts, sep) + rest))
  {
    JoinCons(first, parts, sep);
    var j := Join(parts, sep);
    Assoc(first, sep + j, rest);
    Assoc(sep, j, rest);
  }

  lemma NoDigitBeforeConcat(sep: string, more: string)
    requires sep != "" && !StartsWithDigit(sep)
    ensures !StartsWithDigit(sep + more)
  {
  }

  /** A list of assignments reads back as the bindings of its columns to consecutive arguments. */
  lemma {:induction false} ReadBackAssigns(k: Kind, sep: string, order: seq<string>, first: nat, rest: string)
    requires |order| > 0 && AllQuotable(k, order)
    requires sep != "" && !StartsWithDigit(sep) && !(sep <= rest) && !StartsWithDigit(rest)
    ensures ReadAssigns(k, sep, Join(Assigns(k, order, first), sep) + rest, first) ==
            Some(Read(Bindings(order, first), rest))
    decreases |order|
  {
    var c := order[0];
    assert c in order;
    if |order| == 1 {
      assert Assigns(k, order, first) == [Assign(k, c, first)];
      assert Bindings(order, first) == [Binding(c, first)];
      ReadBackAssign(k, c, first, rest);
      ReadAssignsLast(k, sep, Assign(k, c, first) + rest, first, Binding(c, first), rest);
    } else {
      var more := Join(Assigns(k, order[1..], first + 1), sep) + rest;
      AssignsCons(k, order, first);
      BindingsCons(order, first);
      JoinedCons(Assign(k, c, first), Assigns(k, order[1..], first + 1), sep, rest);
      NoDigitBeforeConcat(sep, more);
      ReadBackAssign(k, c, first, sep + more);
      ReadBackAssigns(k, sep, order[1..], first + 1, rest);
      ReadAssignsMore(k, sep, Assign(k, c, first) + (sep + more), first, Binding(c, first), more,
                      Bindings(order[1..], first + 1), rest);
    }
  }

  lemma ReadBackQuoted(k: Kind, c: string, rest: string)
    requires Quotable(k, c)
    ensures ReadIdent(k, Quoted(k, c) + rest) == Some(Read(c, rest))
  {
    ReadBackIdent(k, c, rest);
  }

  lemma ReadColumnsLast(k: Kind, sep: string, s: string, c: string, rest: string)
    requires ReadIdent(k, s) == Some(Read(c, rest)) && !(sep <= rest)
    ensures ReadColumns(k, sep, s) == Some(Read([c], rest))
  {
  }

  lemma ReadColumnsMore(k: Kind, sep: string, s: string, c: string, more: string, cs: seq<string>, rest: string)
    requires ReadIdent(k, s) == Some(Read(c, sep + more)) && ReadColumns(k, sep, more) == Some(Read(cs, rest))
    ensures ReadColumns(k, sep, s) == Some(Read([c] + cs, rest))
  {
    DropPrefix(sep, more);
  }

  lemma Uncons<T>(s: seq<T>)
    requires |s| > 0
    ensures s == [s[0]] + s[1..]
    ensures |s| == 1 ==> s == [s[0]]
  {
  }

  lemma {:induction false} ReadBackColumns(k: Kind, sep: string, order: seq<string>, rest: string)
    requires |order| > 0 && AllQuotable(k, order) && !(sep <= rest)
    ensures ReadColumns(k, sep, Join(QuotedAll(k, order), sep) + rest) == Some(Read(order, rest))
    decreases |order|
  {
    var c := order[0];
    assert c in order;
    Uncons(order);
    QuotedCons(k, order);
    if |order| == 1 {
      assert Join(QuotedAll(k, order), sep) == Quoted(k, c);
      ReadBackQuoted(k, c, rest);
      ReadColumnsLast(k, sep, Quoted(k, c) + rest, c, rest);
    } else {
      var more := Join(QuotedAll(k, order[1..]), sep) + rest;
      JoinedCons(Quoted(k, c), QuotedAll(k, order[1..]), sep, rest);
      ReadBackQuoted(k, c, sep + more);
      ReadBackColumns(k, sep, order[1..], rest);
      ReadColumnsMore(k, sep, Quoted(k, c) + (sep + more), c, more, order[1..], rest);
    }
  }

  function PlaceholdersFrom(k: Kind, first: nat, n: nat): seq<string> {
    seq(n, i requires 0 <= i < n => Placeholder(k, first + i))
  }

  function Numbers(first: nat, n: nat): seq<nat> { seq(n, i requires 0 <= i < n => first + i) }

  lemma ReadPlaceholdersMore(k: Kind, sep: string, s: string, next: nat, n: nat, more: string, ns: seq<nat>,
                             rest: string)
    requires ReadPlaceholder(k, s, next) == Some(Read(n, sep + more))
             && ReadPlaceholders(k, sep, more, next + 1) == Some(Read(ns, rest))
    ensures ReadPlaceholders(k, sep, s, next) == Some(Read([n] + ns, rest))
  {
    DropPrefix(sep, more);
  }

  lemma NumbersCons(k: Kind, first: nat, n: nat)
    requires n > 0
    ensures PlaceholdersFrom(k, first, n) == [Placeholder(k, first)] + PlaceholdersFrom(k, first + 1, n - 1)
    ensures Numbers(first, n) == [first] + Numbers(first + 1, n - 1)
  {
  }

  lemma {:induction false} ReadBackPlaceholders(k: Kind, sep: string, first: nat, n: nat, rest: string)
    requires n > 0 && sep != "" && !StartsWithDigit(sep) && !(sep <= rest) && !StartsWithDigit(rest)
    ensures ReadPlaceholders(k, sep, Join(PlaceholdersFrom(k, first, n), sep) + rest, first) ==
            Some(Read(Numbers(first, n), rest))
    decreases n
  {
    var p := Placeholder(k, first);
    NumbersCons(k, first, n);
    if n == 1 {
      assert PlaceholdersFrom(k, first, n) == [p];
      ReadBackPlaceholder(k, first, rest);
      assert Numbers(first, n) == [first];
    } else {
      var more := Join(PlaceholdersFrom(k, first + 1, n - 1), sep) + rest;
      JoinedCons(p, PlaceholdersFrom(k, first + 1, n - 1), sep, rest);
      NoDigitBeforeConcat(sep, more);
      ReadBackPlaceholder(k, first, sep + more);
      ReadBackPlaceholders(k, sep, first + 1, n - 1, rest);
      ReadPlaceholdersMore(k, sep, p + (sep + more), first, first, more, Numbers(first + 1, n - 1), rest);
    }
  }

  // ---------- statements read back ----------

  predicate TableQuotable(k: Kind, ref: ObjectRef) { QualifiedQuotable(k, SchemaOf(k, ref), ref.name) }

  lemma ReadBackTable(k: Kind, word: string, ref: ObjectRef, rest: string)
    requires rest != "" ==> rest[0] != '.'
    ensures TableText(k, ref).Ok? <==> TableQuotable(k, ref)
    ensures TableQuotable(k, ref) ==>
              ReadTable(k, word, word + (Table(k, ref) + rest)) == Some(Read((SchemaOf(k, ref), ref.name), rest))
  {
    QualifiedForm(k, SchemaOf(k, ref), ref.name);
    if TableQuotable(k, ref) {
      ReadBackQualified(k, SchemaOf(k, ref), ref.name, rest);
      DropPrefix(word, Table(k, ref) + rest);
    }
  }

  lemma ReadBackWhere(k: Kind, pk: seq<string>, first: nat)
    requires |pk| > 0 && AllQuotable(k, pk)
    ensures ReadWhere(k, " WHERE " + Join(Assigns(k, pk, first), " AND "), first) == Some(Bindings(pk, first))
  {
    var conditions := Join(Assigns(k, pk, first), " AND ");
    ReadBackAssigns(k, " AND ", pk, first, "");
    assert conditions + "" == conditions;
    DropPrefix(" WHERE ", conditions);
  }

  lemma ReadBackDelete(k: Kind, ref: ObjectRef, pk: seq<string>)
    requires TableQuotable(k, ref) && |pk| > 0 && AllQuotable(k, pk)
    ensures ReadDelete(k, DeleteText(k, Table(k, ref), pk)) == Some(Delete(SchemaOf(k, ref), ref.name, Bindings(pk, 1)))
  {
    ReadBackTable(k, "DELETE FROM ", ref, " WHERE " + Join(Assigns(k, pk, 1), " AND "));
    ReadBackWhere(k, pk, 1);
  }

  lemma NoAssign(k: Kind, sep: string, s: string, next: nat)
    requires s != "" && s[0] != QuoteChar(k)
    ensures ReadAssigns(k, sep, s, next) == None && ReadColumns(k, sep, s) == None
  {
  }

  lemma OtherStart(a: string, b: string)
    requires a != "" && b != "" && a[0] != b[0]
    ensures !(a <= b)
  {
  }

  lemma ReadBackSets(k: Kind, values: seq<string>, tail: string)
    requires |values| > 0 && AllQuotable(k, values)
    ensures ReadAssigns(k, ", ", Join(Assigns(k, values, 1), ", ") + (" WHERE " + tail), 1) ==
            Some(Read(Bindings(values, 1), " WHERE " + tail))
  {
    var rest := " WHERE " + tail;
    OtherStart(", ", rest);
    ReadBackAssigns(k, ", ", values, 1, rest);
  }

  lemma AfterWord(word: string, s: string)
    ensures After(word, word + s) == Some(s)
  {
    DropPrefix(word, s);
  }

  lemma ReadChangeParts(k: Kind, s1: string, s2: string, sets: seq<Binding>, s3: string, wheres: seq<Binding>)
    requires After(" SET ", s1) == Some(s2)
    requires ReadAssigns(k, ", ", s2, 1) == Some(Read(sets, s3)) && ReadWhere(k, s3, 1 + |sets|) == Some(wheres)
    ensures ReadChange(k, s1) == Some((sets, wheres))
  {
  }

  lemma NothingSet(k: Kind, sets: string, conditions: string)
    requires sets == ""
    ensures ReadChange(k, " SET " + (sets + (" WHERE " + conditions))) == None
  {
    var s := " WHERE " + conditions;
    assert sets + s == s;
    NoAssign(k, ", ", s, 1);
    AfterWord(" SET ", s);
  }

  lemma ReadBackChange(k: Kind, values: seq<string>, pk: seq<string>)
    requires |pk| > 0 && AllQuotable(k, pk) && AllQuotable(k, values)
    ensures ReadChange(k, ChangeText(k, values, pk)) ==
            if values == [] then None else Some((Bindings(values, 1), Bindings(pk, 1 + |values|)))
  {
    var conditions := Join(Assigns(k, pk, 1 + |values|), " AND ");
    var sets := Join(Assigns(k, values, 1), ", ");
    if values == [] {
      NothingSet(k, sets, conditions);
    } else {
      ReadBackSets(k, values, conditions);
      ReadBackWhere(k, pk, 1 + |values|);
      var s2, s3 := sets + (" WHERE " + conditions), " WHERE " + conditions;
      AfterWord(" SET ", s2);
      ReadChangeParts(k, " SET " + s2, s2, Bindings(values, 1), s3, Bindings(pk, 1 + |values|));
    }
  }

  /** An UPDATE reads back when it sets something; with nothing to set it is no statement at all. */
  lemma ReadBackUpdate(k: Kind, ref: ObjectRef, values: seq<string>, pk: seq<string>)
    requires TableQuotable(k, ref) && |pk| > 0 && AllQuotable(k, pk) && AllQuotable(k, values)
    ensures ReadUpdate(k, UpdateText(k, Table(k, ref), values, pk)) ==
            if values == [] then None
            else Some(Update(SchemaOf(k, ref), ref.name, Bindings(values, 1), Bindings(pk, 1 + |values|)))
  {
    ReadBackTable(k, "UPDATE ", ref, ChangeText(k, values, pk));
    ReadBackChange(k, values, pk);
  }

  lemma ReadInsertParts(k: Kind, s: string, schema: string, table: string, s2: string, columns: seq<string>,
                        s4: string, args: seq<nat>)
    requires ReadTable(k, "INSERT INTO ", s) == Some(Read((schema, table), " (" + s2))
    requires ReadColumns(k, ", ", s2) == Some(Read(columns, ") VALUES (" + s4))
    requires ReadPlaceholders(k, ", ", s4, 1) == Some(Read(args, ")"))
    ensures ReadInsert(k, s) == Some(Insert(schema, table, columns, args))
  {
    DropPrefix(" (", s2);
    DropPrefix(") VALUES (", s4);
  }

  lemma NothingInserted(k: Kind, text: string, schema: string, table: string, columns: string, places: string)
    requires columns == ""
    requires ReadTable(k, "INSERT INTO ", text) ==
             Some(Read((schema, table), " (" + (columns + (") VALUES (" + places))))
    ensures ReadInsert(k, text) == None
  {
    var s2 := ") VALUES (" + places;
    assert columns + s2 == s2;
    NoAssign(k, ", ", s2, 1);
    DropPrefix(" (", s2);
  }

  lemma ReadBackColumnList(k: Kind, values: seq<string>, places: string)
    requires |values| > 0 && AllQuotable(k, values)
    ensures ReadColumns(k, ", ", Join(QuotedAll(k, values), ", ") + (") VALUES (" + places)) ==
            Some(Read(values, ") VALUES (" + places))
  {
    var rest := ") VALUES (" + places;
    OtherStart(", ", rest);
    ReadBackColumns(k, ", ", values, rest);
  }

  lemma ReadBackValueList(k: Kind, n: nat)
    requires n > 0
    ensures ReadPlaceholders(k, ", ", Join(Placeholders(k, n), ", ") + ")", 1) == Some(Read(Numbers(1, n), ")"))
  {
    assert Placeholders(k, n) == PlaceholdersFrom(k, 1, n);
    OtherStart(", ", ")");
    ReadBackPlaceholders(k, ", ", 1, n, ")");
  }

  /** An INSERT reads back when it names a column. */
  lemma ReadBackInsert(k: Kind, ref: ObjectRef, values: seq<string>)
    requires TableQuotable(k, ref) && AllQuotable(k, values)
    ensures ReadInsert(k, InsertText(k, Table(k, ref), values)) ==
            if values == [] then None else Some(Insert(SchemaOf(k, ref), ref.name, values, Numbers(1, |values|)))
  {
    var places := Join(Placeholders(k, |values|), ", ") + ")";
    var columns := Join(QuotedAll(k, values), ", ");
    var text := InsertText(k, Table(k, ref), values);
    ReadBackTable(k, "INSERT INTO ", ref, " (" + (columns + (") VALUES (" + places)));
    if values == [] {
      NothingInserted(k, text, SchemaOf(k, ref), ref.name, columns, places);
    } else {
      ReadBackColumnList(k, values, places);
      ReadBackValueList(k, |values|);
      ReadInsertParts(k, text, SchemaOf(k, ref), ref.name, columns + (") VALUES (" + places), values, places,
                      Numbers(1, |values|));
    }
  }
}
