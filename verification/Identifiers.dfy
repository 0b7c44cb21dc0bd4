/** Identifier and literal quoting (internal/dbx/identifier.go) and the decoders that undo it. */
module Identifiers {
  import opened Text
  import opened SqlScanner

  datatype Kind = Postgres | MySQL | SQLite

  datatype IdentError = EmptyIdentifier | ContainsQuote(name: string)

  function QuoteChar(k: Kind): char { if k == MySQL then '`' else '"' }

  function QuoteIdent(k: Kind, name: string): Result<string, IdentError> {
    if name == "" then Err(EmptyIdentifier)
    else if QuoteChar(k) in name then Err(ContainsQuote(name))
    else Ok([QuoteChar(k)] + name + [QuoteChar(k)])
  }

  function Qualified(k: Kind, schema: string, name: string): Result<string, IdentError> {
    if schema == "" then QuoteIdent(k, name)
    else
      match QuoteIdent(k, schema)
      case Err(e) => Err(e)
      case Ok(s) =>
        match QuoteIdent(k, name)
        case Err(e) => Err(e)
        case Ok(n) => Ok(s + "." + n)
  }

  /** The names that can be quoted. */
  predicate Quotable(k: Kind, name: string) { name != "" && QuoteChar(k) !in name }

  predicate QualifiedQuotable(k: Kind, schema: string, name: string) {
    (schema == "" || Quotable(k, schema)) && Quotable(k, name)
  }

  // ---------- reading identifiers back ----------

  datatype Read<+T> = Read(value: T, rest: string)

  /** Reads one quoted identifier at the front of `s`. */
  function ReadIdent(k: Kind, s: string): (r: Option<Read<string>>)
    ensures r.Some? ==> |r.value.rest| < |s|
  {
    if s == "" || s[0] != QuoteChar(k) then None
    else
      var i := IndexOf(s[1..], QuoteChar(k));
      if i == |s| - 1 || i == 0 then None
      else Some(Read(s[1..][..i], s[i + 2..]))
  }

  /** Reads `"name"` or `"schema"."name"`; a missing schema reads as the empty one. */
  function ReadQualified(k: Kind, s: string): (r: Option<Read<(string, string)>>)
    ensures r.Some? ==> |r.value.rest| < |s|
  {
    match ReadIdent(k, s)
    case None => None
    case Some(Read(first, rest)) =>
      if rest != "" && rest[0] == '.' then
        match ReadIdent(k, rest[1..])
        case None => None
        case Some(Read(second, rest')) => Some(Read((first, second), rest'))
      else Some(Read(("", first), rest))
  }

  /** quoteIdent has a left inverse: whatever text follows, the name is read back. */
  lemma ReadBackIdent(k: Kind, name: string, rest: string)
    ensures QuoteIdent(k, name).Ok? <==> Quotable(k, name)
    ensures Quotable(k, name) ==> ReadIdent(k, QuoteIdent(k, name).value + rest) == Some(Read(name, rest))
  {
    if Quotable(k, name) {
      var q := QuoteChar(k);
      var s := QuoteIdent(k, name).value + rest;
      assert s[1..] == name + [q] + rest;
      IndexOfFirst(name, q, rest);
      assert s[1..][..|name|] == name;
      assert s[|name| + 2..] == rest;
    }
  }

  lemma ReadIdentThenMore(k: Kind, s: string, first: string, rest: string)
    requires ReadIdent(k, s) == Some(Read(first, rest))
    ensures rest == "" || rest[0] != '.' ==> ReadQualified(k, s) == Some(Read(("", first), rest))
    ensures rest != "" && rest[0] == '.' && ReadIdent(k, rest[1..]).Some? ==>
              var second := ReadIdent(k, rest[1..]).value;
              ReadQualified(k, s) == Some(Read((first, second.value), second.rest))
  {
  }

  lemma ReadDotted(k: Kind, schema: string, name: string, rest: string)
    requires Quotable(k, schema) && Quotable(k, name)
    requires rest != "" ==> rest[0] != '.'
    ensures ReadQualified(k, QuoteIdent(k, schema).value + ("." + (QuoteIdent(k, name).value + rest)))
            == Some(Read((schema, name), rest))
  {
    var tail := QuoteIdent(k, name).value + rest;
    var more := "." + tail;
    ReadBackIdent(k, name, rest);
    ReadBackIdent(k, schema, more);
    assert more[1..] == tail;
    ReadIdentThenMore(k, QuoteIdent(k, schema).value + more, schema, more);
  }

  lemma ReadBare(k: Kind, name: string, rest: string)
    requires Quotable(k, name)
    requires rest != "" ==> rest[0] != '.'
    ensures ReadQualified(k, QuoteIdent(k, name).value + rest) == Some(Read(("", name), rest))
  {
    ReadBackIdent(k, name, rest);
    ReadIdentThenMore(k, QuoteIdent(k, name).value + rest, name, rest);
  }

  /** Exactly the quotable pairs are accepted; the text has the dotted form. */
  lemma QualifiedForm(k: Kind, schema: string, name: string)
    ensures Qualified(k, schema, name).Ok? <==> QualifiedQuotable(k, schema, name)
    ensures QualifiedQuotable(k, schema, name) ==>
              Qualified(k, schema, name).value ==
              if schema == "" then QuoteIdent(k, name).value
              else QuoteIdent(k, schema).value + "." + QuoteIdent(k, name).value
  {
  }

  /** qualified has a left inverse over (schema, name), the form without schema included. */
  lemma ReadBackQualified(k: Kind, schema: string, name: string, rest: string)
    requires QualifiedQuotable(k, schema, name)
    requires rest != "" ==> rest[0] != '.'
    ensures ReadQualified(k, Qualified(k, schema, name).value + rest) == Some(Read((schema, name), rest))
  {
    QualifiedForm(k, schema, name);
    if schema == "" {
      ReadBare(k, name, rest);
    } else {
      ReadDotted(k, schema, name, rest);
      var s, n := QuoteIdent(k, schema).value, QuoteIdent(k, name).value;
      Reassociate(s, ".", n, rest);
    }
  }

  /** Two different (schema, name) pairs never print the same. */
  lemma QualifiedInjective(k: Kind, s1: string, n1: string, s2: string, n2: string)
    requires QualifiedQuotable(k, s1, n1) && QualifiedQuotable(k, s2, n2)
    requires Qualified(k, s1, n1) == Qualified(k, s2, n2)
    ensures s1 == s2 && n1 == n2
  {
    ReadBackQualified(k, s1, n1, "");
    ReadBackQualified(k, s2, n2, "");
  }

  // ---------- literals ----------

  /** strings.ReplaceAll(s, "'", "''") */
  function DoubleQuotes(s: string): string {
    if s == "" then ""
    else (if s[0] == '\'' then "''" else [s[0]]) + DoubleQuotes(s[1..])
  }

  function QuoteLiteral(s: string): string { "'" + DoubleQuotes(s) + "'" }

  /** Reads a string literal at the front of `s`: a quote, then text in which two quotes stand
      for one, up to the first lone quote. */
  function ReadLiteral(s: string): Option<Read<string>> {
    if s == "" || s[0] != '\'' then None else ReadLiteralBody(s[1..])
  }

  function ReadLiteralBody(s: string): Option<Read<string>> {
    if s == "" then None
    else if s[0] != '\'' then
      match ReadLiteralBody(s[1..])
      case None => None
      case Some(Read(v, rest)) => Some(Read([s[0]] + v, rest))
    else if |s| > 1 && s[1] == '\'' then
      match ReadLiteralBody(s[2..])
      case None => None
      case Some(Read(v, rest)) => Some(Read("'" + v, rest))
    else Some(Read("", s[1..]))
  }

  lemma {:induction false} ReadBackBody(s: string, rest: string)
    requires rest != "" ==> rest[0] != '\''
    ensures ReadLiteralBody(DoubleQuotes(s) + "'" + rest) == Some(Read(s, rest))
  {
    var t := DoubleQuotes(s) + "'" + rest;
    if s == "" {
      assert t == "'" + rest;
    } else {
      ReadBackBody(s[1..], rest);
      var t' := DoubleQuotes(s[1..]) + "'" + rest;
      if s[0] == '\'' {
        assert t == "''" + t' && t[2..] == t';
        assert s == "'" + s[1..];
      } else {
        assert t == [s[0]] + t' && t[1..] == t';
        assert s == [s[0]] + s[1..];
      }
    }
  }

  /** quoteLiteral decodes back to its input, for every string and whatever follows it. */
  lemma ReadBackLiteral(s: string, rest: string)
    requires rest != "" ==> rest[0] != '\''
    ensures ReadLiteral(QuoteLiteral(s) + rest) == Some(Read(s, rest))
  {
    ReadBackBody(s, rest);
    assert (QuoteLiteral(s) + rest)[1..] == DoubleQuotes(s) + "'" + rest;
  }

  // ---------- quoting and the statement splitter ----------

  lemma {:induction false} DoubledStaysInside(s: string)
    ensures After(InSingle, DoubleQuotes(s)) == InSingle && NoCut(InSingle, DoubleQuotes(s))
  {
    if s != "" {
      DoubledStaysInside(s[1..]);
      var rest := DoubleQuotes(s[1..]);
      if s[0] == '\'' {
        assert DoubleQuotes(s)[1..] == "'" + rest && ("'" + rest)[1..] == rest;
      } else {
        assert DoubleQuotes(s)[1..] == rest;
      }
    }
  }

  /** A literal passes through the splitter uncut, for every string. */
  lemma LiteralIsClosed(s: string)
    ensures Closed(QuoteLiteral(s))
  {
    DoubledStaysInside(s);
    var d := DoubleQuotes(s);
    AfterConcat(Neutral, "'" + d, "'");
    AfterConcat(Neutral, "'", d);
    NoCutConcat(Neutral, "'" + d, "'");
    NoCutConcat(Neutral, "'", d);
  }

  lemma {:induction false} NameStaysInside(name: string)
    requires '"' !in name
    ensures After(InDouble, name) == InDouble && NoCut(InDouble, name)
  {
    if name != "" {
      assert name[0] in name;
      NameStaysInside(name[1..]);
    }
  }

  /** A double-quoted identifier passes through the splitter uncut, even when the name holds
      semicolons, apostrophes or newlines. */
  lemma IdentIsClosed(k: Kind, name: string)
    requires k != MySQL && Quotable(k, name)
    ensures Closed(QuoteIdent(k, name).value)
  {
    NameStaysInside(name);
    AfterConcat(Neutral, "\"" + name, "\"");
    AfterConcat(Neutral, "\"", name);
    NoCutConcat(Neutral, "\"" + name, "\"");
    NoCutConcat(Neutral, "\"", name);
  }

  lemma QualifiedIsClosed(k: Kind, schema: string, name: string)
    requires k != MySQL && QualifiedQuotable(k, schema, name)
    ensures Closed(Qualified(k, schema, name).value)
  {
    IdentIsClosed(k, name);
    if schema != "" {
      IdentIsClosed(k, schema);
      PlainIsClosed(".");
      ClosedConcat(QuoteIdent(k, schema).value, ".");
      ClosedConcat(QuoteIdent(k, schema).value + ".", QuoteIdent(k, name).value);
    }
  }

  /** For the backtick dialect the same holds exactly for the names the scanner sees as closed. */
  lemma BacktickIdentClosed(name: string)
    requires Quotable(MySQL, name)
    ensures Closed(QuoteIdent(MySQL, name).value) <==> Closed(name)
  {
    AfterConcat(Neutral, "`" + name, "`");
    AfterConcat(Neutral, "`", name);
    NoCutConcat(Neutral, "`" + name, "`");
    NoCutConcat(Neutral, "`", name);
  }
}
