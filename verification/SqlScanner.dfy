/** The statement splitter of the SQL editor (internal/dbx/exec.go): a byte scanner that
    cuts a text at the semicolons outside single and double quotes. */
module SqlScanner {
  import opened Text

  // ---------- the two quote flags ----------

  /** The pair of flags (inS, inD); both set is not a value of this type. */
  datatype Quote = Neutral | InSingle | InDouble

  function Advance(q: Quote, c: char): Quote {
    if c == '\'' && q != InDouble then (if q == InSingle then Neutral else InSingle)
    else if c == '"' && q != InSingle then (if q == InDouble then Neutral else InDouble)
    else q
  }

  /** The state reached by scanning `s` from state `q`. */
  function After(q: Quote, s: string): Quote
    decreases |s|
  {
    if s == "" then q else After(Advance(q, s[0]), s[1..])
  }

  /** Scanned from `q`, the text has no semicolon outside quotes. */
  predicate NoCut(q: Quote, s: string)
    decreases |s|
  {
    s == "" || (!(s[0] == ';' && q == Neutral) && NoCut(Advance(q, s[0]), s[1..]))
  }

  /** The text opens and closes its quotes and has no semicolon outside them. */
  predicate Closed(s: string) {
    After(Neutral, s) == Neutral && NoCut(Neutral, s)
  }

  lemma {:induction false} AfterConcat(q: Quote, a: string, b: string)
    ensures After(q, a + b) == After(After(q, a), b)
    decreases |a|
  {
    if a == "" {
      assert a + b == b;
    } else {
      AfterConcat(Advance(q, a[0]), a[1..], b);
      assert (a + b)[1..] == a[1..] + b;
    }
  }

  lemma {:induction false} NoCutConcat(q: Quote, a: string, b: string)
    ensures NoCut(q, a + b) <==> NoCut(q, a) && NoCut(After(q, a), b)
    decreases |a|
  {
    if a == "" {
      assert a + b == b;
    } else {
      NoCutConcat(Advance(q, a[0]), a[1..], b);
      assert (a + b)[1..] == a[1..] + b;
    }
  }

  /** NoCut says what its name says: no position holds a semicolon reached in the neutral state. */
  lemma {:induction false} NoCutMeaning(q: Quote, s: string)
    ensures NoCut(q, s) <==> forall i :: 0 <= i < |s| && s[i] == ';' ==> After(q, s[..i]) != Neutral
    decreases |s|
  {
    if s != "" {
      var rest, q' := s[1..], Advance(q, s[0]);
      NoCutMeaning(q', rest);
      forall i | 0 < i < |s| ensures After(q, s[..i]) == After(q', rest[..i - 1]) && s[i] == rest[i - 1] {
        assert s[..i][1..] == rest[..i - 1];
      }
      assert s[..0] == "";
      if !NoCut(q, s) && NoCut(q', rest) {
        assert s[0] == ';' && After(q, s[..0]) == Neutral;
      } else if !NoCut(q', rest) {
        var j :| 0 <= j < |rest| && rest[j] == ';' && After(q', rest[..j]) == Neutral;
        assert s[j + 1] == ';' && After(q, s[..j + 1]) == Neutral;
      }
    }
  }

  lemma {:induction false} SpaceKeepsState(q: Quote, s: string)
    requires AllSpace(s)
    ensures After(q, s) == q && NoCut(q, s)
  {
    if s != "" {
      assert s[0] in s;
      SpaceKeepsState(q, s[1..]);
    }
  }

  // ---------- where the text is cut ----------

  /** The text cut at every semicolon outside quotes. */
  function Cut(s: string): (segs: seq<string>)
    ensures |segs| > 0
  {
    if s == "" then [""]
    else
      var init, c := s[..|s| - 1], s[|s| - 1];
      var segs := Cut(init);
      if c == ';' && After(Neutral, init) == Neutral then segs + [""]
      else Grow(segs, c)
  }

  /** The last segment extended by one character. */
  function Grow(segs: seq<string>, c: char): (r: seq<string>)
    requires |segs| > 0
    ensures |r| == |segs|
  {
    segs[..|segs| - 1] + [segs[|segs| - 1] + [c]]
  }

  lemma GrowConcat(a: seq<string>, b: seq<string>, c: char)
    requires |b| > 0
    ensures Grow(a + b, c) == a + Grow(b, c)
  {
    assert (a + b)[..|a + b| - 1] == a + b[..|b| - 1];
  }

  /** Every segment is free of unquoted semicolons and all but the last leave the scanner neutral. */
  predicate Separated(segs: seq<string>) {
    && (forall i :: 0 <= i < |segs| ==> NoCut(Neutral, segs[i]))
    && (forall i :: 0 <= i < |segs| - 1 ==> After(Neutral, segs[i]) == Neutral)
  }

  lemma CutSnoc(s: string, c: char)
    ensures Cut(s + [c]) ==
            if c == ';' && After(Neutral, s) == Neutral then Cut(s) + [""]
            else Grow(Cut(s), c)
  {
    assert (s + [c])[..|s|] == s;
  }

  /** A semicolon outside quotes ends a segment: cutting distributes over it. */
  lemma {:induction false} CutAtSemicolon(a: string, b: string)
    requires After(Neutral, a) == Neutral
    ensures Cut(a + ";" + b) == Cut(a) + Cut(b)
    decreases |b|
  {
    if b == "" {
      assert a + ";" + b == a + [';'];
      CutSnoc(a, ';');
    } else {
      var init, c := b[..|b| - 1], b[|b| - 1];
      CutAtSemicolon(a, init);
      assert b == init + [c];
      Assoc(a + ";", init, [c]);
      CutSnoc(a + ";" + init, c);
      CutSnoc(init, c);
      AfterConcat(Neutral, a + ";", init);
      AfterConcat(Neutral, a, ";");
      if c == ';' && After(Neutral, init) == Neutral {
        Assoc(Cut(a), Cut(init), [""]);
      } else {
        GrowConcat(Cut(a), Cut(init), c);
      }
    }
  }

  lemma {:induction false} CutWhole(s: string)
    requires NoCut(Neutral, s)
    ensures Cut(s) == [s]
  {
    if s != "" {
      var init, c := s[..|s| - 1], s[|s| - 1];
      assert s == init + [c];
      NoCutConcat(Neutral, init, [c]);
      CutWhole(init);
    }
  }

  lemma {:induction false} CutOfJoin(segs: seq<string>)
    requires |segs| > 0 && Separated(segs)
    ensures Cut(Join(segs, ";")) == segs
  {
    if |segs| == 1 {
      CutWhole(segs[0]);
    } else {
      CutOfJoin(segs[1..]);
      CutAtSemicolon(segs[0], Join(segs[1..], ";"));
      CutWhole(segs[0]);
      assert segs == [segs[0]] + segs[1..];
    }
  }

  lemma NewSegmentJoins(segs: seq<string>)
    requires |segs| > 0
    ensures Join(segs + [""], ";") == Join(segs, ";") + ";"
  {
    JoinSnoc(segs, ";", "");
  }

  lemma LastSplit(segs: seq<string>) returns (init: seq<string>, last: string)
    requires |segs| > 0
    ensures segs == init + [last] && init == segs[..|segs| - 1] && last == segs[|segs| - 1]
  {
    init, last := segs[..|segs| - 1], segs[|segs| - 1];
  }

  lemma GrowJoins(segs: seq<string>, c: char)
    requires |segs| > 0
    ensures Join(Grow(segs, c), ";") == Join(segs, ";") + [c]
  {
    var init, last := LastSplit(segs);
    JoinExtendLast(init, ";", last, [c]);
  }

  lemma {:induction false} CutIsLossless(s: string)
    ensures Join(Cut(s), ";") == s
  {
    if s != "" {
      var init, c := s[..|s| - 1], s[|s| - 1];
      CutIsLossless(init);
      NewSegmentJoins(Cut(init));
      GrowJoins(Cut(init), c);
      assert s == init + [c];
    }
  }

  lemma {:induction false} CutIsExact(s: string)
    ensures Join(Cut(s), ";") == s
    ensures Separated(Cut(s))
    ensures After(Neutral, Cut(s)[|Cut(s)| - 1]) == After(Neutral, s)
  {
    CutIsLossless(s);
    if s != "" {
      var init, c := s[..|s| - 1], s[|s| - 1];
      CutIsExact(init);
      assert s == init + [c];
      AfterConcat(Neutral, init, [c]);
      if c != ';' || After(Neutral, init) != Neutral {
        var last := Cut(init)[|Cut(init)| - 1];
        AfterConcat(Neutral, last, [c]);
        NoCutConcat(Neutral, last, [c]);
      }
    }
  }

  /** Losslessness and exactness together, as an if-and-only-if: the segments are the only list
      that rejoins to the text, has no unquoted semicolon inside a segment, and ends every
      segment closed by a semicolon in the neutral state. */
  lemma CutCharacterised(s: string, segs: seq<string>)
    ensures segs == Cut(s) <==> |segs| > 0 && Join(segs, ";") == s && Separated(segs)
  {
    CutIsExact(s);
    if |segs| > 0 && Join(segs, ";") == s && Separated(segs) {
      CutOfJoin(segs);
    }
  }

  // ---------- splitSQL ----------

  /** splitSQL drops one trailing segment, and only if it is blank. */
  function SplitSql(s: string): seq<string> {
    var segs := Cut(s);
    if Trim(segs[|segs| - 1]) != "" then segs else segs[..|segs| - 1]
  }

  method SplitSqlText(s: string) returns (out: seq<string>)
    ensures out == SplitSql(s)
    ensures Separated(out)
    ensures exists tail :: AllSpace(tail) && s in {Join(out, ";"), Join(out + [tail], ";")}
  {
    out := [];
    var cur := "";
    var inS, inD := false, false;
    for i := 0 to |s|
      invariant !(inS && inD)
      invariant After(Neutral, s[..i]) == if inS then InSingle else if inD then InDouble else Neutral
      invariant out + [cur] == Cut(s[..i])
    {
      var c := s[i];
      CutSnoc(s[..i], c);
      AfterConcat(Neutral, s[..i], [c]);
      assert s[..i + 1] == s[..i] + [c];
      GrowConcat(out, [cur], c);
      if c == '\'' && !inD {
        inS := !inS;
        cur := cur + [c];
      } else if c == '"' && !inS {
        inD := !inD;
        cur := cur + [c];
      } else if c == ';' && !inS && !inD {
        out := out + [cur];
        cur := "";
      } else {
        cur := cur + [c];
      }
    }
    assert s[..|s|] == s;
    CutIsExact(s);
    assert (out + [cur])[..|out|] == out;
    var _, _ := TrimDecomposes(cur);
    ghost var all := out + [cur];
    if Trim(cur) != "" {
      out := out + [cur];
      assert AllSpace("") && s == Join(out, ";");
    } else {
      assert forall i :: 0 <= i < |out| ==> out[i] == all[i];
      assert AllSpace(cur) && s == Join(out + [cur], ";");
    }
  }

  // ---------- the statements that are run ----------

  /** Trim every segment and drop the blank ones. */
  function Clean(segs: seq<string>): seq<string> {
    if segs == [] then []
    else (if Trim(segs[0]) == "" then [] else [Trim(segs[0])]) + Clean(segs[1..])
  }

  function Statements(sqlText: string): seq<string> { Clean(SplitSql(sqlText)) }

  datatype ExecError = NoStatement

  lemma CleanNext(stmts: seq<string>, i: nat)
    requires i < |stmts|
    ensures Clean(stmts[..i + 1]) == Clean(stmts[..i]) + (if Trim(stmts[i]) == "" then [] else [Trim(stmts[i])])
    ensures Trim(stmts[i]) == "" ==> Clean(stmts[..i + 1]) == Clean(stmts[..i])
  {
    assert stmts[..i + 1] == stmts[..i] + [stmts[i]];
    CleanSnoc(stmts[..i], stmts[i]);
  }

  /** runStatements, as the list of statements handed to the database in order. */
  method RunStatements(sqlText: string) returns (r: Result<seq<string>, ExecError>)
    ensures Statements(sqlText) == [] ==> r == Err(NoStatement)
    ensures Statements(sqlText) != [] ==> r == Ok(Statements(sqlText))
  {
    var stmts := SplitSqlText(sqlText);
    var out := [];
    for i := 0 to |stmts|
      invariant out == Clean(stmts[..i])
    {
      CleanNext(stmts, i);
      var stmt := Trim(stmts[i]);
      if stmt == "" {
        continue;
      }
      out := out + [stmt];
    }
    assert stmts[..|stmts|] == stmts;
    if |out| == 0 {
      return Err(NoStatement);
    }
    return Ok(out);
  }

  lemma {:induction false} CleanConcat(a: seq<string>, b: seq<string>)
    ensures Clean(a + b) == Clean(a) + Clean(b)
  {
    if a == [] {
      assert a + b == b;
    } else {
      CleanConcat(a[1..], b);
      assert (a + b)[1..] == a[1..] + b;
      Assoc(if Trim(a[0]) == "" then [] else [Trim(a[0])], Clean(a[1..]), Clean(b));
    }
  }

  lemma CleanSnoc(segs: seq<string>, last: string)
    ensures Clean(segs + [last]) == Clean(segs) + if Trim(last) == "" then [] else [Trim(last)]
  {
    CleanConcat(segs, [last]);
    assert Clean([last][1..]) == [];
  }

  lemma StatementsAreCleanCuts(s: string)
    ensures Statements(s) == Clean(Cut(s))
  {
    var segs := Cut(s);
    var n := |segs| - 1;
    assert segs == segs[..n] + [segs[n]];
    CleanSnoc(segs[..n], segs[n]);
  }

  /** A text left open by a quote swallows the semicolon that follows it. */
  lemma {:induction false} OpenQuoteSwallows(a: string, b: string) returns (rest: string, tail: seq<string>)
    requires After(Neutral, a) != Neutral
    ensures var n := |Cut(a)| - 1;
            Cut(a + ";" + b) == Cut(a)[..n] + [Cut(a)[n] + ";" + rest] + tail
    decreases |b|
  {
    var n := |Cut(a)| - 1;
    var done, open := Cut(a)[..n], Cut(a)[n] + ";";
    if b == "" {
      assert a + ";" + b == a + [';'];
      CutSnoc(a, ';');
      rest, tail := "", [];
      assert open + "" == Cut(a)[n] + [';'];
    } else {
      var init, c := b[..|b| - 1], b[|b| - 1];
      var r, t := OpenQuoteSwallows(a, init);
      assert b == init + [c];
      Assoc(a + ";", init, [c]);
      CutSnoc(a + ";" + init, c);
      if c == ';' && After(Neutral, a + ";" + init) == Neutral {
        rest, tail := r, t + [""];
        Assoc(done + [open + r], t, [""]);
      } else {
        rest, tail := GrowOpen(done, open, r, t, c);
      }
    }
  }

  lemma GrowOpen(done: seq<string>, open: string, r: string, t: seq<string>, c: char)
    returns (rest: string, tail: seq<string>)
    ensures Grow(done + [open + r] + t, c) == done + [open + rest] + tail
  {
    if t == [] {
      rest, tail := r + [c], [];
      GrowConcat(done, [open + r], c);
      Assoc(open, r, [c]);
      assert done + [open + r] + [] == done + [open + r];
      assert done + [open + rest] + [] == done + [open + rest];
    } else {
      rest, tail := r, Grow(t, c);
      GrowConcat(done + [open + r], t, c);
    }
  }

  lemma TrimOfLonger(p: string, rest: string)
    requires !AllSpace(p)
    ensures |Trim(p + ";" + rest)| > |Trim(p)|
  {
    var t := TrimLeft(p);
    var _ := TrimLeftSplits(p);
    TrimLeftConcat(p, ";" + rest);
    assert p + (";" + rest) == p + ";" + rest;
    TrimRightKeeps(t + (";" + rest), |t|);
    var _ := TrimRightSplits(t);
  }

  /** Unless the first text ends outside quotes, the joined text runs other statements. */
  lemma OpenQuoteChangesStatements(a: string, b: string)
    requires After(Neutral, a) != Neutral
    ensures Statements(a + ";" + b) != Statements(a) + Statements(b)
  {
    StatementsAreCleanCuts(a);
    StatementsAreCleanCuts(a + ";" + b);
    var n := |Cut(a)| - 1;
    var init, last := Cut(a)[..n], Cut(a)[n];
    CutIsExact(a);
    if AllSpace(last) { SpaceKeepsState(Neutral, last); }
    var _, _ := TrimDecomposes(last);
    assert Cut(a) == init + [last];
    CleanSnoc(init, last);
    var rest, tail := OpenQuoteSwallows(a, b);
    var grown := last + ";" + rest;
    TrimOfLonger(last, rest);
    CleanSnoc(init, grown);
    CleanConcat(init + [grown], tail);
    var k := |Clean(init)|;
    assert Statements(a + ";" + b)[k] == Trim(grown);
    assert (Statements(a) + Statements(b))[k] == Trim(last);
  }

  /** Two texts joined by a semicolon run the statements of the first and then those of the
      second, exactly when the first ends outside quotes. */
  lemma StatementsHomomorphism(a: string, b: string)
    ensures Statements(a + ";" + b) == Statements(a) + Statements(b) <==> After(Neutral, a) == Neutral
  {
    if After(Neutral, a) == Neutral {
      StatementsAreCleanCuts(a);
      StatementsAreCleanCuts(b);
      StatementsAreCleanCuts(a + ";" + b);
      CutAtSemicolon(a, b);
      CleanConcat(Cut(a), Cut(b));
    } else {
      OpenQuoteChangesStatements(a, b);
    }
  }

  lemma TrimKeepsScan(seg: string)
    ensures After(Neutral, Trim(seg)) == After(Neutral, seg)
    ensures NoCut(Neutral, seg) ==> NoCut(Neutral, Trim(seg))
  {
    var left, right := TrimDecomposes(seg);
    var mid := Trim(seg);
    SpaceKeepsState(Neutral, left);
    SpaceKeepsState(After(Neutral, mid), right);
    AfterConcat(Neutral, left + mid, right);
    AfterConcat(Neutral, left, mid);
    NoCutConcat(Neutral, left + mid, right);
    NoCutConcat(Neutral, left, mid);
  }

  lemma {:induction false} CleanKeepsSeparated(segs: seq<string>)
    requires Separated(segs)
    ensures Separated(Clean(segs))
    ensures Clean(Clean(segs)) == Clean(segs)
  {
    if segs != [] {
      CleanKeepsSeparated(segs[1..]);
      TrimKeepsScan(segs[0]);
      TrimIdempotent(segs[0]);
      var t, rest := Trim(segs[0]), Clean(segs[1..]);
      if t != "" {
        assert ([t] + rest)[1..] == rest;
      } else {
        assert Clean(segs) == rest;
      }
    }
  }

  /** Normal form: the statements, joined by semicolons, are the statements of the joined text. */
  lemma StatementsFixpoint(s: string)
    ensures Statements(Join(Statements(s), ";")) == Statements(s)
  {
    var list := Statements(s);
    StatementsAreCleanCuts(s);
    StatementsAreCleanCuts(Join(list, ";"));
    CutIsExact(s);
    CleanKeepsSeparated(Cut(s));
    if list != [] {
      CutOfJoin(list);
    }
  }

  /** One closed statement with no white space around it is one statement to the editor. */
  lemma ClosedIsOneStatement(s: string)
    requires Closed(s) && Trim(s) == s && s != ""
    ensures Statements(s) == [s]
  {
    StatementsAreCleanCuts(s);
    CutWhole(s);
    assert Clean([s][1..]) == [];
  }

  // ---------- composing closed texts ----------

  lemma ClosedConcat(a: string, b: string)
    requires Closed(a) && Closed(b)
    ensures Closed(a + b)
  {
    AfterConcat(Neutral, a, b);
    NoCutConcat(Neutral, a, b);
  }

  predicate Plain(s: string) { '\'' !in s && '"' !in s && ';' !in s }

  /** A text without quotes and semicolons is closed. */
  lemma {:induction false} PlainIsClosed(s: string)
    requires Plain(s)
    ensures Closed(s)
  {
    if s != "" {
      assert s[0] in s;
      PlainIsClosed(s[1..]);
    }
  }

  /** Plain keywords around closed texts. */
  lemma Enclosed(p: string, x: string, q: string)
    requires Plain(p) && Closed(x) && Plain(q)
    ensures Closed(p + x + q)
  {
    PlainIsClosed(p);
    PlainIsClosed(q);
    ClosedConcat(p, x);
    ClosedConcat(p + x, q);
  }

  lemma AlsoEnclosed(p: string, x: string, q: string)
    requires Closed(p) && Closed(x) && Plain(q)
    ensures Closed(p + x + q)
  {
    PlainIsClosed(q);
    ClosedConcat(p, x);
    ClosedConcat(p + x, q);
  }

  predicate AllClosed(parts: seq<string>) {
    forall i :: 0 <= i < |parts| ==> Closed(parts[i])
  }

  lemma AllClosedConcat(a: seq<string>, b: seq<string>)
    requires AllClosed(a) && AllClosed(b)
    ensures AllClosed(a + b)
  {
  }

  lemma {:induction false} JoinIsClosed(parts: seq<string>, sep: string)
    requires Plain(sep) && AllClosed(parts)
    ensures Closed(Join(parts, sep))
  {
    if |parts| > 1 {
      JoinIsClosed(parts[1..], sep);
      PlainIsClosed(sep);
      ClosedConcat(parts[0], sep);
      ClosedConcat(parts[0] + sep, Join(parts[1..], sep));
    }
  }
}
