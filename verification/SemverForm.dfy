/** Which tags parse (internal/updates/updates.go), stated by the form of the text. */
module SemverForm {
  import opened Text
  import opened Decimals
  import opened Semver

  predicate AllDigits(s: string) { forall i :: 0 <= i < |s| ==> '0' <= s[i] <= '9' }

  /** The value of a text of digits. */
  function Number(s: string): nat
    requires AllDigits(s)
  {
    if s == "" then 0
    else
      var last := s[|s| - 1];
      Number(s[..|s| - 1]) * 10 + (last - '0') as nat
  }

  /** A part of a version: digits, leading zeros included, with a value in the range of int. */
  predicate IsPart(s: string) { s != "" && AllDigits(s) && Number(s) <= MAX_INT }

  function CoreText(a: string, b: string, c: string): string { a + (['.'] + (b + (['.'] + c))) }

  /** White space, an optional "v", three parts with dots between them, an optional suffix, white space. */
  predicate HasForm(s: string, left: string, v: string, a: string, b: string, c: string, suffix: string,
                    right: string)
  {
    && s == left + (v + (CoreText(a, b, c) + suffix)) + right
    && AllSpace(left) && AllSpace(right) && (v == "" || v == "v")
    && IsPart(a) && IsPart(b) && IsPart(c) && IsSuffix(suffix)
  }

  // ---------- parts ----------

  function NumberAfter(value: nat, s: string): nat
    requires AllDigits(s)
    decreases |s|
  {
    if s == "" then value else NumberAfter(value * 10 + (s[0] - '0') as nat, s[1..])
  }

  lemma {:induction false} NumberAfterSnoc(value: nat, s: string, c: char)
    requires AllDigits(s) && '0' <= c <= '9'
    ensures AllDigits(s + [c])
    ensures NumberAfter(value, s + [c]) == NumberAfter(value, s) * 10 + (c - '0') as nat
    decreases |s|
  {
    if s == "" {
      assert [c][1..] == "";
      assert NumberAfter(value * 10 + (c - '0') as nat, "") == value * 10 + (c - '0') as nat;
    } else {
      assert (s + [c])[1..] == s[1..] + [c];
      NumberAfterSnoc(value * 10 + (s[0] - '0') as nat, s[1..], c);
    }
  }

  lemma {:induction false} NumberFromLeft(s: string)
    requires AllDigits(s)
    ensures NumberAfter(0, s) == Number(s)
  {
    if s != "" {
      var init, c := s[..|s| - 1], s[|s| - 1];
      NumberFromLeft(init);
      NumberAfterSnoc(0, init, c);
      assert s == init + [c];
    }
  }

  lemma {:induction false} ReadMoreDigits(s: string, value: nat)
    ensures ReadMore(s, value).1 == "" <==> AllDigits(s)
    ensures AllDigits(s) ==> ReadMore(s, value) == (NumberAfter(value, s), "")
  {
    if StartsWithDigit(s) {
      var next := value * 10 + DigitValue(s[0]).value;
      ReadMoreDigits(s[1..], next);
      assert AllDigits(s[1..]) ==> forall i :: 0 < i < |s| ==> s[i] == s[1..][i - 1];
    }
  }

  lemma PartParses(p: string)
    requires forall c :: c in p ==> !IsSuffixStart(c)
    ensures ParsePart(p) == if IsPart(p) then Some(Number(p)) else None
  {
    ReadMoreDigits(p, 0);
    if p != "" { assert p[0] in p; }
    if AllDigits(p) { NumberFromLeft(p); }
  }

  // ---------- every text of the form parses ----------

  lemma PartHasNo(p: string, c: char)
    requires IsPart(p) && !('0' <= c <= '9')
    ensures c !in p
  {
  }

  lemma CoreChars(a: string, b: string, c: string, x: char)
    requires IsPart(a) && IsPart(b) && IsPart(c) && x in CoreText(a, b, c)
    ensures x == '.' || '0' <= x <= '9'
  {
    if x in a || x in b || x in c {
    } else {
      assert x == '.';
    }
  }

  lemma FormTight(v: string, a: string, b: string, c: string, suffix: string)
    requires IsPart(a) && IsPart(b) && IsPart(c) && IsSuffix(suffix) && (v == "" || v == "v")
    ensures var body := CoreText(a, b, c) + suffix;
            body != "" && Tight(v + body) && WithoutV(v + body) == body
  {
    var core := CoreText(a, b, c);
    var body := core + suffix;
    var tag := v + body;
    assert core[0] == a[0] && core[|core| - 1] == c[|c| - 1];
    assert body[0] == core[0];
    assert body[|body| - 1] == if suffix == "" then core[|core| - 1] else suffix[|suffix| - 1];
    assert tag[|tag| - 1] == body[|body| - 1];
  }

  lemma CoreCut(a: string, b: string, c: string, suffix: string)
    requires IsPart(a) && IsPart(b) && IsPart(c) && IsSuffix(suffix)
    ensures WithoutSuffix(CoreText(a, b, c) + suffix) == CoreText(a, b, c)
  {
    forall x | x in CoreText(a, b, c)
      ensures !IsSuffixStart(x)
    {
      CoreChars(a, b, c, x);
    }
    SuffixCut(CoreText(a, b, c), suffix);
  }

  lemma CoreTextParses(s: string, a: string, b: string, c: string)
    requires IsPart(a) && IsPart(b) && IsPart(c)
    requires WithoutV(Trim(s)) != "" && Core(s) == CoreText(a, b, c)
    ensures Parse(s) == Some(Version(Number(a), Number(b), Number(c)))
  {
    PartHasNo(a, '.');
    PartHasNo(b, '.');
    PartHasNo(c, '.');
    SplitCore(a, b, c);
    PartIsParsed(a);
    PartIsParsed(b);
    PartIsParsed(c);
  }

  lemma PartIsParsed(p: string)
    requires IsPart(p)
    ensures ParsePart(p) == Some(Number(p))
  {
    PartHasNo(p, '-');
    PartHasNo(p, '+');
    PartParses(p);
  }

  lemma FormParses(s: string, left: string, v: string, a: string, b: string, c: string, suffix: string, right: string)
    requires HasForm(s, left, v, a, b, c, suffix, right)
    ensures Parse(s) == Some(Version(Number(a), Number(b), Number(c)))
  {
    var body := CoreText(a, b, c) + suffix;
    FormTight(v, a, b, c, suffix);
    TrimAround(left, v + body, right);
    CoreCut(a, b, c, suffix);
    CoreTextParses(s, a, b, c);
  }

  // ---------- every text that parses has the form ----------

  lemma {:induction false} SplitJoins(s: string, sep: char)
    ensures Join(Split(s, sep), [sep]) == s
    decreases |s|
  {
    var i := IndexOf(s, sep);
    if i != |s| {
      SplitJoins(s[i + 1..], sep);
      JoinCons(s[..i], Split(s[i + 1..], sep), [sep]);
      assert s == s[..i] + ([sep] + s[i + 1..]);
    }
  }

  lemma JoinThree(a: string, b: string, c: string)
    ensures Join([a, b, c], ['.']) == CoreText(a, b, c)
  {
    JoinCons(b, [c], ['.']);
    JoinCons(a, [b, c], ['.']);
    assert [a] + [b, c] == [a, b, c] && [b] + [c] == [b, c];
  }

  lemma {:induction false} SuffixSplits(s: string) returns (suffix: string)
    ensures s == WithoutSuffix(s) + suffix
    ensures suffix != "" ==> IsSuffixStart(suffix[0])
  {
    if s == "" || IsSuffixStart(s[0]) {
      suffix := s;
    } else {
      suffix := SuffixSplits(s[1..]);
    }
  }

  lemma VSplits(s: string) returns (v: string)
    ensures s == v + WithoutV(s) && (v == "" || v == "v")
  {
    v := if s != "" && s[0] == 'v' then "v" else "";
  }

  lemma CorePartsSigned(s: string, p: string)
    requires p in Split(Core(s), '.')
    ensures forall c :: c in p ==> !IsSuffixStart(c)
  {
    forall c | c in p ensures !IsSuffixStart(c) {
      PartsComeFrom(Core(s), '.', p, c);
      NoSignLeft(WithoutV(Trim(s)), c);
    }
  }

  lemma ParsedParts(s: string) returns (a: string, b: string, c: string)
    requires Parse(s).Some?
    ensures IsPart(a) && IsPart(b) && IsPart(c) && Core(s) == CoreText(a, b, c)
    ensures Parse(s) == Some(Version(Number(a), Number(b), Number(c)))
  {
    var parts := Split(Core(s), '.');
    a, b, c := parts[0], parts[1], parts[2];
    assert parts == [a, b, c];
    assert a in parts && b in parts && c in parts;
    SplitJoins(Core(s), '.');
    JoinThree(a, b, c);
    CorePartsSigned(s, a);
    CorePartsSigned(s, b);
    CorePartsSigned(s, c);
    PartParses(a);
    PartParses(b);
    PartParses(c);
  }

  lemma LastOfTight(v: string, core: string, suffix: string)
    requires Tight(v + (core + suffix)) && suffix != ""
    ensures !IsSpace(suffix[|suffix| - 1])
  {
    var t := v + (core + suffix);
    assert t[|t| - 1] == suffix[|suffix| - 1];
  }

  lemma ParsedHasForm(s: string)
    returns (left: string, v: string, a: string, b: string, c: string, suffix: string, right: string)
    requires Parse(s).Some?
    ensures HasForm(s, left, v, a, b, c, suffix, right)
    ensures Parse(s) == Some(Version(Number(a), Number(b), Number(c)))
  {
    left, right := TrimDecomposes(s);
    v := VSplits(Trim(s));
    suffix := SuffixSplits(WithoutV(Trim(s)));
    a, b, c := ParsedParts(s);
    if suffix != "" { LastOfTight(v, CoreText(a, b, c), suffix); }
  }

  /** Which tags parse, exactly: those of the form, with the values of their parts. */
  lemma ParsesExactly(s: string, version: Version)
    ensures Parse(s) == Some(version) <==>
            exists left, v, a, b, c, suffix, right ::
              HasForm(s, left, v, a, b, c, suffix, right) && version == Version(Number(a), Number(b), Number(c))
  {
    if Parse(s) == Some(version) {
      var left, v, a, b, c, suffix, right := ParsedHasForm(s);
      assert HasForm(s, left, v, a, b, c, suffix, right);
    } else if exists left, v, a, b, c, suffix, right ::
        HasForm(s, left, v, a, b, c, suffix, right) && version == Version(Number(a), Number(b), Number(c)) {
      var left, v, a, b, c, suffix, right :|
        HasForm(s, left, v, a, b, c, suffix, right) && version == Version(Number(a), Number(b), Number(c));
      FormParses(s, left, v, a, b, c, suffix, right);
    }
  }

  lemma FormHasDot(s: string, left: string, v: string, a: string, b: string, c: string, suffix: string, right: string)
    requires HasForm(s, left, v, a, b, c, suffix, right)
    ensures '.' in s
  {
    assert s[|left| + |v| + |a|] == '.';
  }

  /** A tag without a dot, like "dev", does not parse: it is never newer, and nothing is newer than it. */
  lemma NoDotNoVersion(s: string, other: string)
    requires '.' !in s
    ensures Parse(s) == None && !IsNewer(s, other) && !IsNewer(other, s)
  {
    if Parse(s).Some? {
      var left, v, a, b, c, suffix, right := ParsedHasForm(s);
      FormHasDot(s, left, v, a, b, c, suffix, right);
    }
  }
}
