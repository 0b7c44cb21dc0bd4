/** Release tags (internal/updates/updates.go): the parser of "vX.Y.Z" and the order of versions. */
module Semver {
  import opened Text
  import opened Decimals

  const MAX_INT := 0x7FFF_FFFF_FFFF_FFFF

  // ---------- library functions ----------

  /** strconv.Atoi on a 64-bit machine. */
  function Atoi(s: string): (r: Option<int>)
    ensures r.Some? ==> -MAX_INT - 1 <= r.value <= MAX_INT
    ensures r.Some? && r.value < 0 ==> s != "" && s[0] == '-'
  {
    var negative := s != "" && s[0] == '-';
    var digits := if s != "" && (s[0] == '-' || s[0] == '+') then s[1..] else s;
    var (n, rest) := ReadMore(digits, 0);
    if !StartsWithDigit(digits) || rest != "" || n > MAX_INT + (if negative then 1 else 0) then None
    else
      var value: int := n;
      Some(if negative then -value else value)
  }

  predicate IsSuffixStart(c: char) { c == '-' || c == '+' }

  /** The text before the first '-' or '+'. */
  function WithoutSuffix(s: string): string {
    if s == "" || IsSuffixStart(s[0]) then "" else [s[0]] + WithoutSuffix(s[1..])
  }

  function Split(s: string, sep: char): (parts: seq<string>)
    ensures |parts| > 0
    decreases |s|
  {
    var i := IndexOf(s, sep);
    if i == |s| then [s] else [s[..i]] + Split(s[i + 1..], sep)
  }

  function WithoutV(s: string): string { if s != "" && s[0] == 'v' then s[1..] else s }

  // ---------- the parser ----------

  datatype Version = Version(major: int, minor: int, patch: int)

  function ParsePart(p: string): Option<int> {
    if Atoi(p).Some? && Atoi(p).value >= 0 then Atoi(p) else None
  }

  /** What is split at the dots. */
  function Core(s: string): string { WithoutSuffix(WithoutV(Trim(s))) }

  function Parse(s: string): Option<Version> {
    var parts := Split(Core(s), '.');
    if WithoutV(Trim(s)) == "" || |parts| != 3 then None
    else if ParsePart(parts[0]) == None || ParsePart(parts[1]) == None || ParsePart(parts[2]) == None then None
    else Some(Version(ParsePart(parts[0]).value, ParsePart(parts[1]).value, ParsePart(parts[2]).value))
  }

  method ParseSemver(s: string) returns (out: seq<int>, ok: bool)
    ensures ok <==> Parse(s).Some?
    ensures ok ==> |out| == 3 && Parse(s) == Some(Version(out[0], out[1], out[2]))
  {
    out := [0, 0, 0];
    var t := WithoutV(Trim(s));
    if t == "" {
      return out, false;
    }
    var parts := Split(WithoutSuffix(t), '.');
    if |parts| != 3 {
      return out, false;
    }
    for i := 0 to 3
      invariant |out| == 3
      invariant forall j :: 0 <= j < i ==> ParsePart(parts[j]) == Some(out[j])
    {
      var n := Atoi(parts[i]);
      if n == None || n.value < 0 {
        assert ParsePart(parts[i]) == None;
        return out, false;
      }
      out := out[i := n.value];
    }
    ok := true;
  }

  predicate Greater(a: Version, b: Version) {
    if a.major != b.major then a.major > b.major
    else if a.minor != b.minor then a.minor > b.minor
    else a.patch > b.patch
  }

  predicate IsNewer(latest: string, current: string) {
    Parse(latest).Some? && Parse(current).Some? && Greater(Parse(latest).value, Parse(current).value)
  }

  method Newer(latest: string, current: string) returns (r: bool)
    ensures r == IsNewer(latest, current)
  {
    var lParts, lOK := ParseSemver(latest);
    var cParts, cOK := ParseSemver(current);
    if !lOK || !cOK {
      return false;
    }
    for i := 0 to 3
      invariant forall j :: 0 <= j < i ==> lParts[j] == cParts[j]
    {
      if lParts[i] != cParts[i] {
        return lParts[i] > cParts[i];
      }
    }
    return false;
  }

  // ---------- the order ----------

  /** A strict order, whatever the tags are. */
  lemma NewerIsStrictOrder(a: string, b: string, c: string)
    ensures !IsNewer(a, a)
    ensures IsNewer(a, b) ==> !IsNewer(b, a)
    ensures IsNewer(a, b) && IsNewer(b, c) ==> IsNewer(a, c)
  {
  }

  /** Tags neither of which is newer. */
  predicate Tied(a: string, b: string) { !IsNewer(a, b) && !IsNewer(b, a) }

  /** On tags that parse the order is total on the triples: ties are equal versions. */
  lemma TiedIsEqual(a: string, b: string)
    requires Parse(a).Some? && Parse(b).Some?
    ensures Tied(a, b) <==> Parse(a) == Parse(b)
  {
  }

  /** Ties carry over through a tag exactly unless it is one that does not parse, between two that do
      and differ: that is where the order is not a weak order. */
  lemma TiesCarryOver(a: string, b: string, c: string)
    requires Tied(a, b) && Tied(b, c)
    ensures Tied(a, c) <==> !(Parse(b).None? && Parse(a).Some? && Parse(c).Some? && Parse(a) != Parse(c))
  {
    if Parse(a).Some? && Parse(b).Some? {
      TiedIsEqual(a, b);
    }
    if Parse(b).Some? && Parse(c).Some? {
      TiedIsEqual(b, c);
    }
    if Parse(a).Some? && Parse(c).Some? {
      TiedIsEqual(a, c);
    }
  }

  // ---------- reading back printed versions ----------

  function PrintCore(v: Version): string
    requires v.major >= 0 && v.minor >= 0 && v.patch >= 0
  {
    Decimal(v.major) + (['.'] + (Decimal(v.minor) + (['.'] + Decimal(v.patch))))
  }

  predicate InRange(v: Version) {
    0 <= v.major <= MAX_INT && 0 <= v.minor <= MAX_INT && 0 <= v.patch <= MAX_INT
  }

  predicate IsSuffix(s: string) { s == "" || (IsSuffixStart(s[0]) && !IsSpace(s[|s| - 1])) }

  lemma DecimalHasOnlyDigits(n: nat, c: char)
    requires c in Decimal(n)
    ensures DigitValue(c).Some?
  {
    var i :| 0 <= i < |Decimal(n)| && Decimal(n)[i] == c;
    DecimalDigits(n, i);
  }

  lemma AtoiDecimal(n: nat)
    requires n <= MAX_INT
    ensures ParsePart(Decimal(n)) == Some(n)
  {
    ReadBackDecimal(n, "");
    assert Decimal(n) + "" == Decimal(n);
    DecimalHasOnlyDigits(n, Decimal(n)[0]);
  }

  lemma NoDotInDecimal(n: nat)
    ensures '.' !in Decimal(n)
  {
    if '.' in Decimal(n) {
      DecimalHasOnlyDigits(n, '.');
    }
  }

  lemma {:induction false} IndexOfAbsent(s: string, c: char)
    requires c !in s
    ensures IndexOf(s, c) == |s|
  {
    if s != "" {
      IndexOfAbsent(s[1..], c);
    }
  }

  lemma SplitFirst(a: string, c: char, b: string)
    requires c !in a
    ensures Split(a + ([c] + b), c) == [a] + Split(b, c)
  {
    IndexOfFirst(a, c, b);
    Assoc(a, [c], b);
    var s := a + ([c] + b);
    assert s[..|a|] == a && s[|a| + 1..] == b;
  }

  lemma SplitCore(a: string, b: string, c: string)
    requires '.' !in a && '.' !in b && '.' !in c
    ensures Split(a + (['.'] + (b + (['.'] + c))), '.') == [a, b, c]
  {
    IndexOfAbsent(c, '.');
    SplitFirst(b, '.', c);
    SplitFirst(a, '.', b + (['.'] + c));
  }

  lemma {:induction false} SuffixCut(core: string, suffix: string)
    requires forall c :: c in core ==> !IsSuffixStart(c)
    requires suffix != "" ==> IsSuffixStart(suffix[0])
    ensures WithoutSuffix(core + suffix) == core
  {
    if core == "" {
      assert core + suffix == suffix;
    } else {
      assert core[0] in core;
      assert (core + suffix)[1..] == core[1..] + suffix;
      SuffixCut(core[1..], suffix);
    }
  }

  lemma CoreCharacters(v: Version, c: char)
    requires InRange(v) && c in PrintCore(v)
    ensures c == '.' || DigitValue(c).Some?
  {
    if c in Decimal(v.major) {
      DecimalHasOnlyDigits(v.major, c);
    } else if c in Decimal(v.minor) {
      DecimalHasOnlyDigits(v.minor, c);
    } else if c in Decimal(v.patch) {
      DecimalHasOnlyDigits(v.patch, c);
    }
  }

  lemma CoreEnds(v: Version)
    requires InRange(v)
    ensures var core := PrintCore(v);
            core != "" && DigitValue(core[0]).Some? && DigitValue(core[|core| - 1]).Some?
  {
    var core := PrintCore(v);
    DecimalDigits(v.major, 0);
    assert core[0] == Decimal(v.major)[0];
    DecimalDigits(v.patch, |Decimal(v.patch)| - 1);
    assert core[|core| - 1] == Decimal(v.patch)[|Decimal(v.patch)| - 1];
  }

  lemma CoreParses(v: Version, s: string)
    requires InRange(v) && WithoutV(Trim(s)) != "" && Core(s) == PrintCore(v)
    ensures Parse(s) == Some(v)
  {
    NoDotInDecimal(v.major);
    NoDotInDecimal(v.minor);
    NoDotInDecimal(v.patch);
    SplitCore(Decimal(v.major), Decimal(v.minor), Decimal(v.patch));
    AtoiDecimal(v.major);
    AtoiDecimal(v.minor);
    AtoiDecimal(v.patch);
  }

  function Tag(v: Version, withV: bool, suffix: string): string
    requires InRange(v)
  {
    (if withV then "v" else "") + (PrintCore(v) + suffix)
  }

  lemma TagForm(v: Version, withV: bool, suffix: string)
    requires InRange(v) && IsSuffix(suffix)
    ensures Tight(Tag(v, withV, suffix)) && WithoutV(Tag(v, withV, suffix)) == PrintCore(v) + suffix != ""
  {
    var core := PrintCore(v);
    var body, tag := core + suffix, Tag(v, withV, suffix);
    CoreEnds(v);
    assert body[0] == core[0];
    assert body[|body| - 1] == if suffix == "" then core[|core| - 1] else suffix[|suffix| - 1];
    assert tag[|tag| - 1] == body[|body| - 1];
  }

  /** A version printed with or without "v", with any pre-release or build suffix and any white space
      around it, parses to the version. */
  lemma ParsePrinted(v: Version, withV: bool, suffix: string, left: string, right: string)
    requires InRange(v) && IsSuffix(suffix) && AllSpace(left) && AllSpace(right)
    ensures Parse(left + Tag(v, withV, suffix) + right) == Some(v)
  {
    var s := left + Tag(v, withV, suffix) + right;
    TagForm(v, withV, suffix);
    TrimAround(left, Tag(v, withV, suffix), right);
    forall c | c in PrintCore(v)
      ensures !IsSuffixStart(c)
    {
      CoreCharacters(v, c);
    }
    SuffixCut(PrintCore(v), suffix);
    CoreParses(v, s);
  }

  // ---------- the order in numbers ----------

  /** The version as one number, with the parts as its digits. */
  function Value(v: Version): int {
    (v.major * (MAX_INT + 1) + v.minor) * (MAX_INT + 1) + v.patch
  }

  lemma NewerIsGreaterValue(v: Version, u: Version)
    requires InRange(v) && InRange(u)
    ensures Greater(v, u) <==> Value(v) > Value(u)
  {
    var B := MAX_INT + 1;
    if v.major == u.major && v.minor == u.minor {
    } else if v.major == u.major {
      assert v.minor > u.minor ==> v.minor * B >= u.minor * B + B;
      assert v.minor < u.minor ==> u.minor * B >= v.minor * B + B;
    }
  }

  /** Which of two printed versions is newer is which number is greater, whatever "v" and suffixes they have:
      the major part counts before the minor and the minor before the patch. */
  lemma NewerInNumbers(v: Version, u: Version, vV: bool, uV: bool, vSuffix: string, uSuffix: string)
    requires InRange(v) && InRange(u) && IsSuffix(vSuffix) && IsSuffix(uSuffix)
    ensures IsNewer(Tag(v, vV, vSuffix), Tag(u, uV, uSuffix)) <==> Value(v) > Value(u)
  {
    ParsePrinted(v, vV, vSuffix, "", "");
    ParsePrinted(u, uV, uSuffix, "", "");
    assert "" + Tag(v, vV, vSuffix) + "" == Tag(v, vV, vSuffix);
    assert "" + Tag(u, uV, uSuffix) + "" == Tag(u, uV, uSuffix);
    NewerIsGreaterValue(v, u);
  }

  // ---------- the check for negative parts ----------

  lemma {:induction false} NoSignLeft(s: string, c: char)
    requires c in WithoutSuffix(s)
    ensures !IsSuffixStart(c)
  {
    if c != s[0] {
      NoSignLeft(s[1..], c);
    }
  }

  lemma {:induction false} PartsComeFrom(s: string, sep: char, p: string, c: char)
    requires p in Split(s, sep) && c in p
    ensures c in s
    decreases |s|
  {
    var i := IndexOf(s, sep);
    if i != |s| && p != s[..i] {
      PartsComeFrom(s[i + 1..], sep, p, c);
    }
  }

  /** The parser's test for a negative number never decides: no part has a sign left. */
  lemma NegativeUnreachable(s: string, p: string)
    requires p in Split(Core(s), '.')
    ensures Atoi(p) == ParsePart(p)
  {
    if p != "" {
      PartsComeFrom(Core(s), '.', p, p[0]);
      NoSignLeft(WithoutV(Trim(s)), p[0]);
    }
  }

  lemma ParsedInRange(s: string)
    requires Parse(s).Some?
    ensures InRange(Parse(s).value)
  {
  }

  /** Every tag that parses means the same as the plain print of its version. */
  lemma ParseNormalises(s: string)
    requires Parse(s).Some?
    ensures Parse(Tag(Parse(s).value, true, "")) == Parse(s)
  {
    var v := Parse(s).value;
    ParsedInRange(s);
    ParsePrinted(v, true, "", "", "");
    assert "" + Tag(v, true, "") + "" == Tag(v, true, "");
  }
}
