/** Results and the few string operations of the Go standard library that the model needs.
    Strings are sequences of bytes; white space is the ASCII white space. */
module Text {

  datatype Option<+T> = None | Some(value: T)

  datatype Result<+T, +E> = Ok(value: T) | Err(error: E)

  // ---------- concatenation ----------

  lemma Assoc<T>(a: seq<T>, b: seq<T>, c: seq<T>)
    ensures a + b + c == a + (b + c)
  {
  }

  lemma Reassociate(a: string, b: string, c: string, d: string)
    ensures a + b + c + d == a + (b + (c + d))
  {
    Assoc(a, b, c);
    Assoc(b, c, d);
    Assoc(a, b + c, d);
  }

  lemma DropPrefix(p: string, s: string)
    ensures p <= p + s && (p + s)[|p|..] == s && (p + s)[..|p|] == p
  {
  }

  lemma PrefixWithin(p: string, s: string, more: string)
    requires |p| <= |s|
    ensures p <= s + more <==> p <= s
  {
    assert (s + more)[..|s|] == s;
  }

  // ---------- strings.Join ----------

  function Join(parts: seq<string>, sep: string): string {
    if |parts| == 0 then ""
    else if |parts| == 1 then parts[0]
    else parts[0] + sep + Join(parts[1..], sep)
  }

  lemma JoinCons(first: string, parts: seq<string>, sep: string)
    requires |parts| > 0
    ensures Join([first] + parts, sep) == first + (sep + Join(parts, sep))
  {
    assert ([first] + parts)[1..] == parts;
    Assoc(first, sep, Join(parts, sep));
  }

  lemma {:induction false} JoinSnoc(parts: seq<string>, sep: string, last: string)
    requires |parts| > 0
    ensures Join(parts + [last], sep) == Join(parts, sep) + sep + last
  {
    if |parts| == 1 {
      assert (parts + [last])[1..] == [last];
    } else {
      JoinSnoc(parts[1..], sep, last);
      assert (parts + [last])[1..] == parts[1..] + [last];
    }
  }

  /** Extending the last part extends the joined text. */
  lemma {:induction false} JoinExtendLast(init: seq<string>, sep: string, last: string, more: string)
    ensures Join(init + [last + more], sep) == Join(init + [last], sep) + more
  {
    if |init| > 0 {
      JoinSnoc(init, sep, last);
      JoinSnoc(init, sep, last + more);
      assert Join(init, sep) + sep + (last + more) == Join(init, sep) + sep + last + more;
    }
  }

  // ---------- strings.IndexByte, with the length of the text for "not found" ----------

  function IndexOf(s: string, c: char): (i: nat)
    ensures i <= |s|
    ensures c !in s[..i]
    ensures i < |s| ==> s[i] == c
  {
    if s == "" then 0
    else if s[0] == c then 0
    else
      var i := 1 + IndexOf(s[1..], c);
      assert s[..i] == [s[0]] + s[1..][..i - 1];
      i
  }

  lemma {:induction false} IndexOfFirst(a: string, c: char, b: string)
    requires c !in a
    ensures IndexOf(a + [c] + b, c) == |a|
  {
    if a != "" {
      assert (a + [c] + b)[1..] == a[1..] + [c] + b;
      IndexOfFirst(a[1..], c, b);
    }
  }

  // ---------- strings.TrimSpace ----------

  predicate IsSpace(c: char) {
    c == ' ' || c == '\t' || c == '\n' || c == '\r' || c == '\U{0B}' || c == '\U{0C}'
  }

  /** The codes of the white space: tab to carriage return, and the blank. */
  lemma SpaceCodes(c: char)
    ensures IsSpace(c) <==> 9 <= c as int <= 13 || c as int == 32
  {
  }

  predicate AllSpace(s: string) {
    forall c :: c in s ==> IsSpace(c)
  }

  function TrimLeft(s: string): string {
    if s != "" && IsSpace(s[0]) then TrimLeft(s[1..]) else s
  }

  function TrimRight(s: string): string {
    if s != "" && IsSpace(s[|s| - 1]) then TrimRight(s[..|s| - 1]) else s
  }

  function Trim(s: string): string { TrimRight(TrimLeft(s)) }

  /** No white space at either end. */
  predicate Tight(s: string) {
    s != "" ==> !IsSpace(s[0]) && !IsSpace(s[|s| - 1])
  }

  lemma {:induction false} TrimLeftSplits(s: string) returns (left: string)
    ensures s == left + TrimLeft(s) && AllSpace(left)
    ensures TrimLeft(s) == "" ==> left == s
    ensures TrimLeft(s) != "" ==> !IsSpace(TrimLeft(s)[0])
  {
    if s != "" && IsSpace(s[0]) {
      var l := TrimLeftSplits(s[1..]);
      left := [s[0]] + l;
    } else {
      left := "";
    }
  }

  lemma {:induction false} TrimRightSplits(s: string) returns (right: string)
    ensures s == TrimRight(s) + right && AllSpace(right)
    ensures TrimRight(s) != "" ==> !IsSpace(TrimRight(s)[|TrimRight(s)| - 1])
  {
    if s != "" && IsSpace(s[|s| - 1]) {
      var r := TrimRightSplits(s[..|s| - 1]);
      right := r + [s[|s| - 1]];
    } else {
      right := "";
    }
  }

  /** What trimming does: it drops white space on both sides, and all that it can. */
  lemma TrimDecomposes(s: string) returns (left: string, right: string)
    ensures s == left + Trim(s) + right
    ensures AllSpace(left) && AllSpace(right) && Tight(Trim(s))
    ensures Trim(s) == "" <==> AllSpace(s)
  {
    left := TrimLeftSplits(s);
    var t := TrimLeft(s);
    right := TrimRightSplits(t);
    if Trim(s) == "" {
      assert t == right;
    } else {
      assert t[0] == Trim(s)[0];
      assert t[0] in s;
    }
  }

  /** A text with no white space at either end is its own trim. */
  lemma TrimFixed(s: string)
    requires Tight(s)
    ensures Trim(s) == s
  {
  }

  lemma TrimIdempotent(s: string)
    ensures Trim(Trim(s)) == Trim(s)
  {
    var _, _ := TrimDecomposes(s);
    TrimFixed(Trim(s));
  }

  lemma {:induction false} TrimRightKeeps(s: string, k: nat)
    requires k < |s| && !IsSpace(s[k])
    ensures |TrimRight(s)| > k
  {
    if IsSpace(s[|s| - 1]) {
      TrimRightKeeps(s[..|s| - 1], k);
    }
  }

  lemma {:induction false} TrimLeftConcat(s: string, more: string)
    requires TrimLeft(s) != ""
    ensures TrimLeft(s + more) == TrimLeft(s) + more
  {
    if IsSpace(s[0]) {
      TrimLeftConcat(s[1..], more);
      assert (s + more)[1..] == s[1..] + more;
    }
  }

  lemma {:induction false} TrimLeftSkips(left: string, s: string)
    requires AllSpace(left)
    ensures TrimLeft(left + s) == TrimLeft(s)
  {
    if left == "" {
      assert left + s == s;
    } else {
      assert left[0] in left;
      assert (left + s)[1..] == left[1..] + s;
      TrimLeftSkips(left[1..], s);
    }
  }

  lemma {:induction false} TrimRightSkips(s: string, right: string)
    requires AllSpace(right)
    ensures TrimRight(s + right) == TrimRight(s)
  {
    if right == "" {
      assert s + right == s;
    } else {
      var r := right[..|right| - 1];
      assert right[|right| - 1] in right;
      assert (s + right)[..|s + right| - 1] == s + r;
      TrimRightSkips(s, r);
    }
  }

  /** White space around a text that has none at its ends is exactly what Trim removes. */
  lemma TrimAround(left: string, s: string, right: string)
    requires AllSpace(left) && AllSpace(right) && Tight(s)
    ensures Trim(left + s + right) == s
  {
    assert left + s + right == left + (s + right);
    TrimLeftSkips(left, s + right);
    if s == "" {
      assert s + right == right + "";
      TrimLeftSkips(right, "");
    } else {
      TrimRightSkips(s, right);
    }
  }
}
