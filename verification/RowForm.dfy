/** How the edit form finds the row it shows (internal/server/handlers_object.go): it compares printed
    values in a sample of rows, while the update that follows compares values in SQL. */
module RowForm {
  import opened Text
  import opened RowEdits
  import opened RowStatements

  /** A value is its text, None is NULL. */
  function Stringify(v: Option<string>): string { if v == None then "" else v.value }

  function FirstIndex(cols: seq<string>, c: string): (i: nat)
    ensures i <= |cols|
    ensures i < |cols| ==> cols[i] == c
    ensures forall j :: 0 <= j < i ==> cols[j] != c
  {
    if cols == [] || cols[0] == c then 0 else 1 + FirstIndex(cols[1..], c)
  }

  predicate ShownAs(cols: seq<string>, row: seq<Option<string>>, c: string, want: string)
    requires |row| == |cols|
  {
    var i := FirstIndex(cols, c);
    i < |cols| && Stringify(row[i]) == want
  }

  predicate FormMatches(cols: seq<string>, row: seq<Option<string>>, pk: map<string, string>)
    requires |row| == |cols|
  {
    forall c :: c in pk ==> ShownAs(cols, row, c, pk[c])
  }

  method RowMatches(cols: seq<string>, row: seq<Option<string>>, pk: map<string, string>, order: seq<string>)
    returns (r: bool)
    requires |row| == |cols| && Enumerates(order, pk)
    ensures r == FormMatches(cols, row, pk)
  {
    for n := 0 to |order|
      invariant forall i :: 0 <= i < n ==> ShownAs(cols, row, order[i], pk[order[i]])
    {
      var c := order[n];
      assert c in order;
      var idx := -1;
      var i := 0;
      while i < |cols|
        invariant 0 <= i <= |cols| && idx == -1
        invariant forall j :: 0 <= j < i ==> cols[j] != c
      {
        if cols[i] == c {
          idx := i;
          break;
        }
        i := i + 1;
      }
      assert idx == if FirstIndex(cols, c) < |cols| then FirstIndex(cols, c) else -1;
      if idx < 0 || Stringify(row[idx]) != pk[c] {
        assert !ShownAs(cols, row, c, pk[c]);
        return false;
      }
    }
    forall c | c in pk
      ensures ShownAs(cols, row, c, pk[c])
    {
      assert c in order;
    }
    r := true;
  }

  /** The printed values of a row; of columns with the same name the last counts. */
  function Printed(cols: seq<string>, row: seq<Option<string>>): map<string, string>
    requires |row| == |cols|
  {
    if cols == [] then map[]
    else Printed(cols[..|cols| - 1], row[..|row| - 1])[cols[|cols| - 1] := Stringify(row[|row| - 1])]
  }

  /** The first row of the sample that matches. */
  function FirstMatch(cols: seq<string>, sample: seq<seq<Option<string>>>, pk: map<string, string>): (i: nat)
    requires forall row :: row in sample ==> |row| == |cols|
    ensures i <= |sample|
    ensures i < |sample| ==> FormMatches(cols, sample[i], pk)
    ensures forall j :: 0 <= j < i ==> !FormMatches(cols, sample[j], pk)
  {
    if sample == [] || FormMatches(cols, sample[0], pk) then 0 else 1 + FirstMatch(cols, sample[1..], pk)
  }

  function KeyOnly(columns: seq<string>, pk: map<string, string>): map<string, string> {
    map c | c in columns && c in pk :: pk[c]
  }

  /** What the form is filled with. */
  function Fetched(cols: seq<string>, sample: seq<seq<Option<string>>>, columns: seq<string>,
                   pk: map<string, string>): map<string, string>
    requires forall row :: row in sample ==> |row| == |cols|
  {
    var i := FirstMatch(cols, sample, pk);
    if i < |sample| then Printed(cols, sample[i]) else KeyOnly(columns, pk)
  }

  method PrintRow(cols: seq<string>, row: seq<Option<string>>) returns (out: map<string, string>)
    requires |row| == |cols|
    ensures out == Printed(cols, row)
  {
    out := map[];
    for i := 0 to |cols|
      invariant out == Printed(cols[..i], row[..i])
    {
      assert cols[..i + 1][..i] == cols[..i] && row[..i + 1][..i] == row[..i];
      out := out[cols[i] := Stringify(row[i])];
    }
    assert cols[..|cols|] == cols && row[..|row|] == row;
  }

  method SeedKey(columns: seq<string>, pk: map<string, string>) returns (out: map<string, string>)
    ensures out == KeyOnly(columns, pk)
  {
    out := map[];
    for n := 0 to |columns|
      invariant out == KeyOnly(columns[..n], pk)
    {
      if columns[n] in pk {
        out := out[columns[n] := pk[columns[n]]];
      }
      assert columns[..n + 1] == columns[..n] + [columns[n]];
    }
    assert columns[..|columns|] == columns;
  }

  method FetchRowByPK(cols: seq<string>, sample: seq<seq<Option<string>>>, columns: seq<string>,
                      pk: map<string, string>, order: seq<string>) returns (out: map<string, string>)
    requires Enumerates(order, pk) && forall row :: row in sample ==> |row| == |cols|
    ensures out == Fetched(cols, sample, columns, pk)
  {
    for n := 0 to |sample|
      invariant forall j :: 0 <= j < n ==> !FormMatches(cols, sample[j], pk)
    {
      var matches := RowMatches(cols, sample[n], pk, order);
      if matches {
        assert FirstMatch(cols, sample, pk) == n;
        out := PrintRow(cols, sample[n]);
        return;
      }
    }
    assert FirstMatch(cols, sample, pk) == |sample|;
    out := SeedKey(columns, pk);
  }

  // ---------- the form and the update ----------

  predicate Distinct(cols: seq<string>) { forall i, j :: 0 <= i < j < |cols| ==> cols[i] != cols[j] }

  /** The row as the table has it. */
  function AsRow(cols: seq<string>, row: seq<Option<string>>): Row
    requires |row| == |cols| && Distinct(cols)
  {
    map c | c in cols :: row[FirstIndex(cols, c)]
  }

  /** A key value that is empty while the column is NULL: printed alike, but not equal in SQL. */
  predicate NullShownEmpty(cols: seq<string>, row: seq<Option<string>>, pk: map<string, string>)
    requires |row| == |cols| && Distinct(cols)
  {
    exists c :: c in pk && c in cols && AsRow(cols, row)[c] == None && pk[c] == ""
  }

  lemma ShownAsExactly(cols: seq<string>, row: seq<Option<string>>, c: string, want: string)
    requires |row| == |cols| && Distinct(cols)
    ensures ShownAs(cols, row, c, want) <==>
            c in cols && (AsRow(cols, row)[c] == Some(want) || (AsRow(cols, row)[c] == None && want == ""))
  {
    if c in cols {
      var i :| 0 <= i < |cols| && cols[i] == c;
      assert FirstIndex(cols, c) <= i;
    }
  }

  /** The form matches every row that the update will change, and no other one but through a NULL in a
      key column that the key gives as empty. */
  lemma FormFollowsUpdate(cols: seq<string>, row: seq<Option<string>>, pk: map<string, string>)
    requires |row| == |cols| && Distinct(cols)
    ensures Matches(AsRow(cols, row), pk) <==> FormMatches(cols, row, pk) && !NullShownEmpty(cols, row, pk)
  {
    forall c | c in pk
      ensures ShownAs(cols, row, c, pk[c]) <==>
              c in cols && (AsRow(cols, row)[c] == Some(pk[c]) || (AsRow(cols, row)[c] == None && pk[c] == ""))
    {
      ShownAsExactly(cols, row, c, pk[c]);
    }
  }

  /** The form shows a row as it is: one value per column, NULL as empty. */
  lemma {:induction false} PrintedAt(cols: seq<string>, row: seq<Option<string>>, i: nat)
    requires |row| == |cols| && Distinct(cols) && i < |cols|
    ensures cols[i] in Printed(cols, row) && Printed(cols, row)[cols[i]] == Stringify(row[i])
  {
    if i < |cols| - 1 {
      PrintedAt(cols[..|cols| - 1], row[..|row| - 1], i);
    }
  }

  /** Where no key column is NULL in the sample, the values in the form are those of the first row of the
      sample that the update will change, if there is one. */
  lemma FormShowsUpdatedRow(cols: seq<string>, sample: seq<seq<Option<string>>>, pk: map<string, string>, i: nat)
    requires Distinct(cols) && forall row :: row in sample ==> |row| == |cols|
    requires forall row :: row in sample ==> !NullShownEmpty(cols, row, pk)
    requires i == FirstMatch(cols, sample, pk)
    ensures i < |sample| ==> Matches(AsRow(cols, sample[i]), pk)
    ensures forall j :: 0 <= j < i ==> !Matches(AsRow(cols, sample[j]), pk)
  {
    forall j | 0 <= j < |sample|
      ensures Matches(AsRow(cols, sample[j]), pk) <==> FormMatches(cols, sample[j], pk)
    {
      assert sample[j] in sample;
      FormFollowsUpdate(cols, sample[j], pk);
    }
  }
}
