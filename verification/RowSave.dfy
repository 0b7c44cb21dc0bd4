/** What saving an edit form does (internal/server/handlers_object.go, web/templates/partials/row_form.html):
    the update writes every column from the form, and the form knows no NULL and only a sample of the rows. */
module RowSave {
  import opened Text
  import opened Catalog
  import opened RowEdits
  import opened RowForm

  /** r.FormValue, and a field of the form: what is missing is empty. */
  function Field(m: map<string, string>, name: string): string { if name in m then m[name] else "" }

  function Submitted(columns: seq<string>, fields: map<string, string>): map<string, string> {
    map c | c in columns :: Field(fields, c)
  }

  function Names(columns: seq<Column>): seq<string> {
    seq(|columns|, i requires 0 <= i < |columns| => columns[i].name)
  }

  function KeyNames(columns: seq<Column>): seq<string> {
    if columns == [] then []
    else
      var before, last := KeyNames(columns[..|columns| - 1]), columns[|columns| - 1];
      before + (if last.isPK then [last.name] else [])
  }

  /** The key columns are the columns marked as part of the primary key. */
  lemma {:induction false} KeyNamesAre(columns: seq<Column>, c: string)
    ensures c in KeyNames(columns) <==> exists i :: 0 <= i < |columns| && columns[i].isPK && columns[i].name == c
  {
    if columns != [] {
      var n := |columns| - 1;
      KeyNamesAre(columns[..n], c);
      if c in KeyNames(columns[..n]) {
        var i :| 0 <= i < n && columns[..n][i].isPK && columns[..n][i].name == c;
        assert columns[i].isPK && columns[i].name == c;
      }
      if exists i :: 0 <= i < |columns| && columns[i].isPK && columns[i].name == c {
        var i :| 0 <= i < |columns| && columns[i].isPK && columns[i].name == c;
        assert i < n ==> columns[..n][i] == columns[i];
      }
    }
  }

  lemma SubmittedSnoc(names: seq<string>, name: string, fields: map<string, string>)
    ensures Submitted(names + [name], fields) == Submitted(names, fields)[name := Field(fields, name)]
  {
  }

  lemma NamesNext(columns: seq<Column>, n: nat)
    requires n < |columns|
    ensures Names(columns[..n + 1]) == Names(columns[..n]) + [columns[n].name]
    ensures KeyNames(columns[..n + 1]) == KeyNames(columns[..n]) + (if columns[n].isPK then [columns[n].name] else [])
  {
    assert columns[..n + 1][..n] == columns[..n];
  }

  /** The loop of handleRowUpdate over the columns: a value from each `c_` field, a key value from each
      `pk_` field. */
  method ReadRowForm(columns: seq<Column>, cFields: map<string, string>, pkFields: map<string, string>)
    returns (values: map<string, string>, pk: map<string, string>)
    ensures values == Submitted(Names(columns), cFields)
    ensures pk == Submitted(KeyNames(columns), pkFields)
  {
    values, pk := map[], map[];
    for n := 0 to |columns|
      invariant values == Submitted(Names(columns[..n]), cFields)
      invariant pk == Submitted(KeyNames(columns[..n]), pkFields)
    {
      var col := columns[n];
      NamesNext(columns, n);
      SubmittedSnoc(Names(columns[..n]), col.name, cFields);
      values := values[col.name := Field(cFields, col.name)];
      if col.isPK {
        SubmittedSnoc(KeyNames(columns[..n]), col.name, pkFields);
        pk := pk[col.name := Field(pkFields, col.name)];
      } else {
        assert KeyNames(columns[..n]) + [] == KeyNames(columns[..n]);
      }
    }
    assert columns[..|columns|] == columns;
  }

  /** A form that was opened with a value for each key column submits that key. */
  lemma KeySubmitted(columns: seq<Column>, pk: map<string, string>)
    requires forall c :: c in pk <==> c in KeyNames(columns)
    ensures Submitted(KeyNames(columns), pk) == pk
  {
  }

  // ---------- saving without editing ----------

  type Values = seq<Option<string>>

  predicate Shaped(cols: seq<string>, table: seq<Values>) {
    Distinct(cols) && forall row :: row in table ==> |row| == |cols|
  }

  function Rows(cols: seq<string>, table: seq<Values>): (rows: seq<Row>)
    requires Shaped(cols, table)
    ensures |rows| == |table|
  {
    seq(|table|, i requires 0 <= i < |table| => AsRow(cols, table[i]))
  }

  /** The row has just the texts that the form submits. */
  predicate HoldsForm(cols: seq<string>, row: Values, fields: map<string, string>)
    requires |row| == |cols|
  {
    forall j :: 0 <= j < |cols| ==> row[j] == Some(Field(fields, cols[j]))
  }

  lemma AsRowAt(cols: seq<string>, row: Values, j: nat)
    requires |row| == |cols| && Distinct(cols) && j < |cols|
    ensures cols[j] in AsRow(cols, row) && AsRow(cols, row)[cols[j]] == row[j]
  {
    assert FirstIndex(cols, cols[j]) <= j;
  }

  lemma FormHeld(cols: seq<string>, row: Values, fields: map<string, string>)
    requires |row| == |cols| && Distinct(cols) && HoldsForm(cols, row, fields)
    ensures With(AsRow(cols, row), Submitted(cols, fields)) == AsRow(cols, row)
  {
    var r, values := AsRow(cols, row), Submitted(cols, fields);
    forall c | c in r ensures With(r, values)[c] == r[c] {
      var j :| 0 <= j < |cols| && cols[j] == c;
      AsRowAt(cols, row, j);
    }
  }

  lemma FormNotHeld(cols: seq<string>, row: Values, fields: map<string, string>, j: nat)
    requires |row| == |cols| && Distinct(cols) && j < |cols| && row[j] != Some(Field(fields, cols[j]))
    ensures With(AsRow(cols, row), Submitted(cols, fields)) != AsRow(cols, row)
  {
    AsRowAt(cols, row, j);
    assert With(AsRow(cols, row), Submitted(cols, fields))[cols[j]] == Some(Field(fields, cols[j]));
  }

  lemma WithFormIsSame(cols: seq<string>, row: Values, fields: map<string, string>)
    requires |row| == |cols| && Distinct(cols)
    ensures With(AsRow(cols, row), Submitted(cols, fields)) == AsRow(cols, row) <==> HoldsForm(cols, row, fields)
  {
    if HoldsForm(cols, row, fields) {
      FormHeld(cols, row, fields);
    } else {
      var j :| 0 <= j < |cols| && row[j] != Some(Field(fields, cols[j]));
      FormNotHeld(cols, row, fields, j);
    }
  }

  /** Saving the form leaves the table as it is exactly if every row that the key matches holds the
      texts of the form already. */
  lemma SaveKeepsTable(cols: seq<string>, table: seq<Values>, key: map<string, string>, fields: map<string, string>)
    requires Shaped(cols, table)
    ensures Updated(Rows(cols, table), key, Submitted(cols, fields)) == Rows(cols, table) <==>
            forall m :: 0 <= m < |table| && Matches(AsRow(cols, table[m]), key) ==> HoldsForm(cols, table[m], fields)
  {
    var rows := Rows(cols, table);
    var updated := Updated(rows, key, Submitted(cols, fields));
    forall m | 0 <= m < |table|
      ensures updated[m] == rows[m] <==> (Matches(rows[m], key) ==> HoldsForm(cols, table[m], fields))
    {
      WithFormIsSame(cols, table[m], fields);
    }
    if updated != rows {
      assert exists m :: 0 <= m < |table| && updated[m] != rows[m];
    }
  }

  /** The key picks one row, number m, and no key column that is NULL passes for an empty key value. */
  predicate KeyPicks(cols: seq<string>, table: seq<Values>, pk: map<string, string>, m: nat)
    requires Shaped(cols, table)
  {
    && m < |table|
    && (forall i :: 0 <= i < |table| ==> (Matches(AsRow(cols, table[i]), pk) <==> i == m))
    && (forall row :: row in table ==> !NullShownEmpty(cols, row, pk))
  }

  lemma OnlyMatch(cols: seq<string>, sample: seq<Values>, pk: map<string, string>, m: nat)
    requires forall row :: row in sample ==> |row| == |cols|
    requires forall i :: 0 <= i < |sample| ==> (FormMatches(cols, sample[i], pk) <==> i == m)
    ensures FirstMatch(cols, sample, pk) == if m < |sample| then m else |sample|
  {
    if m < |sample| {
      assert FormMatches(cols, sample[m], pk);
    }
  }

  lemma FormFinds(cols: seq<string>, table: seq<Values>, n: nat, pk: map<string, string>, m: nat)
    requires Shaped(cols, table) && n <= |table| && KeyPicks(cols, table, pk, m)
    ensures FirstMatch(cols, table[..n], pk) == if m < n then m else n
  {
    var sample := table[..n];
    forall i | 0 <= i < n
      ensures FormMatches(cols, sample[i], pk) <==> i == m
    {
      assert table[i] in table;
      FormFollowsUpdate(cols, table[i], pk);
    }
    OnlyMatch(cols, sample, pk, m);
  }

  lemma FormField(cols: seq<string>, table: seq<Values>, n: nat, pk: map<string, string>, m: nat, j: nat)
    requires Shaped(cols, table) && n <= |table| && KeyPicks(cols, table, pk, m) && j < |cols|
    ensures Field(Fetched(cols, table[..n], cols, pk), cols[j]) ==
            if m < n then Stringify(table[m][j]) else Field(pk, cols[j])
  {
    FormFinds(cols, table, n, pk, m);
    if m < n { PrintedAt(cols, table[m], j); }
  }

  /** The picked row holds the key. */
  lemma KeyHeld(cols: seq<string>, table: seq<Values>, pk: map<string, string>, m: nat, j: nat)
    requires Shaped(cols, table) && KeyPicks(cols, table, pk, m) && j < |cols| && cols[j] in pk
    ensures table[m][j] == Some(pk[cols[j]])
  {
    AsRowAt(cols, table[m], j);
    assert Matches(AsRow(cols, table[m]), pk);
  }

  /** One column of the picked row holds what the form submits. */
  lemma ColumnKept(cols: seq<string>, table: seq<Values>, n: nat, pk: map<string, string>, m: nat, j: nat)
    requires Shaped(cols, table) && n <= |table| && KeyPicks(cols, table, pk, m) && j < |cols|
    ensures table[m][j] == Some(Field(Fetched(cols, table[..n], cols, pk), cols[j])) <==>
            if m < n then table[m][j] != None else cols[j] in pk || table[m][j] == Some("")
  {
    FormField(cols, table, n, pk, m, j);
    if cols[j] in pk { KeyHeld(cols, table, pk, m, j); }
  }

  /** Opening the edit form of a row and saving it without a change, exactly. When the row is among the n
      rows of the sample, the table stays as it is if and only if the row holds no NULL: each NULL becomes
      an empty text. When it is not, the form is empty but for the key, and the table stays as it is if and
      only if all the other columns of the row are empty texts. */
  lemma UneditedSave(cols: seq<string>, table: seq<Values>, n: nat, pk: map<string, string>, m: nat)
    requires Shaped(cols, table) && n <= |table| && KeyPicks(cols, table, pk, m)
    ensures var fields := Fetched(cols, table[..n], cols, pk);
            Updated(Rows(cols, table), pk, Submitted(cols, fields)) == Rows(cols, table) <==>
            forall j :: 0 <= j < |cols| ==>
              if m < n then table[m][j] != None else cols[j] in pk || table[m][j] == Some("")
  {
    var fields := Fetched(cols, table[..n], cols, pk);
    SaveKeepsTable(cols, table, pk, fields);
    forall j | 0 <= j < |cols|
      ensures table[m][j] == Some(Field(fields, cols[j])) <==>
              if m < n then table[m][j] != None else cols[j] in pk || table[m][j] == Some("")
    {
      ColumnKept(cols, table, n, pk, m, j);
    }
    PickedRowDecides(cols, table, pk, m, fields);
  }

  lemma PickedRowDecides(cols: seq<string>, table: seq<Values>, pk: map<string, string>, m: nat,
                         fields: map<string, string>)
    requires Shaped(cols, table) && KeyPicks(cols, table, pk, m)
    ensures (forall i :: 0 <= i < |table| && Matches(AsRow(cols, table[i]), pk) ==>
               HoldsForm(cols, table[i], fields)) <==>
            HoldsForm(cols, table[m], fields)
  {
    assert Matches(AsRow(cols, table[m]), pk);
  }
}
