/** Mapping positional row values to column names (conversion/row_data.go). */
module RowData {

  import opened Messages
  import opened Text

  const ColumnNamesMissingNotice: string :=
    "column names array is missing field(s), will map them as unknown_*"
  const RowMissingNotice: string := "row is missing field(s), ignoring missing"

  /** Column names as the table map resolves them: the keys are exactly the
      positions 0..n-1. */
  ghost predicate Dense(columnNames: map<int, string>)
  {
    forall k :: k in columnNames <==> 0 <= k < |columnNames|
  }

  /** Compares the row's length with the number of known columns. */
  function DetectMismatch(row: seq<Value>, columnNames: map<int, string>): (r: (bool, string))
    ensures r.0 <==> |row| != |columnNames|
    ensures r.0 <==> r.1 != ""
    ensures |row| > |columnNames| ==> r.1 == ColumnNamesMissingNotice
    ensures |row| < |columnNames| ==> r.1 == RowMissingNotice
  {
    if |row| > |columnNames| then (true, ColumnNamesMissingNotice)
    else if |row| < |columnNames| then (true, RowMissingNotice)
    else (false, "")
  }

  /** The synthetic name `(unknown_k)`. */
  function UnknownKey(k: nat): string
  {
    "(unknown_" + NatToString(k) + ")"
  }

  lemma UnknownKeyInjective(a: nat, b: nat)
    ensures UnknownKey(a) == UnknownKey(b) ==> a == b
  {
    if UnknownKey(a) == UnknownKey(b) {
      var ka, kb := UnknownKey(a), UnknownKey(b);
      assert ka[9..|ka| - 1] == NatToString(a);
      assert kb[9..|kb| - 1] == NatToString(b);
      NatToStringInjective(a, b);
    }
  }

  /** The key the mapper gives the value at position `j`: on a mismatch every
      value is renamed `(unknown_j)`, otherwise the column name at `j`. */
  function ColumnKey(j: nat, columnNames: map<int, string>, mismatch: bool): string
    requires mismatch || j in columnNames
  {
    if mismatch then UnknownKey(j) else columnNames[j]
  }

  function RowKeys(row: seq<Value>, columnNames: map<int, string>, mismatch: bool): (keys: seq<string>)
    requires mismatch || forall j :: 0 <= j < |row| ==> j in columnNames
    ensures |keys| == |row|
  {
    seq(|row|, j requires 0 <= j < |row| => ColumnKey(j, columnNames, mismatch))
  }

  /** The map built by storing `values[i]` under `keys[i]` for i = 0, 1, ...
      in turn, so a later value wins over an earlier one with the same key. */
  function BuildRow(keys: seq<string>, values: seq<Value>): map<string, Value>
    requires |keys| == |values|
  {
    if |keys| == 0 then map[]
    else BuildRow(keys[..|keys| - 1], values[..|values| - 1])[keys[|keys| - 1] := values[|values| - 1]]
  }

  lemma BuildRowAppend(keys: seq<string>, values: seq<Value>, key: string, value: Value)
    requires |keys| == |values|
    ensures BuildRow(keys + [key], values + [value]) == BuildRow(keys, values)[key := value]
  {
    assert (keys + [key])[..|keys|] == keys;
    assert (values + [value])[..|values|] == values;
  }

  predicate Distinct(keys: seq<string>)
  {
    forall i, j :: 0 <= i < j < |keys| ==> keys[i] != keys[j]
  }

  /** The keys of the built map are exactly the given keys; with no key
      repeated, each key holds its own value and the map has one entry per
      value. */
  lemma {:induction false} BuildRowContents(keys: seq<string>, values: seq<Value>)
    requires |keys| == |values|
    ensures forall key :: key in BuildRow(keys, values) <==> key in keys
    ensures Distinct(keys) ==> |BuildRow(keys, values)| == |keys|
    ensures Distinct(keys) ==> forall j :: 0 <= j < |keys| ==> BuildRow(keys, values)[keys[j]] == values[j]
    decreases |keys|
  {
    if |keys| > 0 {
      var n := |keys| - 1;
      var ks, vs := keys[..n], values[..n];
      BuildRowContents(ks, vs);
      assert keys == ks + [keys[n]];
      if Distinct(keys) {
        assert Distinct(ks);
        assert keys[n] !in ks;
        forall j | 0 <= j < |keys|
          ensures BuildRow(keys, values)[keys[j]] == values[j]
        {
          if j < n {
            assert keys[j] == ks[j] && values[j] == vs[j];
          }
        }
      }
    }
  }

  /** One row keyed by column names, as the source maps it. */
  function MapRow(row: seq<Value>, columnNames: map<int, string>): MessageRowData
    requires Dense(columnNames)
  {
    var (mismatch, notice) := DetectMismatch(row, columnNames);
    MessageRowData(BuildRow(RowKeys(row, columnNames, mismatch), row), notice)
  }

  /** The mapped row is the map built from the row's keys. */
  lemma MapRowIsBuilt(row: seq<Value>, columnNames: map<int, string>)
    requires Dense(columnNames)
    ensures var mismatch := |row| != |columnNames|;
      && (mismatch || forall j :: 0 <= j < |row| ==> j in columnNames)
      && MapRow(row, columnNames).row == BuildRow(RowKeys(row, columnNames, mismatch), row)
      && MapRow(row, columnNames).mappingNotice == DetectMismatch(row, columnNames).1
  {
  }

  /** On a length mismatch every value, not just the surplus ones, is keyed
      `(unknown_k)` by its position k, and the notice is attached. */
  lemma MapRowOnMismatch(row: seq<Value>, columnNames: map<int, string>)
    requires Dense(columnNames) && |row| != |columnNames|
    ensures var r := MapRow(row, columnNames);
      && r.mappingNotice == DetectMismatch(row, columnNames).1 && r.mappingNotice != ""
      && |r.row| == |row|
      && (forall k :: 0 <= k < |row| ==> UnknownKey(k) in r.row && r.row[UnknownKey(k)] == row[k])
      && (forall key :: key in r.row ==> exists k :: 0 <= k < |row| && key == UnknownKey(k))
  {
    var keys := RowKeys(row, columnNames, true);
    assert forall k :: 0 <= k < |row| ==> keys[k] == UnknownKey(k);
    forall i, j | 0 <= i < j < |keys| ensures keys[i] != keys[j] {
      UnknownKeyInjective(i, j);
    }
    BuildRowContents(keys, row);
    MapRowIsBuilt(row, columnNames);
    var built := BuildRow(keys, row);
    forall key | key in built ensures exists k :: 0 <= k < |row| && key == UnknownKey(k) {
      var k :| 0 <= k < |keys| && keys[k] == key;
    }
  }

  /** With matching lengths the value at position j is keyed by the column
      name at j, no notice is attached, and with distinct column names every
      value is kept. */
  lemma MapRowOnMatch(row: seq<Value>, columnNames: map<int, string>)
    requires Dense(columnNames) && |row| == |columnNames|
    ensures var r := MapRow(row, columnNames);
      && r.mappingNotice == ""
      && (forall key :: key in r.row <==> exists j :: 0 <= j < |row| && columnNames[j] == key)
      && (Distinct(RowKeys(row, columnNames, false)) ==>
            |r.row| == |row| && forall j :: 0 <= j < |row| ==> r.row[columnNames[j]] == row[j])
  {
    var keys := RowKeys(row, columnNames, false);
    MapRowIsBuilt(row, columnNames);
    BuildRowContents(keys, row);
    assert forall j :: 0 <= j < |row| ==> keys[j] == columnNames[j];
    forall key ensures key in keys <==> exists j :: 0 <= j < |row| && columnNames[j] == key {
      if key in keys {
        var j :| 0 <= j < |keys| && keys[j] == key;
        assert columnNames[j] == key;
      }
    }
  }

  /** The body of the loop in `mapRowDataDataToColumnNames`: one row. */
  method MapRowToColumnNames(row: seq<Value>, columnNames: map<int, string>) returns (mapped: MessageRowData)
    requires Dense(columnNames)
    ensures mapped == MapRow(row, columnNames)
  {
    var data: map<string, Value> := map[];
    var unknownCount := 0;
    var (detectedMismatch, mismatchNotice) := DetectMismatch(row, columnNames);
    ghost var keys := RowKeys(row, columnNames, detectedMismatch);
    for columnIndex := 0 to |row|
      invariant data == BuildRow(keys[..columnIndex], row[..columnIndex])
      invariant detectedMismatch ==> unknownCount == columnIndex
    {
      assert keys[..columnIndex + 1] == keys[..columnIndex] + [keys[columnIndex]];
      assert row[..columnIndex + 1] == row[..columnIndex] + [row[columnIndex]];
      BuildRowAppend(keys[..columnIndex], row[..columnIndex], keys[columnIndex], row[columnIndex]);
      if detectedMismatch {
        data := data[UnknownKey(unknownCount) := row[columnIndex]];
        unknownCount := unknownCount + 1;
      } else {
        data := data[columnNames[columnIndex] := row[columnIndex]];
      }
    }
    assert keys[..|row|] == keys && row[..|row|] == row;
    mapped := MessageRowData(data, mismatchNotice);
  }

  /** `mapRowDataDataToColumnNames`: one mapped row per input row, in order. */
  method MapRowDataToColumnNames(rows: seq<seq<Value>>, columnNames: map<int, string>)
    returns (mappedRows: seq<MessageRowData>)
    requires Dense(columnNames)
    ensures |mappedRows| == |rows|
    ensures forall i :: 0 <= i < |rows| ==> mappedRows[i] == MapRow(rows[i], columnNames)
  {
    mappedRows := [];
    for i := 0 to |rows|
      invariant |mappedRows| == i
      invariant forall k :: 0 <= k < i ==> mappedRows[k] == MapRow(rows[k], columnNames)
    {
      var mapped := MapRowToColumnNames(rows[i], columnNames);
      mappedRows := mappedRows + [mapped];
    }
  }
}
