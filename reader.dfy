/** Row extraction: `csv_reader`. A file is given by what opening it yields,
    its data rows in file order or a permission failure. */
module Reader {
  import opened Records

  /** The outcome of opening one CSV file for reading. */
  datatype CsvFile = Readable(rows: seq<Row>) | PermissionDenied

  /** The record the per-column loop has built for `row` after processing
      `columns` in order: each column is set to `row.get(column)`, and when
      that value is truthy and `addEnv` holds, the environment column is set
      to `envName`. Nothing ever removes the environment column again. */
  function RowRecord(row: Row, columns: seq<string>, environmentColumn: string,
                     envName: string, addEnv: bool): Record
    decreases |columns|
  {
    if columns == [] then map[]
    else
      var acc := RowRecord(row, columns[..|columns| - 1], environmentColumn, envName, addEnv);
      var column := columns[|columns| - 1];
      var v := Get(row, column);
      if Truthy(v) && addEnv then acc[column := v][environmentColumn := Some(envName)]
      else acc[column := v]
  }

  /** The records of `rows`, one appended per row. */
  function RowsRecords(rows: seq<Row>, columns: seq<string>, environmentColumn: string,
                       envName: string, addEnv: bool): seq<Record>
    decreases |rows|
  {
    if rows == [] then []
    else RowsRecords(rows[..|rows| - 1], columns, environmentColumn, envName, addEnv)
         + [RowRecord(rows[|rows| - 1], columns, environmentColumn, envName, addEnv)]
  }

  /** What `csv_reader` returns for `file`: nothing when opening is denied. */
  function Extracted(file: CsvFile, columns: seq<string>, environmentColumn: string,
                     envName: string, addEnv: bool): seq<Record>
  {
    match file
    case PermissionDenied => []
    case Readable(rows) => RowsRecords(rows, columns, environmentColumn, envName, addEnv)
  }

  /** Some requested column of `row` holds a truthy value. */
  predicate AnyTruthy(row: Row, columns: seq<string>)
  {
    exists c :: c in columns && Truthy(Get(row, c))
  }

  /** The position of the last occurrence of `x` in `s`. */
  function LastIndexOf(s: seq<string>, x: string): (k: nat)
    requires x in s
    ensures k < |s| && s[k] == x && x !in s[k + 1..]
    decreases |s|
  {
    if s[|s| - 1] == x then |s| - 1
    else
      assert x in s[..|s| - 1] by {
        var i :| 0 <= i < |s| && s[i] == x;
        assert s[..|s| - 1][i] == x;
      }
      var k := LastIndexOf(s[..|s| - 1], x);
      assert s[k + 1..] == s[..|s| - 1][k + 1..] + [s[|s| - 1]];
      k
  }

  /** The reader loop: one record per data row, in file order. The debug flag
      only controls diagnostics, so the records do not depend on it. */
  method CsvReader(file: CsvFile, columns: seq<string>, environmentColumn: string,
                   envName: string, debug: bool, addEnv: bool)
    returns (values: seq<Record>)
    ensures values == Extracted(file, columns, environmentColumn, envName, addEnv)
  {
    values := [];
    if file.PermissionDenied? {
      return;
    }
    var rows := file.rows;
    for i := 0 to |rows|
      invariant values == RowsRecords(rows[..i], columns, environmentColumn, envName, addEnv)
    {
      var row := rows[i];
      var rowValues: Record := map[];
      for j := 0 to |columns|
        invariant rowValues == RowRecord(row, columns[..j], environmentColumn, envName, addEnv)
      {
        var column := columns[j];
        rowValues := rowValues[column := Get(row, column)];
        if Truthy(rowValues[column]) && addEnv {
          rowValues := rowValues[environmentColumn := Some(envName)];
        }
        assert columns[..j + 1][..j] == columns[..j];
      }
      assert columns[..|columns|] == columns;
      values := values + [rowValues];
      assert rows[..i + 1][..i] == rows[..i];
    }
    assert rows[..|rows|] == rows;
  }

  /** One record per row, the k-th built from the k-th row. */
  lemma {:induction false} RowsRecordsAt(rows: seq<Row>, columns: seq<string>,
                                         environmentColumn: string, envName: string, addEnv: bool)
    ensures |RowsRecords(rows, columns, environmentColumn, envName, addEnv)| == |rows|
    ensures forall k :: 0 <= k < |rows| ==>
      RowsRecords(rows, columns, environmentColumn, envName, addEnv)[k]
        == RowRecord(rows[k], columns, environmentColumn, envName, addEnv)
    decreases |rows|
  {
    if rows != [] {
      RowsRecordsAt(rows[..|rows| - 1], columns, environmentColumn, envName, addEnv);
    }
  }

  /** The reader returns exactly one record per data row, in file order, and
      none when opening the file is denied; no row is dropped. */
  lemma ExtractedOnePerRow(file: CsvFile, columns: seq<string>, environmentColumn: string,
                           envName: string, addEnv: bool)
    ensures file.PermissionDenied? ==> Extracted(file, columns, environmentColumn, envName, addEnv) == []
    ensures file.Readable? ==>
      var r := Extracted(file, columns, environmentColumn, envName, addEnv);
      && |r| == |file.rows|
      && forall k :: 0 <= k < |r| ==> r[k] == RowRecord(file.rows[k], columns, environmentColumn, envName, addEnv)
  {
    if file.Readable? {
      RowsRecordsAt(file.rows, columns, environmentColumn, envName, addEnv);
    }
  }

  /** Without tagging, a record holds exactly the requested columns, each with
      `row.get(column)`: an absent header column gives `None`, an empty cell `""`. */
  lemma {:induction false} UntaggedRecord(row: Row, columns: seq<string>,
                                          environmentColumn: string, envName: string)
    ensures var r := RowRecord(row, columns, environmentColumn, envName, false);
      && r.Keys == (set c | c in columns)
      && forall c :: c in columns ==> r[c] == Get(row, c)
    decreases |columns|
  {
    if columns != [] {
      var init := columns[..|columns| - 1];
      UntaggedRecord(row, init, environmentColumn, envName);
      assert columns == init + [columns[|columns| - 1]];
    }
  }

  /** With the environment column not among the requested ones, a record holds
      exactly the requested columns with their `row.get` values, plus the
      environment column, set to `envName`, iff tagging is on and SOME
      requested value is truthy. */
  lemma {:induction false} TaggedRecord(row: Row, columns: seq<string>, environmentColumn: string,
                                        envName: string, addEnv: bool)
    requires environmentColumn !in columns
    ensures var r := RowRecord(row, columns, environmentColumn, envName, addEnv);
      && r.Keys == (set c | c in columns)
                   + (if addEnv && AnyTruthy(row, columns) then {environmentColumn} else {})
      && (forall c :: c in columns ==> r[c] == Get(row, c))
      && (environmentColumn in r ==> r[environmentColumn] == Some(envName))
    decreases |columns|
  {
    if columns != [] {
      var init := columns[..|columns| - 1];
      var last := columns[|columns| - 1];
      assert columns == init + [last];
      TaggedRecord(row, init, environmentColumn, envName, addEnv);
      assert AnyTruthy(row, columns) <==> AnyTruthy(row, init) || Truthy(Get(row, last));
    }
  }

  /** Some column of `a + [last]` is truthy iff some column of `a` is or `last` is. */
  lemma AnyTruthySnoc(row: Row, a: seq<string>, last: string)
    ensures AnyTruthy(row, a + [last]) <==> AnyTruthy(row, a) || Truthy(Get(row, last))
  {
  }

  /** Whatever the environment column, every requested column holds its
      `row.get` value unless it is the environment column, and the keys are the
      requested columns plus at most the environment column. */
  lemma {:induction false} RequestedValues(row: Row, columns: seq<string>, environmentColumn: string,
                                           envName: string, addEnv: bool)
    ensures var r := RowRecord(row, columns, environmentColumn, envName, addEnv);
      && (set c | c in columns) <= r.Keys <= (set c | c in columns) + {environmentColumn}
      && forall c :: c in columns && c != environmentColumn ==> r[c] == Get(row, c)
    decreases |columns|
  {
    if columns != [] {
      var init := columns[..|columns| - 1];
      assert columns == init + [columns[|columns| - 1]];
      RequestedValues(row, init, environmentColumn, envName, addEnv);
    }
  }

  /** With the environment column among the requested ones, a record holds
      exactly the requested columns; the environment column ends up `envName`
      iff tagging is on and some column from its last occurrence onwards is
      truthy, and otherwise holds the row's own environment value. */
  lemma {:induction false} EnvironmentColumnRequested(row: Row, columns: seq<string>,
                                                      environmentColumn: string, envName: string,
                                                      addEnv: bool)
    requires environmentColumn in columns
    ensures var r := RowRecord(row, columns, environmentColumn, envName, addEnv);
      var k := LastIndexOf(columns, environmentColumn);
      && r.Keys == (set c | c in columns)
      && (forall c :: c in columns && c != environmentColumn ==> r[c] == Get(row, c))
      && r[environmentColumn] == (if addEnv && AnyTruthy(row, columns[k..]) then Some(envName)
                                  else Get(row, environmentColumn))
    decreases |columns|
  {
    RequestedValues(row, columns, environmentColumn, envName, addEnv);
    var init := columns[..|columns| - 1];
    var last := columns[|columns| - 1];
    assert columns == init + [last];
    var k := LastIndexOf(columns, environmentColumn);
    if last == environmentColumn {
      assert columns[k..] == [] + [last];
      AnyTruthySnoc(row, [], last);
    } else {
      assert environmentColumn in init;
      EnvironmentColumnRequested(row, init, environmentColumn, envName, addEnv);
      assert columns[k..] == init[k..] + [last];
      AnyTruthySnoc(row, init[k..], last);
    }
  }
}
