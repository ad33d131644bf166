/** The concrete runs the repository's unit tests describe: one column
    "Column", environment column "env". The values are kept symbolic where the
    proof allows it, and instantiated with the tests' own values at the end. */
module Scenarios {
  import opened Records
  import opened Reader
  import opened Writer
  import opened Tracker

  /** A data row of an input file holding `v` in "Column". */
  function ColumnRow(v: string): Row
  {
    map["Column" := Some(v)]
  }

  /** The record for `v` tagged with environment `env`. */
  function Tagged(v: string, env: string): Record
  {
    map["Column" := Some(v), "env" := Some(env)]
  }

  function Rows(vs: seq<string>): seq<Row>
  {
    seq(|vs|, k requires 0 <= k < |vs| => ColumnRow(vs[k]))
  }

  function TaggedAll(vs: seq<string>, env: string): seq<Record>
  {
    seq(|vs|, k requires 0 <= k < |vs| => Tagged(vs[k], env))
  }

  /** Test1 to Test9, and the values of the new environment's file. */
  const merged: seq<string> := ["Test1", "Test2", "Test3", "Test4", "Test5", "Test6", "Test7", "Test8", "Test9"]
  const newEnvFile: seq<string> := ["Test10", "Test11", "Test12", "Test13", "Test14", "Test15"]

  /** The first test file for nine values: the first four, the first two repeated. */
  function FirstValues<T>(t: seq<T>): seq<T>
    requires |t| == 9
  {
    [t[0], t[0], t[1], t[1], t[2], t[3]]
  }

  /** The second test file for nine values: the last six, starting with the
      first file's last value. */
  function SecondValues<T>(t: seq<T>): seq<T>
    requires |t| == 9
  {
    [t[3], t[4], t[5], t[6], t[7], t[8]]
  }

  /** The two test files for nine values as the tests' setup leaves them: its
      deduplicating `csv_writer` call keeps the first four values of the
      first file, and all six of the second. */
  function TestFiles(v: seq<string>): seq<CsvFile>
    requires |v| == 9
  {
    [Readable(Rows(v[..4])), Readable(Rows(SecondValues(v)))]
  }

  /** A file of non-empty values in "Column" yields one tagged record per row. */
  lemma ExtractColumnFile(vs: seq<string>, env: string)
    requires forall k :: 0 <= k < |vs| ==> vs[k] != ""
    ensures Extracted(Readable(Rows(vs)), ["Column"], "env", env, true) == TaggedAll(vs, env)
  {
    var r := Extracted(Readable(Rows(vs)), ["Column"], "env", env, true);
    ExtractedOnePerRow(Readable(Rows(vs)), ["Column"], "env", env, true);
    forall k | 0 <= k < |vs|
      ensures r[k] == Tagged(vs[k], env)
    {
      TaggedRecord(ColumnRow(vs[k]), ["Column"], "env", env, true);
      assert AnyTruthy(ColumnRow(vs[k]), ["Column"]) by {
        assert Truthy(Get(ColumnRow(vs[k]), "Column"));
      }
    }
  }

  /** Without tagging, a file of values in "Column" reads back as exactly its
      rows: every row of the test's list is among the extracted records. */
  lemma ExtractColumnFileUntagged(vs: seq<string>, env: string)
    ensures Extracted(Readable(Rows(vs)), ["Column"], "env", env, false) == Rows(vs)
  {
    var r := Extracted(Readable(Rows(vs)), ["Column"], "env", env, false);
    ExtractedOnePerRow(Readable(Rows(vs)), ["Column"], "env", env, false);
    forall k | 0 <= k < |vs|
      ensures r[k] == ColumnRow(vs[k])
    {
      UntaggedRecord(ColumnRow(vs[k]), ["Column"], "env", env);
    }
  }

  /** The text of a cell `DictWriter` writes for a value: `None` and a missing
      key both become an empty cell. */
  function CellText(v: Option<string>): string
  {
    if v.Some? then v.value else ""
  }

  /** The row `DictReader` yields for a data line written from `values` under
      the header `fieldnames`: every field present, as text. */
  function ParsedRow(fieldnames: seq<string>, values: Record): Row
  {
    map f | f in fieldnames :: Some(CellText(Get(values, f)))
  }

  /** The rows a combined file with header `fieldnames` and data rows
      `records` yields when read. */
  function ReadBack(fieldnames: seq<string>, records: seq<Record>): seq<Row>
  {
    seq(|records|, k requires 0 <= k < |records| => ParsedRow(fieldnames, records[k]))
  }

  /** Tagged records survive being written and read back unchanged. */
  lemma ReadBackTagged(vs: seq<string>, env: string)
    ensures ReadBack(["Column", "env"], TaggedAll(vs, env)) == TaggedAll(vs, env)
  {
    var a, b := ReadBack(["Column", "env"], TaggedAll(vs, env)), TaggedAll(vs, env);
    forall k | 0 <= k < |vs|
      ensures a[k] == b[k]
    {
      assert a[k].Keys == b[k].Keys;
    }
  }

  /** Distinct values give distinct tagged records. */
  lemma TaggedDistinct(vs: seq<string>, env: string)
    requires forall i, j :: 0 <= i < j < |vs| ==> vs[i] != vs[j]
    ensures Distinct(TaggedAll(vs, env))
  {
    forall i, j | 0 <= i < j < |vs|
      ensures Tagged(vs[i], env) != Tagged(vs[j], env)
    {
      assert Tagged(vs[i], env)["Column"] != Tagged(vs[j], env)["Column"];
    }
  }

  /** A record repeated twice and not yet known is written once. */
  lemma WrittenTwice<T>(x: T, recorded: seq<T>)
    requires x !in recorded
    ensures Written([x, x], recorded, false) == [x]
  {
    assert [x, x][..1] == [x] && [x][..0] == [];
    assert recorded + [] == recorded;
    assert Written([x], recorded, false) == [x];
    assert x in recorded + [x];
  }

  /** The first test file after its first record: the second record is repeated. */
  lemma FirstBatchTail<T>(t0: T, t1: T, t2: T, t3: T)
    requires t0 != t1 && t0 != t2 && t0 != t3 && t1 != t2 && t1 != t3 && t2 != t3
    ensures Written([t1, t1, t2, t3], [t0], false) == [t1, t2, t3]
  {
    WrittenTwice(t1, [t0]);
    WrittenAllFresh([t2, t3], [t0, t1]);
    WrittenSplit([t1, t1], [t2, t3], [t0], false);
    assert [t1, t1] + [t2, t3] == [t1, t1, t2, t3];
    assert [t0] + [t1] == [t0, t1];
  }

  /** The first test file: its repeats collapse. */
  lemma FirstBatchWritten<T>(t: seq<T>)
    requires |t| == 9 && Distinct(t)
    ensures Written(FirstValues(t), [], false) == t[..4]
  {
    var t0, t1, t2, t3 := t[0], t[1], t[2], t[3];
    WrittenTwice(t0, []);
    FirstBatchTail(t0, t1, t2, t3);
    WrittenSplit([t0, t0], [t1, t1, t2, t3], [], false);
    assert [t0, t0] + [t1, t1, t2, t3] == FirstValues(t);
    assert [] + [t0] == [t0];
    assert t[..4] == [t0] + [t1, t2, t3];
  }

  /** The second test file: its first record is already known, the rest are new. */
  lemma SecondBatchWritten<T>(t: seq<T>)
    requires |t| == 9 && Distinct(t)
    ensures Written(SecondValues(t), t[..4], false) == t[4..]
  {
    var rec := t[..4];
    assert t[3] in rec;
    assert Written([t[3]], rec, false) == [] by {
      assert [t[3]][..0] == [];
    }
    WrittenAllFresh(t[4..], rec);
    WrittenSplit([t[3]], t[4..], rec, false);
    assert SecondValues(t) == [t[3]] + t[4..];
    assert rec + [] == rec;
  }

  /** Nine distinct records, read from the two files the setup leaves, are
      written once each, in order. */
  lemma TestBatchWritten<T>(t: seq<T>)
    requires |t| == 9 && Distinct(t)
    ensures Written(t[..4] + SecondValues(t), [], false) == t
  {
    WrittenAllFresh(t[..4], []);
    SecondBatchWritten(t);
    WrittenSplit(t[..4], SecondValues(t), [], false);
    assert [] + t[..4] == t[..4];
    assert t == t[..4] + t[4..];
  }

  /** Distinct values give distinct rows. */
  lemma RowsDistinct(vs: seq<string>)
    requires forall i, j :: 0 <= i < j < |vs| ==> vs[i] != vs[j]
    ensures Distinct(Rows(vs))
  {
    forall i, j | 0 <= i < j < |vs|
      ensures ColumnRow(vs[i]) != ColumnRow(vs[j])
    {
      assert ColumnRow(vs[i])["Column"] != ColumnRow(vs[j])["Column"];
    }
  }

  /** Rows with the single field "Column" survive being written and read back. */
  lemma ReadBackRows(vs: seq<string>)
    ensures ReadBack(["Column"], Rows(vs)) == Rows(vs)
  {
    var a, b := ReadBack(["Column"], Rows(vs)), Rows(vs);
    forall k | 0 <= k < |vs|
      ensures a[k] == b[k]
    {
      assert a[k].Keys == b[k].Keys;
    }
  }

  /** The setup writes the first test file's six listed rows with
      `csv_writer` and no duplicates, so the file holds the first four
      values, once each. */
  lemma SetUpFirstFile(v: seq<string>)
    requires |v| == 9 && forall i, j :: 0 <= i < j < 9 ==> v[i] != v[j]
    ensures ReadBack(["Column"], Written(Rows(FirstValues(v)), [], false)) == Rows(v[..4])
  {
    RowsDistinct(v);
    assert Rows(FirstValues(v)) == FirstValues(Rows(v));
    FirstBatchWritten(Rows(v));
    assert Rows(v)[..4] == Rows(v[..4]);
    ReadBackRows(v[..4]);
  }

  /** The setup writes the second test file's six distinct rows in full. */
  lemma SetUpSecondFile(v: seq<string>)
    requires |v| == 9 && forall i, j :: 0 <= i < j < 9 ==> v[i] != v[j]
    ensures ReadBack(["Column"], Written(Rows(SecondValues(v)), [], false)) == Rows(SecondValues(v))
  {
    RowsDistinct(SecondValues(v));
    WrittenAllFresh(Rows(SecondValues(v)), []);
    ReadBackRows(SecondValues(v));
  }

  /** Extraction of two files is the first file's records, then the second's. */
  lemma TwoFilesExtracted(f: CsvFile, g: CsvFile, columns: seq<string>, environmentColumn: string,
                          envName: string)
    ensures ExtractAll([f, g], columns, environmentColumn, envName)
            == Extracted(f, columns, environmentColumn, envName, true)
               + Extracted(g, columns, environmentColumn, envName, true)
  {
    assert [f, g][..1] == [f] && [f][..0] == [];
    assert ExtractAll([f], columns, environmentColumn, envName)
           == Extracted(f, columns, environmentColumn, envName, true);
  }

  /** Tagging commutes with picking the second file's values. */
  lemma SecondValuesTagged(v: seq<string>, env: string)
    requires |v| == 9
    ensures TaggedAll(SecondValues(v), env) == SecondValues(TaggedAll(v, env))
  {
  }

  /** Extracting the two test files in discovery order gives their tagged rows. */
  lemma TestFilesExtracted(v: seq<string>, env: string)
    requires |v| == 9 && forall k :: 0 <= k < 9 ==> v[k] != ""
    ensures ExtractAll(TestFiles(v), ["Column"], "env", env)
            == TaggedAll(v, env)[..4] + SecondValues(TaggedAll(v, env))
  {
    var first, second := v[..4], SecondValues(v);
    ExtractColumnFile(first, env);
    ExtractColumnFile(second, env);
    TwoFilesExtracted(Readable(Rows(first)), Readable(Rows(second)), ["Column"], "env", env);
    assert TaggedAll(first, env) == TaggedAll(v, env)[..4];
    SecondValuesTagged(v, env);
  }

  /** Merging the two test files into a new combined file writes each of the
      nine distinct values once, in order, tagged with the environment. */
  lemma TestFilesMerged(v: seq<string>, env: string)
    requires |v| == 9 && forall k :: 0 <= k < 9 ==> v[k] != ""
    requires forall i, j :: 0 <= i < j < 9 ==> v[i] != v[j]
    ensures Written(ExtractAll(TestFiles(v), ["Column"], "env", env), [], false) == TaggedAll(v, env)
  {
    TestFilesExtracted(v, env);
    TaggedDistinct(v, env);
    TestBatchWritten(TaggedAll(v, env));
  }

  /** The repository's test: files test_env1.csv (Test1 to Test4, Test1 and
      Test2 twice) and test_env2.csv (Test4 to Test9) give Test1 to Test9 once
      each, tagged "test_env". */
  lemma TwoFilesMerged()
    ensures Written(ExtractAll(TestFiles(merged), ["Column"], "env", "test_env"), [], false)
            == TaggedAll(merged, "test_env")
  {
    TestFilesMerged(merged, "test_env");
  }

  lemma OneFileExtracted(vs: seq<string>, env: string)
    requires forall k :: 0 <= k < |vs| ==> vs[k] != ""
    ensures ExtractAll([Readable(Rows(vs))], ["Column"], "env", env) == TaggedAll(vs, env)
  {
    ExtractColumnFile(vs, env);
    assert [Readable(Rows(vs))][..0] == [];
  }

  /** Reading back a combined file whose rows are the tagged records gives
      those records as the baseline. */
  lemma BaselineReadBack(vs: seq<string>, env: string, config: Config)
    requires config.columnsToRecord == ["Column"] && config.environmentColumn == "env"
    ensures Baseline(config, true, Readable(TaggedAll(vs, env))) == TaggedAll(vs, env)
  {
    var rows := TaggedAll(vs, env);
    var r := Baseline(config, true, Readable(rows));
    assert FieldNames(config) == ["Column", "env"];
    ExtractedOnePerRow(Readable(rows), ["Column", "env"], "env", config.envName, false);
    forall k | 0 <= k < |rows|
      ensures r[k] == rows[k]
    {
      UntaggedRecord(rows[k], ["Column", "env"], "env", config.envName);
    }
  }

  /** Records tagged with another environment are all new to the baseline. */
  lemma OtherEnvironmentWritten(v: seq<string>, w: seq<string>, envA: string, envB: string)
    requires envA != envB && forall i, j :: 0 <= i < j < |w| ==> w[i] != w[j]
    ensures Written(TaggedAll(w, envB), TaggedAll(v, envA), false) == TaggedAll(w, envB)
  {
    var old_, new_ := TaggedAll(v, envA), TaggedAll(w, envB);
    forall x | x in new_
      ensures "env" in x && x["env"] == Some(envB)
    {
    }
    forall y | y in old_
      ensures "env" in y && y["env"] == Some(envA)
    {
    }
    TaggedDistinct(w, envB);
    WrittenAllFresh(new_, old_);
  }

  /** The tests' configuration: column "Column", environment column "env",
      no duplicates. */
  function TestConfig(env: string): Config
  {
    Config(env, ["Column"], "comb.csv", "env", false, "utf-8-sig", false)
  }

  /** The first run on a new combined file appends the header and the nine
      records of the two test files. */
  lemma FirstRun(v: seq<string>, env: string)
    requires |v| == 9 && forall k :: 0 <= k < 9 ==> v[k] != ""
    requires forall i, j :: 0 <= i < j < 9 ==> v[i] != v[j]
    ensures var c := TestConfig(env);
      var extracted := ExtractAll(TestFiles(v), c.columnsToRecord, c.environmentColumn, c.envName);
      && extracted != []
      && AppendedLines(false, FieldNames(c), Written(extracted, Baseline(c, false, Readable([])), false))
         == [Header(["Column", "env"])] + DataRows(TaggedAll(v, env))
  {
    TestFilesMerged(v, env);
    TestFilesExtracted(v, env);
    assert FieldNames(TestConfig(env)) == ["Column", "env"];
  }

  /** The second run, for another environment, on the file the first run wrote:
      every record of its one file is new, so all are appended, without a header. */
  lemma SecondRun(v: seq<string>, w: seq<string>, envA: string, envB: string)
    requires forall k :: 0 <= k < |w| ==> w[k] != ""
    requires forall i, j :: 0 <= i < j < |w| ==> w[i] != w[j]
    requires envA != envB
    ensures var c := TestConfig(envB);
      var extracted := ExtractAll([Readable(Rows(w))], c.columnsToRecord, c.environmentColumn, c.envName);
      && (extracted == [] ==> DataRows(TaggedAll(w, envB)) == [])
      && AppendedLines(true, FieldNames(c),
                       Written(extracted, Baseline(c, true, Readable(ReadBack(["Column", "env"], TaggedAll(v, envA)))), false))
         == DataRows(TaggedAll(w, envB))
  {
    ReadBackTagged(v, envA);
    OneFileExtracted(w, envB);
    BaselineReadBack(v, envA, TestConfig(envB));
    OtherEnvironmentWritten(v, w, envA, envB);
  }

  /** The new-environment test for any values: merge environment `envA` from
      the two test files into a new combined file, then merge environment
      `envB` from one file of values `w` into it, reading back the records the
      first run wrote as the file yields them. The file ends up with the header, the first run's
      records, then the second run's. */
  method TwoEnvironmentRuns(v: seq<string>, w: seq<string>, envA: string, envB: string)
    returns (lines: seq<Line>)
    requires |v| == 9 && forall k :: 0 <= k < 9 ==> v[k] != ""
    requires forall i, j :: 0 <= i < j < 9 ==> v[i] != v[j]
    requires forall k :: 0 <= k < |w| ==> w[k] != ""
    requires forall i, j :: 0 <= i < j < |w| ==> w[i] != w[j]
    requires envA != envB
    ensures lines == [Header(["Column", "env"])] + DataRows(TaggedAll(v, envA)) + DataRows(TaggedAll(w, envB))
  {
    var combined := new CombinedFile(false, true, []);
    FirstRun(v, envA);
    IpTracker(TestConfig(envA), TestFiles(v), Readable([]), combined);
    var before := combined.lines;
    assert before == [Header(["Column", "env"])] + DataRows(TaggedAll(v, envA));
    SecondRun(v, w, envA, envB);
    IpTracker(TestConfig(envB), [Readable(Rows(w))], Readable(ReadBack(["Column", "env"], TaggedAll(v, envA))), combined);
    assert combined.lines == before + DataRows(TaggedAll(w, envB));
    lines := combined.lines;
  }

  /** The repository's new-environment test: "test_env" (Test1 to Test9) and
      then "test_new_env" (Test10 to Test15). */
  method NewEnvironmentRun() returns (lines: seq<Line>)
    ensures lines == [Header(["Column", "env"])]
                     + DataRows(TaggedAll(merged, "test_env"))
                     + DataRows(TaggedAll(newEnvFile, "test_new_env"))
  {
    lines := TwoEnvironmentRuns(merged, newEnvFile, "test_env", "test_new_env");
  }

  /** The records a combined file with fields "Column" and "env" holds: each
      has both fields, with a non-empty environment. */
  predicate CombinedRecords(rows: seq<Record>)
  {
    forall k :: 0 <= k < |rows| ==> rows[k].Keys == {"Column", "env"} && Truthy(rows[k]["env"])
  }

  /** Reading such a file with tagging on, as the new-environment test does,
      replaces every row's environment with the one being read: the requested
      "env" column is first copied from the row and then, being truthy,
      overwritten with `readEnv`. */
  lemma RetagOnRead(rows: seq<Record>, readEnv: string)
    requires CombinedRecords(rows)
    ensures var r := Extracted(Readable(rows), ["Column", "env"], "env", readEnv, true);
      && |r| == |rows|
      && forall k :: 0 <= k < |rows| ==> r[k] == rows[k]["env" := Some(readEnv)]
  {
    var columns := ["Column", "env"];
    var r := Extracted(Readable(rows), columns, "env", readEnv, true);
    ExtractedOnePerRow(Readable(rows), columns, "env", readEnv, true);
    assert LastIndexOf(columns, "env") == 1 && columns[1..] == ["env"];
    forall k | 0 <= k < |rows|
      ensures r[k] == rows[k]["env" := Some(readEnv)]
    {
      EnvironmentColumnRequested(rows[k], columns, "env", readEnv, true);
      assert AnyTruthy(rows[k], ["env"]) by {
        assert Truthy(Get(rows[k], "env"));
      }
      assert r[k].Keys == rows[k]["env" := Some(readEnv)].Keys;
    }
  }

  /** Reading such a file with tagging off, as `ip_tracker` reads its combined
      file, yields its records unchanged. */
  lemma ReadUntagged(rows: seq<Record>, readEnv: string)
    requires CombinedRecords(rows)
    ensures Extracted(Readable(rows), ["Column", "env"], "env", readEnv, false) == rows
  {
    var columns := ["Column", "env"];
    var r := Extracted(Readable(rows), columns, "env", readEnv, false);
    ExtractedOnePerRow(Readable(rows), columns, "env", readEnv, false);
    forall k | 0 <= k < |rows|
      ensures r[k] == rows[k]
    {
      UntaggedRecord(rows[k], columns, "env", readEnv);
      assert r[k].Keys == rows[k].Keys;
    }
  }

  /** The records of both runs form a combined file of that shape. */
  lemma BothRunsCombined(v: seq<string>, w: seq<string>, envA: string, envB: string)
    requires envA != "" && envB != ""
    ensures CombinedRecords(TaggedAll(v, envA) + TaggedAll(w, envB))
  {
  }

  /** The combined file both runs leave reads back as their records, which
      have the combined file's shape. */
  lemma ReadBackBothRuns(v: seq<string>, w: seq<string>, envA: string, envB: string)
    requires envA != "" && envB != ""
    ensures var records := TaggedAll(v, envA) + TaggedAll(w, envB);
      ReadBack(["Column", "env"], records) == records && CombinedRecords(records)
  {
    ReadBackTagged(v, envA);
    ReadBackTagged(w, envB);
    assert ReadBack(["Column", "env"], TaggedAll(v, envA) + TaggedAll(w, envB))
           == ReadBack(["Column", "env"], TaggedAll(v, envA)) + ReadBack(["Column", "env"], TaggedAll(w, envB));
    BothRunsCombined(v, w, envA, envB);
  }

  /** The new-environment test's final read as written, for any values: with
      tagging on and the first environment, the first record written under the
      second environment reads back tagged with the first, so the read differs
      from what was written. */
  lemma RetaggedReadBack(v: seq<string>, w: seq<string>, envA: string, envB: string)
    requires envA != "" && envB != "" && envA != envB && w != []
    ensures var records := TaggedAll(v, envA) + TaggedAll(w, envB);
      var r := Extracted(Readable(ReadBack(["Column", "env"], records)), ["Column", "env"], "env", envA, true);
      && |r| == |records|
      && r[|v|] == Tagged(w[0], envA)
      && r != records
  {
    var records := TaggedAll(v, envA) + TaggedAll(w, envB);
    ReadBackBothRuns(v, w, envA, envB);
    RetagOnRead(records, envA);
    var r := Extracted(Readable(records), ["Column", "env"], "env", envA, true);
    assert records[|v|] == Tagged(w[0], envB);
    assert r[|v|].Keys == Tagged(w[0], envA).Keys;
    assert r[|v|]["env"] != records[|v|]["env"];
  }

  /** The repository's new-environment test as written: the row for "Test10",
      written under "test_new_env", reads back tagged "test_env", so the read
      differs from the test's expected list. */
  lemma NewEnvironmentReadBackAsWritten()
    ensures var records := TaggedAll(merged, "test_env") + TaggedAll(newEnvFile, "test_new_env");
      var r := Extracted(Readable(ReadBack(["Column", "env"], records)), ["Column", "env"], "env", "test_env", true);
      && |r| == 15
      && r[9] == Tagged("Test10", "test_env")
      && r != records
  {
    RetaggedReadBack(merged, newEnvFile, "test_env", "test_new_env");
  }

  /** The new-environment test's final read, corrected to read without tagging:
      the combined file yields the header's fields for both runs' records, each
      with the environment it was merged under, exactly the test's expected
      list. */
  lemma NewEnvironmentReadBack(v: seq<string>, w: seq<string>, envA: string, envB: string)
    requires envA != "" && envB != ""
    ensures var records := TaggedAll(v, envA) + TaggedAll(w, envB);
      Extracted(Readable(ReadBack(["Column", "env"], records)), ["Column", "env"], "env", envA, false) == records
  {
    ReadBackBothRuns(v, w, envA, envB);
    ReadUntagged(TaggedAll(v, envA) + TaggedAll(w, envB), envA);
  }

  /** The repository's new-environment test with its final read corrected:
      the combined file yields `Test1` to `Test9` tagged "test_env", then
      `Test10` to `Test15` tagged "test_new_env", the test's expected list. */
  lemma NewEnvironmentReadBackCorrected()
    ensures var records := TaggedAll(merged, "test_env") + TaggedAll(newEnvFile, "test_new_env");
      Extracted(Readable(ReadBack(["Column", "env"], records)), ["Column", "env"], "env", "test_env", false)
      == records
  {
    NewEnvironmentReadBack(merged, newEnvFile, "test_env", "test_new_env");
  }
}
