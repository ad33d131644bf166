/** Orchestration: `ip_tracker`. The working directory is given abstractly:
    the input files `glob` discovered for `<env_name>*.csv`, in discovery
    order, the rows the combined file yields when read, and the combined file
    object the writer appends to. */
module Tracker {
  import opened Records
  import opened Reader
  import opened Writer

  /** The keyword parameters of `ip_tracker`. */
  datatype Config = Config(envName: string, columnsToRecord: seq<string>, combinedFile: string,
                           environmentColumn: string, allowDuplicates: bool, encoding: string,
                           debug: bool)

  /** The defaults `ip_tracker` declares for everything but the environment name. */
  function Defaults(envName: string): Config
  {
    Config(envName, ["Source IP"], "Combined.csv", "Environment", false, "utf-8-sig", false)
  }

  /** The header of the combined file: the requested columns, then the environment column. */
  function FieldNames(config: Config): seq<string>
  {
    config.columnsToRecord + [config.environmentColumn]
  }

  /** `sum([csv_reader(file, ..., True) for file in files], [])`: the tagged
      records of every discovered file, concatenated in discovery order. */
  function ExtractAll(files: seq<CsvFile>, columns: seq<string>, environmentColumn: string,
                      envName: string): seq<Record>
    decreases |files|
  {
    if files == [] then []
    else ExtractAll(files[..|files| - 1], columns, environmentColumn, envName)
         + Extracted(files[|files| - 1], columns, environmentColumn, envName, true)
  }

  /** The dedup baseline: the untagged records of the combined file when it
      exists, read with the field names as columns; none otherwise. */
  function Baseline(config: Config, combinedPresent: bool, combinedRows: CsvFile): seq<Record>
  {
    if combinedPresent
    then Extracted(combinedRows, FieldNames(config), config.environmentColumn, config.envName, false)
    else []
  }

  /** `ip_tracker`: extracts the tagged records of all input files, reads the
      combined file (if any) as the baseline, and calls the writer with the
      field names only when something was extracted; otherwise the combined
      file is neither created nor changed. */
  method IpTracker(config: Config, files: seq<CsvFile>, combinedRows: CsvFile, combined: CombinedFile)
    requires combined.Valid()
    modifies combined
    ensures combined.Valid() && combined.writable == old(combined.writable)
    ensures var extracted := ExtractAll(files, config.columnsToRecord, config.environmentColumn, config.envName);
      extracted == [] || !old(combined.writable) ==>
        combined.present == old(combined.present) && combined.lines == old(combined.lines)
    ensures var extracted := ExtractAll(files, config.columnsToRecord, config.environmentColumn, config.envName);
      var baseline := Baseline(config, old(combined.present), combinedRows);
      extracted != [] && old(combined.writable) ==>
        && combined.present
        && combined.lines == old(combined.lines)
           + AppendedLines(old(combined.present), FieldNames(config),
                           Written(extracted, baseline, config.allowDuplicates))
    ensures var extracted := ExtractAll(files, config.columnsToRecord, config.environmentColumn, config.envName);
      extracted != [] && old(combined.writable) && !old(combined.present) ==>
        combined.lines[0] == Header(FieldNames(config))
  {
    var extractedValues: seq<Record> := [];
    for i := 0 to |files|
      invariant unchanged(combined)
      invariant extractedValues
                == ExtractAll(files[..i], config.columnsToRecord, config.environmentColumn, config.envName)
    {
      var values := CsvReader(files[i], config.columnsToRecord, config.environmentColumn,
                              config.envName, config.debug, true);
      assert files[..i + 1][..i] == files[..i];
      extractedValues := extractedValues + values;
    }
    assert files[..|files|] == files;

    var recordedValues: seq<Record> := [];
    if combined.present {
      recordedValues := CsvReader(combinedRows, FieldNames(config), config.environmentColumn,
                                  config.envName, config.debug, false);
    }

    if |extractedValues| > 0 {
      var recorded := new RecordedValues(recordedValues);
      CsvWriter(combined, extractedValues, recorded, FieldNames(config), config.allowDuplicates);
    }
  }

  /** With the defaults, the combined file's header is `Source IP,Environment`. */
  lemma DefaultHeader(envName: string)
    ensures FieldNames(Defaults(envName)) == ["Source IP", "Environment"]
  {
  }

  /** Extraction over a split list of files is the concatenation of the parts. */
  lemma {:induction false} ExtractAllConcat(fs: seq<CsvFile>, gs: seq<CsvFile>, columns: seq<string>,
                                            environmentColumn: string, envName: string)
    ensures ExtractAll(fs + gs, columns, environmentColumn, envName)
            == ExtractAll(fs, columns, environmentColumn, envName)
               + ExtractAll(gs, columns, environmentColumn, envName)
    decreases |gs|
  {
    if gs == [] {
      assert fs + gs == fs;
    } else {
      var init, last := gs[..|gs| - 1], gs[|gs| - 1];
      var joined := fs + gs;
      assert joined[..|joined| - 1] == fs + init && joined[|joined| - 1] == last;
      ExtractAllConcat(fs, init, columns, environmentColumn, envName);
      var lastRecords := Extracted(last, columns, environmentColumn, envName, true);
      calc {
        ExtractAll(joined, columns, environmentColumn, envName);
        ExtractAll(fs + init, columns, environmentColumn, envName) + lastRecords;
        ExtractAll(fs, columns, environmentColumn, envName)
          + (ExtractAll(init, columns, environmentColumn, envName) + lastRecords);
      }
    }
  }

  /** Every record of one file carries only requested columns and, if tagged,
      the tag `envName`. */
  lemma ExtractedTagged(file: CsvFile, columns: seq<string>, environmentColumn: string, envName: string)
    requires environmentColumn !in columns
    ensures forall r :: r in Extracted(file, columns, environmentColumn, envName, true) ==>
      && r.Keys <= (set c | c in columns) + {environmentColumn}
      && (environmentColumn in r ==> r[environmentColumn] == Some(envName))
  {
    var records := Extracted(file, columns, environmentColumn, envName, true);
    ExtractedOnePerRow(file, columns, environmentColumn, envName, true);
    forall r | r in records
      ensures r.Keys <= (set c | c in columns) + {environmentColumn}
      ensures environmentColumn in r ==> r[environmentColumn] == Some(envName)
    {
      var k :| 0 <= k < |records| && records[k] == r;
      TaggedRecord(file.rows[k], columns, environmentColumn, envName, true);
    }
  }

  /** Every extracted record carries only requested columns and, if tagged, the
      tag of the environment being merged. */
  lemma {:induction false} ExtractAllTagged(files: seq<CsvFile>, columns: seq<string>,
                                            environmentColumn: string, envName: string)
    requires environmentColumn !in columns
    ensures forall r :: r in ExtractAll(files, columns, environmentColumn, envName) ==>
      && r.Keys <= (set c | c in columns) + {environmentColumn}
      && (environmentColumn in r ==> r[environmentColumn] == Some(envName))
    decreases |files|
  {
    if files != [] {
      ExtractAllTagged(files[..|files| - 1], columns, environmentColumn, envName);
      ExtractedTagged(files[|files| - 1], columns, environmentColumn, envName);
    }
  }

  /** Merging environment A and then environment B: B's records are written as
      if A's had never been, since records tagged with different environments
      never count as duplicates of each other. */
  lemma MergeTwoEnvironments(filesA: seq<CsvFile>, filesB: seq<CsvFile>, columns: seq<string>,
                             environmentColumn: string, envA: string, envB: string,
                             baseline: seq<Record>, allowDuplicates: bool)
    requires environmentColumn !in columns && envA != envB
    requires forall r :: r in ExtractAll(filesB, columns, environmentColumn, envB) ==> environmentColumn in r
    ensures var writtenA := Written(ExtractAll(filesA, columns, environmentColumn, envA), baseline, allowDuplicates);
      Written(ExtractAll(filesB, columns, environmentColumn, envB), baseline + writtenA, allowDuplicates)
      == Written(ExtractAll(filesB, columns, environmentColumn, envB), baseline, allowDuplicates)
  {
    var extractedA := ExtractAll(filesA, columns, environmentColumn, envA);
    var extractedB := ExtractAll(filesB, columns, environmentColumn, envB);
    var writtenA := Written(extractedA, baseline, allowDuplicates);
    ExtractAllTagged(filesA, columns, environmentColumn, envA);
    ExtractAllTagged(filesB, columns, environmentColumn, envB);
    WrittenFromExtracted(extractedA, baseline, allowDuplicates);
    WrittenIgnoresUnrelated(extractedB, baseline, writtenA, allowDuplicates);
  }
}
