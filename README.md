# IP Tracker, modelled in Dafny

IP Tracker consolidates the rows of per-environment CSV exports into one
combined CSV file. For an environment name `env_name` it:

- reads every file matching `<env_name>*.csv`;
- keeps the requested columns of each row (by default `Source IP`);
- tags each record with the environment;
- appends to the combined file every record it does not already hold, writing
  a header first when the file is new.

The model covers the three functions that do this work, `csv_reader`,
`csv_writer` and `ip_tracker`, in five modules:

- `Records` (`records.dfy`) holds the shared vocabulary.
  - A row or record is a map from column name to `Option<string>`. `None` is
    Python's `None`, the result of `row.get` for a column the file lacks.
  - `Truthy` is Python truthiness of such a value: present and non-empty.
- `Reader` (`reader.dfy`) models `csv_reader`.
  - A file is what opening it yields: its data rows, or `PermissionDenied`.
  - `RowRecord`, `RowsRecords` and `Extracted` specify the records built.
  - The method `CsvReader` is the nested loop of the source, proved equal to
    `Extracted`.
  - Lemmas state what every record holds in each of the three cases:
    - tagging off;
    - tagging on, environment column not requested;
    - environment column requested.
- `Writer` (`writer.dfy`) models `csv_writer`.
  - The combined file is a class `CombinedFile`. Its state is whether it
    exists, whether it can be opened for appending, and its lines (a header
    line, then data rows).
  - The caller's `recorded_values` list is a class too, because the writer
    appends to it in place.
  - `Written` specifies which records the dedup loop emits. The method
    `CsvWriter` is proved against it and against `AppendedLines`.
  - Lemmas give the loop's promises: membership, no repeats, extraction order,
    batching, idempotence, and the behaviour with duplicates allowed.
- `Tracker` (`tracker.dfy`) models `ip_tracker`.
  - The directory is given abstractly: the files `glob` discovered, in
    discovery order; the rows the existing combined file yields; and the
    combined file object.
  - The method `IpTracker` runs the readers and the writer as the source does.
    It is proved to append exactly the header (if the file is new) and the
    fresh tagged records, and to leave the file alone when nothing was
    extracted.
- `Scenarios` (`scenarios.dfy`) plays through the repository's unit tests.
  - The setup writes two input files, deduplicating the repeats of the first;
    the two files then merge into `Test1`…`Test9`, tagged.
  - A second environment, `Test10`…`Test15`, is appended after them.
  - The proofs are first done over arbitrary values, then instantiated with
    the tests' own.

The repository holds two copies of the script, `ip_tracker_script/ip_tracker.py`
and `ip_tracker.py`. Their three core functions are identical apart from the
text of one debug message. The table below cites
`ip_tracker_script/ip_tracker.py`; the same code sits one line earlier in
`ip_tracker.py`:

| code | ip_tracker_script/ip_tracker.py | ip_tracker.py |
|---|---|---|
| `csv_reader` | 16-72 | 15-71 |
| `csv_writer` | 75-120 | 74-119 |
| `ip_tracker` | 123-197 | 122-196 |

**How tagging works.** The code sets the environment column whenever any requested column's value is
truthy, and never removes it again. When the environment column is itself
requested, `row.get` overwrites it each time that column is processed. The
model follows the code:

- `Reader.TaggedRecord`: with the environment column not requested, the tag is
  present iff some requested value is truthy.
- `Reader.EnvironmentColumnRequested`: with the environment column requested,
  its final value depends on the columns from its last occurrence onwards.

## Model

| member | source | states |
|---|---|---|
| Reader.RowRecord | ip_tracker_script/ip_tracker.py:55-62 | The record built for one row: the requested columns in order, each set to `row.get(column)`, and the environment column set to `env_name` after each truthy value when `add_env` holds |
| Reader.RowsRecords | ip_tracker_script/ip_tracker.py:54-68 | The records of the rows, one appended per row, in file order |
| Reader.Extracted | ip_tracker_script/ip_tracker.py:49-72 | What `csv_reader` returns: no records when opening raises `PermissionError`, otherwise the rows' records |
| Reader.CsvReader | ip_tracker_script/ip_tracker.py:49-72 | The records returned are `Extracted`: none when opening the file raises `PermissionError`, otherwise one per data row in file order, built column by column; `debug` has no effect on them |
| Reader.ExtractedOnePerRow | ip_tracker_script/ip_tracker.py:51-72 | A denied file yields no records; a readable one yields exactly as many records as rows, the k-th built from the k-th row, so no row is dropped or reordered |
| Reader.UntaggedRecord | ip_tracker_script/ip_tracker.py:55-58 | With `add_env` off (the combined-file read), a record's keys are exactly the requested columns, each holding `row.get(column)`, `None` for a column the file lacks |
| Reader.TaggedRecord | ip_tracker_script/ip_tracker.py:55-62 | With the environment column not requested, a record holds the requested columns with their `row.get` values, plus the environment column set to `env_name` iff `add_env` is on and some requested value is truthy |
| Reader.RequestedValues | ip_tracker_script/ip_tracker.py:55-62 | For any environment column, the keys lie between the requested columns and those plus the environment column, and every requested column other than the environment column holds its `row.get` value |
| Reader.EnvironmentColumnRequested | ip_tracker_script/ip_tracker.py:57-62 | With the environment column requested, the keys are exactly the requested columns, and the environment column ends as `env_name` iff `add_env` holds and some column from its last occurrence onwards is truthy, otherwise as the row's own value |
| Reader.LastIndexOf | ip_tracker_script/ip_tracker.py:57-58 | The index returned holds the column and no later position does: the last assignment by `row_values[column] = ...` wins |
| Writer.Written | ip_tracker_script/ip_tracker.py:114-118 | The records the loop emits, in order: each extracted record when duplicates are allowed, otherwise each one not in `recorded_values` as it stands when the record is reached |
| Writer.AppendedLines | ip_tracker_script/ip_tracker.py:104-118 | The lines one writer call appends: the header when the file did not exist, then one data row per written record |
| Writer.CsvWriter | ip_tracker_script/ip_tracker.py:104-120 | If the file cannot be opened nothing changes; otherwise the file exists afterwards, the header is appended iff it did not exist before (and is then the file's first line), and the records of `Written` are appended to both the file and the caller's `recorded_values`, in order |
| Writer.WrittenMembership | ip_tracker_script/ip_tracker.py:114-118 | Without duplicates, a record is written iff it was extracted and was not already recorded, and afterwards every extracted record is recorded |
| Writer.WrittenDistinct | ip_tracker_script/ip_tracker.py:114-118 | Without duplicates, no record is written twice in one call |
| Writer.WrittenInOrder | ip_tracker_script/ip_tracker.py:114-118 | The written records are a subsequence of the extracted ones, so extraction order is kept |
| Writer.WrittenFromExtracted | ip_tracker_script/ip_tracker.py:114-118 | Every written record is an extracted one |
| Writer.WrittenAllowingDuplicates | ip_tracker_script/ip_tracker.py:115-118 | With `allow_duplicates`, every extracted record is written, in order, whatever was recorded |
| Writer.WrittenSplit | ip_tracker_script/ip_tracker.py:114-118 | Writing a batch in two parts, the second against the list as the first left it, writes the same records as writing it at once |
| Writer.WrittenNothingNew | ip_tracker_script/ip_tracker.py:114-118 | Without duplicates, a batch whose records are all already recorded writes nothing |
| Writer.WrittenAllFresh | ip_tracker_script/ip_tracker.py:114-118 | Without duplicates, a batch with no repeats and no recorded record is written in full |
| Writer.WrittenIdempotent | ip_tracker_script/ip_tracker.py:114-118 | Without duplicates, a second call with the same batch against the updated list writes nothing |
| Writer.WrittenIgnoresUnrelated | ip_tracker_script/ip_tracker.py:114-118 | Recorded values that equal no extracted record do not change what is written |
| Writer.AppendedHeaderIffNew | ip_tracker_script/ip_tracker.py:104-118 | The header, made of the field names, is appended iff the file did not exist; it then comes first, and every other appended line is a data row |
| Tracker.FieldNames | ip_tracker_script/ip_tracker.py:179-181 | The combined file's columns: the requested columns, then the environment column; also the writer's field names at line 194 |
| Tracker.ExtractAll | ip_tracker_script/ip_tracker.py:170-172 | The tagged records of every discovered file, concatenated in discovery order |
| Tracker.Baseline | ip_tracker_script/ip_tracker.py:178-183 | The records already in the combined file: its untagged records read with the field names when it exists, none otherwise |
| Tracker.DefaultHeader | ip_tracker_script/ip_tracker.py:123-126 | With the default arguments the combined file's header is `Source IP,Environment` |
| Tracker.IpTracker | ip_tracker_script/ip_tracker.py:167-197 | With nothing extracted, or a file that cannot be opened, the combined file is unchanged; otherwise it exists and gains the header (if new, as its first line) and `Written(extracted, baseline)`, where `extracted` concatenates every discovered file's tagged records and `baseline` is the combined file's untagged records read with the field names `columns_to_record + [environment_column]` |
| Tracker.ExtractAllConcat | ip_tracker_script/ip_tracker.py:170-172 | Extraction over a split file list is the concatenation of the parts' extractions: `sum` joins per-file results in discovery order |
| Tracker.ExtractedTagged | ip_tracker_script/ip_tracker.py:57-62 | With the environment column not requested, every record of one file holds only requested columns plus the environment column, and a present tag is `env_name` |
| Tracker.ExtractAllTagged | ip_tracker_script/ip_tracker.py:170-172 | The same holds for every record extracted from all discovered files |
| Tracker.MergeTwoEnvironments | ip_tracker_script/ip_tracker.py:170-195 | Merging environment A and then environment B writes B's tagged records as if A's run had never happened, because records tagged differently never count as duplicates |
| Scenarios.ExtractColumnFile | ip_tracker_script/test_ip_tracker.py:18-40 | A file of non-empty values in `Column`, read with tagging, yields one `{Column, env}` record per row |
| Scenarios.ExtractColumnFileUntagged | ip_tracker_script/test_ip_tracker.py:42-61 | Read without tagging, as the extraction test does, such a file yields exactly its rows, so each row of the test's list is among the extracted records |
| Scenarios.WrittenTwice | ip_tracker_script/test_ip_tracker.py:18-22 | A record repeated twice and not yet recorded is written once |
| Scenarios.FirstBatchTail | ip_tracker_script/test_ip_tracker.py:18-25 | After the first record, the rest of the first test file (second record twice, then two new ones) writes each of them once |
| Scenarios.FirstBatchWritten | ip_tracker_script/test_ip_tracker.py:18-28 | The first test file's six listed rows, with the first two values repeated, write only their four distinct records |
| Scenarios.ReadBack | ip_tracker_script/ip_tracker.py:107-118 | The rows a file written by `DictWriter` with the given field names yields to `DictReader`: every field present, `None` and missing keys read back as empty text |
| Scenarios.RowsDistinct | ip_tracker_script/test_ip_tracker.py:18-37 | Distinct values give distinct single-column rows |
| Scenarios.ReadBackRows | ip_tracker_script/test_ip_tracker.py:26-40 | Rows holding only `Column` read back unchanged |
| Scenarios.SetUpFirstFile | ip_tracker_script/test_ip_tracker.py:18-28 | The setup's `csv_writer` call leaves `test_env1.csv` holding the first four values once each |
| Scenarios.SetUpSecondFile | ip_tracker_script/test_ip_tracker.py:30-40 | The setup's `csv_writer` call leaves `test_env2.csv` holding all six of its values |
| Scenarios.SecondBatchWritten | ip_tracker_script/test_ip_tracker.py:30-37 | The second test file's first record is already recorded by the first file, and its other five are all written |
| Scenarios.TestBatchWritten | ip_tracker_script/test_ip_tracker.py:18-37 | The rows of the two files the setup leaves write the nine distinct records once each, in order |
| Scenarios.TwoFilesExtracted | ip_tracker_script/ip_tracker.py:170-172 | Two discovered files extract as the first file's records followed by the second's |
| Scenarios.SecondValuesTagged | ip_tracker_script/test_ip_tracker.py:30-37 | Tagging the second file's values is the same as picking the second file's records from the tagged values |
| Scenarios.TestFilesExtracted | ip_tracker_script/test_ip_tracker.py:63-67 | The two files the setup leaves extract to their tagged rows in discovery order |
| Scenarios.TestFilesMerged | ip_tracker_script/test_ip_tracker.py:63-87 | For any nine distinct non-empty values, merging the two test files writes each value once, in order, tagged with the environment |
| Scenarios.TwoFilesMerged | ip_tracker_script/test_ip_tracker.py:63-87 | For `Test1`…`Test9` and environment `test_env`, the written records are exactly the test's expected list |
| Scenarios.OneFileExtracted | ip_tracker_script/test_ip_tracker.py:97-112 | A single discovered file extracts to its tagged rows |
| Scenarios.BaselineReadBack | ip_tracker_script/ip_tracker.py:178-183 | Reading back a combined file whose rows are tagged records, with the field names and no tagging, gives those same records as the baseline |
| Scenarios.ReadBackTagged | ip_tracker_script/ip_tracker.py:107-118 | Tagged records written under the header `Column,env` read back as the same records |
| Scenarios.OtherEnvironmentWritten | ip_tracker_script/test_ip_tracker.py:109-139 | Distinct records tagged with another environment are all new against the first environment's records, so all are written |
| Scenarios.FirstRun | ip_tracker_script/test_ip_tracker.py:92-95 | The first run on a new combined file extracts something, then appends the header and the nine tagged records |
| Scenarios.SecondRun | ip_tracker_script/test_ip_tracker.py:109-112 | The second run, for another environment, reads back the file the first run wrote and appends exactly its own tagged records, with no header |
| Scenarios.TwoEnvironmentRuns | ip_tracker_script/test_ip_tracker.py:91-139 | Running `IpTracker` for environment A on the two test files, then for B on one file of distinct values with the combined file read back as the first run wrote it, leaves the header, A's nine records, then B's records |
| Scenarios.NewEnvironmentRun | ip_tracker_script/test_ip_tracker.py:91-139 | With the tests' values, the combined file holds the header, `Test1`…`Test9` tagged `test_env`, then `Test10`…`Test15` tagged `test_new_env`, as the test expects |
| Scenarios.RetagOnRead | ip_tracker_script/ip_tracker.py:57-62 | Reading a combined file of `{Column, env}` rows with tagging on sets every row's environment to the one being read, whatever the row held |
| Scenarios.ReadUntagged | ip_tracker_script/ip_tracker.py:179-183 | Reading the same file with tagging off, as `ip_tracker` reads its combined file, yields its rows unchanged |
| Scenarios.BothRunsCombined | ip_tracker_script/test_ip_tracker.py:121-137 | The records of both runs each hold exactly `Column` and a non-empty `env` |
| Scenarios.ReadBackBothRuns | ip_tracker_script/test_ip_tracker.py:114-119 | The file both runs leave reads back as their records, in order |
| Scenarios.RetaggedReadBack | ip_tracker_script/test_ip_tracker.py:114-139 | The test's final read as written, for any values: the first record of the second environment comes back tagged with the first, so the read differs from what was written |
| Scenarios.NewEnvironmentReadBackAsWritten | ip_tracker_script/test_ip_tracker.py:114-139 | With the test's values, the read's tenth record is `Test10` tagged `test_env`, so it does not equal the expected list |
| Scenarios.NewEnvironmentReadBack | ip_tracker_script/test_ip_tracker.py:114-139 | The corrected read (tagging off), for any values and non-empty environments, yields both runs' records, each with its own environment |
| Scenarios.NewEnvironmentReadBackCorrected | ip_tracker_script/test_ip_tracker.py:114-139 | With the test's values, the corrected read equals the test's expected list |

## Left out

- The command-line front end (`argparse`, `ast.literal_eval` of the column list) is not modelled.
- File discovery is not modelled: `glob` on `sys.path[0]` becomes the given sequence of files, in discovery order.
- The CSV text format is not modelled: quoting, the byte-order mark, `encoding`, `DictReader` header handling and `DictWriter` serialisation are left out.
- A file is given by the rows it parses to. The combined file's parsed rows are a separate parameter of `IpTracker`. The scenarios link the two through `Scenarios.ReadBack`, which assumes each written cell reads back as its text, with `None` and missing keys becoming empty cells.
- The diagnostics printed under `debug` and on `PermissionError` are left out. `debug` is kept as a parameter, and the results are proved independent of it.
- `csv_writer` raising `PermissionError` only after some rows were written is not modelled: opening is all-or-nothing, through the `writable` flag.
- Other exceptions are not modelled: errors other than `PermissionError`, which the source does not catch, and `DictWriter` raising on a record key outside the field names.
- `test_extraction` is not played through as written. It loops over the characters of a path string (test_ip_tracker.py:43-48 and 53-58), so it concatenates one read per character, and its second half reads `test_env2.csv` once per character of the first file's path. Repeating a read adds no new records, so the outcome of its `assertIn` checks is that of a single read, which Scenarios.ExtractColumnFileUntagged covers.

## Findings

| source | as written | input that shows it | evidently intended | confidence | as-written member | corrected member |
|---|---|---|---|---|---|---|
| ip_tracker_script/test_ip_tracker.py:114-139 | The test reads the combined file back with `csv_reader(..., 'test_env', True)`, and `env` is among the requested columns. Each row's `env` value is copied and then, being truthy, overwritten with `test_env` | The row `Test10,test_new_env` written by the second run reads back as `{'Column': 'Test10', 'env': 'test_env'}`, not the expected `test_new_env` | Read the combined file as `ip_tracker` does, without tagging, so each row keeps the environment it was merged under | high; not executed | Scenarios.NewEnvironmentReadBackAsWritten | Scenarios.NewEnvironmentReadBackCorrected |
