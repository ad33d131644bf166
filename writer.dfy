/** Deduplicating append: `csv_writer`. The combined file is an object whose
    state is whether it exists, whether it can be opened for appending, and
    the lines it holds; the caller's `recorded_values` list is an object too,
    because the writer appends to it in place. */
module Writer {
  import opened Records

  /** A line of the combined file: the header row or one data row. */
  datatype Line = Header(fieldnames: seq<string>) | DataRow(values: Record)

  /** The records the writer emits, in order, when it walks `extracted` with
      `recorded` as the list of already known records. A record is emitted iff
      duplicates are allowed or it is neither in `recorded` nor among the
      records emitted before it. (The source's test `allow_duplicates or
      (values not in recorded_values and not allow_duplicates)` reduces to this.) */
  function Written<T(==)>(extracted: seq<T>, recorded: seq<T>, allowDuplicates: bool): seq<T>
    decreases |extracted|
  {
    if extracted == [] then []
    else
      var earlier := Written(extracted[..|extracted| - 1], recorded, allowDuplicates);
      var values := extracted[|extracted| - 1];
      if allowDuplicates || values !in recorded + earlier then earlier + [values] else earlier
  }

  /** The data lines for `records`, in order. */
  function DataRows(records: seq<Record>): seq<Line>
  {
    seq(|records|, k requires 0 <= k < |records| => DataRow(records[k]))
  }

  /** The lines one call appends: the header first when the file is new. */
  function AppendedLines(fileExisted: bool, fieldnames: seq<string>, written: seq<Record>): seq<Line>
  {
    (if fileExisted then [] else [Header(fieldnames)]) + DataRows(written)
  }

  /** The combined CSV file on disk. */
  class CombinedFile {
    var present: bool
    /** Whether `open(file_path, mode='a')` succeeds rather than raising `PermissionError`. */
    var writable: bool
    var lines: seq<Line>

    ghost predicate Valid()
      reads this
    {
      !present ==> lines == []
    }

    constructor (present: bool, writable: bool, lines: seq<Line>)
      requires !present ==> lines == []
      ensures Valid()
      ensures this.present == present && this.writable == writable && this.lines == lines
    {
      this.present := present;
      this.writable := writable;
      this.lines := lines;
    }
  }

  /** The caller's `recorded_values` list. */
  class RecordedValues {
    var items: seq<Record>

    constructor (items: seq<Record>)
      ensures this.items == items
    {
      this.items := items;
    }
  }

  /** `csv_writer`: when the file can be opened for appending, it is created if
      need be, the header is written iff the file did not exist before, and each
      extracted record not yet recorded (or every one, when duplicates are
      allowed) is appended to the file and to the caller's list. When opening
      fails, nothing changes. */
  method CsvWriter(file: CombinedFile, extractedValues: seq<Record>, recordedValues: RecordedValues,
                   fieldnames: seq<string>, allowDuplicates: bool)
    requires file.Valid()
    modifies file, recordedValues
    ensures file.Valid() && file.writable == old(file.writable)
    ensures !old(file.writable) ==>
      && file.present == old(file.present)
      && file.lines == old(file.lines)
      && recordedValues.items == old(recordedValues.items)
    ensures old(file.writable) ==>
      var written := Written(extractedValues, old(recordedValues.items), allowDuplicates);
      && file.present
      && recordedValues.items == old(recordedValues.items) + written
      && file.lines == old(file.lines) + AppendedLines(old(file.present), fieldnames, written)
    ensures old(file.writable) && !old(file.present) ==> file.lines[0] == Header(fieldnames)
  {
    var fileExists := file.present;
    if !file.writable {
      return;
    }
    file.present := true;
    if !fileExists {
      file.lines := file.lines + [Header(fieldnames)];
    }
    ghost var recorded0 := recordedValues.items;
    ghost var lines0 := file.lines;
    for i := 0 to |extractedValues|
      invariant file.present && file.writable == old(file.writable)
      invariant recordedValues.items == recorded0 + Written(extractedValues[..i], recorded0, allowDuplicates)
      invariant file.lines == lines0 + DataRows(Written(extractedValues[..i], recorded0, allowDuplicates))
    {
      var values := extractedValues[i];
      assert extractedValues[..i + 1][..i] == extractedValues[..i];
      if allowDuplicates || (values !in recordedValues.items && !allowDuplicates) {
        recordedValues.items := recordedValues.items + [values];
        file.lines := file.lines + [DataRow(values)];
      }
    }
    assert extractedValues[..|extractedValues|] == extractedValues;
  }

  /** Every emitted record comes from `extracted`, in extraction order. */
  predicate IsSubsequence<T(==)>(s: seq<T>, t: seq<T>)
    decreases |t|
  {
    if s == [] then true
    else if t == [] then false
    else if s[|s| - 1] == t[|t| - 1] then IsSubsequence(s[..|s| - 1], t[..|t| - 1])
    else IsSubsequence(s, t[..|t| - 1])
  }

  /** With duplicates allowed, every extracted record is written, in order. */
  lemma {:induction false} WrittenAllowingDuplicates<T>(extracted: seq<T>, recorded: seq<T>)
    ensures Written(extracted, recorded, true) == extracted
    decreases |extracted|
  {
    if extracted != [] {
      var init := extracted[..|extracted| - 1];
      WrittenAllowingDuplicates(init, recorded);
      assert init + [extracted[|extracted| - 1]] == extracted;
    }
  }

  /** Without duplicates, a record is written iff it was extracted and was not
      already recorded; in particular every extracted record is recorded after
      the call. */
  lemma {:induction false} WrittenMembership<T>(extracted: seq<T>, recorded: seq<T>)
    ensures forall x :: x in Written(extracted, recorded, false) <==> x in extracted && x !in recorded
    ensures forall x :: x in extracted ==> x in recorded + Written(extracted, recorded, false)
    decreases |extracted|
  {
    if extracted != [] {
      var init := extracted[..|extracted| - 1];
      WrittenMembership(init, recorded);
      assert extracted == init + [extracted[|extracted| - 1]];
    }
  }

  /** Only extracted records are written. */
  lemma {:induction false} WrittenFromExtracted<T>(extracted: seq<T>, recorded: seq<T>, allowDuplicates: bool)
    ensures forall x :: x in Written(extracted, recorded, allowDuplicates) ==> x in extracted
    decreases |extracted|
  {
    if extracted != [] {
      var init := extracted[..|extracted| - 1];
      WrittenFromExtracted(init, recorded, allowDuplicates);
      assert extracted == init + [extracted[|extracted| - 1]];
    }
  }

  /** Without duplicates, the written records are pairwise distinct. */
  lemma {:induction false} WrittenDistinct<T>(extracted: seq<T>, recorded: seq<T>)
    ensures Distinct(Written(extracted, recorded, false))
    decreases |extracted|
  {
    if extracted != [] {
      WrittenDistinct(extracted[..|extracted| - 1], recorded);
    }
  }

  /** The written records keep extraction order. */
  lemma {:induction false} WrittenInOrder<T>(extracted: seq<T>, recorded: seq<T>, allowDuplicates: bool)
    ensures IsSubsequence(Written(extracted, recorded, allowDuplicates), extracted)
    decreases |extracted|
  {
    if extracted != [] {
      var init := extracted[..|extracted| - 1];
      var w := Written(init, recorded, allowDuplicates);
      WrittenInOrder(init, recorded, allowDuplicates);
      if Written(extracted, recorded, allowDuplicates) != w {
        assert (w + [extracted[|extracted| - 1]])[..|w|] == w;
      } else {
        SubsequenceOfLonger(w, init, extracted[|extracted| - 1]);
      }
    }
  }

  lemma {:induction false} SubsequenceOfLonger<T>(s: seq<T>, t: seq<T>, x: T)
    requires IsSubsequence(s, t)
    ensures IsSubsequence(s, t + [x])
    decreases |t|, 1
  {
    assert (t + [x])[..|t|] == t;
    if s != [] && s[|s| - 1] == x {
      SubsequenceDropLast(s, t);
    }
  }

  lemma {:induction false} SubsequenceDropLast<T>(s: seq<T>, t: seq<T>)
    requires s != [] && IsSubsequence(s, t)
    ensures IsSubsequence(s[..|s| - 1], t)
    decreases |t|, 0
  {
    var t' := t[..|t| - 1];
    assert t == t' + [t[|t| - 1]];
    if s[|s| - 1] == t[|t| - 1] {
      SubsequenceOfLonger(s[..|s| - 1], t', t[|t| - 1]);
    } else {
      SubsequenceDropLast(s, t');
      SubsequenceOfLonger(s[..|s| - 1], t', t[|t| - 1]);
    }
  }

  /** Processing a batch in two parts, the second against the list as the first
      left it, writes what processing it at once writes. */
  lemma {:induction false} WrittenSplit<T>(a: seq<T>, b: seq<T>, recorded: seq<T>, allowDuplicates: bool)
    ensures Written(a + b, recorded, allowDuplicates)
            == Written(a, recorded, allowDuplicates)
               + Written(b, recorded + Written(a, recorded, allowDuplicates), allowDuplicates)
    decreases |b|
  {
    if b == [] {
      assert a + b == a;
    } else {
      var init := b[..|b| - 1];
      WrittenSplit(a, init, recorded, allowDuplicates);
      assert (a + b)[..|a + b| - 1] == a + init;
    }
  }

  /** Without duplicates, a batch whose records are all known writes nothing. */
  lemma {:induction false} WrittenNothingNew<T>(extracted: seq<T>, recorded: seq<T>)
    requires forall x :: x in extracted ==> x in recorded
    ensures Written(extracted, recorded, false) == []
    decreases |extracted|
  {
    if extracted != [] {
      WrittenNothingNew(extracted[..|extracted| - 1], recorded);
    }
  }

  /** Without duplicates, a batch with no repeats and nothing already known is
      written in full. */
  lemma {:induction false} WrittenAllFresh<T>(extracted: seq<T>, recorded: seq<T>)
    requires Distinct(extracted) && forall x :: x in extracted ==> x !in recorded
    ensures Written(extracted, recorded, false) == extracted
    decreases |extracted|
  {
    if extracted != [] {
      var init := extracted[..|extracted| - 1];
      WrittenAllFresh(init, recorded);
      assert extracted == init + [extracted[|extracted| - 1]];
    }
  }

  /** Without duplicates, repeating a call with the same batch writes nothing. */
  lemma WrittenIdempotent<T>(extracted: seq<T>, recorded: seq<T>)
    ensures Written(extracted, recorded + Written(extracted, recorded, false), false) == []
  {
    WrittenMembership(extracted, recorded);
    WrittenNothingNew(extracted, recorded + Written(extracted, recorded, false));
  }

  /** Known records that no extracted record equals do not change what is written. */
  lemma {:induction false} WrittenIgnoresUnrelated<T>(extracted: seq<T>, recorded: seq<T>,
                                                   unrelated: seq<T>, allowDuplicates: bool)
    requires forall x :: x in extracted ==> x !in unrelated
    ensures Written(extracted, recorded + unrelated, allowDuplicates) == Written(extracted, recorded, allowDuplicates)
    decreases |extracted|
  {
    if extracted != [] {
      WrittenIgnoresUnrelated(extracted[..|extracted| - 1], recorded, unrelated, allowDuplicates);
    }
  }

  /** The header, given by the field names, is appended iff the file is new, and
      then it precedes every data row; all other appended lines are data rows. */
  lemma AppendedHeaderIffNew(fileExisted: bool, fieldnames: seq<string>, written: seq<Record>)
    ensures var lines := AppendedLines(fileExisted, fieldnames, written);
      && |lines| == |written| + (if fileExisted then 0 else 1)
      && (!fileExisted <==> Header(fieldnames) in lines)
      && (!fileExisted ==> lines[0] == Header(fieldnames))
      && forall k :: (if fileExisted then 0 else 1) <= k < |lines| ==> lines[k].DataRow?
  {
  }
}
