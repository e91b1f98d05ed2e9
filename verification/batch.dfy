/**
 * The merge loop of `main` (app.py lines 57-134): select the input files,
 * process each in turn, append what it contributes to the master table,
 * count the merged files, log the failing ones, and save only a non-empty
 * master table.
 */
module Batch {
  import opened Results
  import opened Strings
  import opened Literals
  import Seqs
  import opened InputFilter
  import opened Metadata
  import opened Header
  import opened Tables

  /**
   * One scanned file: its basename, the outcome of the probe read of its
   * leading rows (`None` when that read raised), and the full read as a
   * function of the header row index (a `Failure` carries the message of the
   * exception the reader raised).
   */
  datatype SourceFile = SourceFile(name: string, probe: Option<seq<TextRow>>, read: nat -> Result<Table, string>)

  /** What one file does to the batch. */
  datatype FileOutcome = Merged(table: Table) | NoKeyColumn | Failed(error: FileError)

  /** One row of the master table, with the labels of the file it came from. */
  datatype Record = Record(columns: seq<string>, cells: Row)

  /** The full read of a file at the header row its probe located. */
  function Loaded(f: SourceFile): Result<Table, string> {
    f.read(FindHeaderRow(f.probe))
  }

  /** The body of the `try` block for one file. */
  function ProcessFile(f: SourceFile): (o: FileOutcome)
    ensures Loaded(f).Failure? ==> o == Failed(ReadError(Loaded(f).error))
    ensures o.NoKeyColumn? <==> Loaded(f).Success? && KeyColumn(Loaded(f).value.columns).None?
    ensures o.Merged? <==>
              && Loaded(f).Success? && KeyColumn(Loaded(f).value.columns).Some?
              && FurnaceLabel !in Loaded(f).value.columns && DateLabel !in Loaded(f).value.columns
  {
    match Loaded(f)
    case Failure(message) => Failed(ReadError(message))
    case Success(t) =>
      match KeyColumn(t.columns)
      case None => NoKeyColumn
      case Some(k) =>
        var kept := SelectKeyed(t, k);
        match Tag(kept, WorkDate(f.name), FurnaceTag(f.name))
        case Failure(e) => Failed(e)
        case Success(tagged) =>
          Merged(tagged)
  }

  /** A merged file's table is its keyed rows, tagged with the file's metadata. */
  lemma MergedTable(f: SourceFile)
    requires ProcessFile(f).Merged?
    ensures var t := Loaded(f).value;
            var k := KeyColumn(t.columns).value;
            Tag(SelectKeyed(t, k), WorkDate(f.name), FurnaceTag(f.name)) == Success(ProcessFile(f).table)
  {
  }

  /** A merged file contributes one row per keyed row, under the two metadata labels and then the table's own. */
  lemma MergedFileShape(f: SourceFile)
    requires ProcessFile(f).Merged?
    ensures var t := Loaded(f).value;
            var u := ProcessFile(f).table;
            && u.columns == [DateLabel, FurnaceLabel] + t.columns
            && |u.rows| == Seqs.Count(Keyed(KeyColumn(t.columns).value), t.rows)
  {
    MergedTable(f);
    var u := ProcessFile(f).table;
    assert u.columns == u.columns[..2] + u.columns[2..];
  }

  /**
   * Each row a merged file contributes is led by the file's work date and
   * furnace tag and continues with a row of the read that has an order number.
   */
  lemma MergedFileRows(f: SourceFile)
    requires ProcessFile(f).Merged?
    ensures var t := Loaded(f).value;
            var k := KeyColumn(t.columns).value;
            var u := ProcessFile(f).table;
            forall i :: 0 <= i < |u.rows| ==>
              && u.rows[i][0] == Text(WorkDate(f.name))
              && u.rows[i][1] == Text(FurnaceTag(f.name))
              && u.rows[i][2..] in t.rows
              && u.rows[i][2 + k].Text?
  {
    MergedTable(f);
    var t := Loaded(f).value;
    var k := KeyColumn(t.columns).value;
    var kept := SelectKeyed(t, k);
    var u := ProcessFile(f).table;
    forall i | 0 <= i < |u.rows|
      ensures u.rows[i][2..] in t.rows && u.rows[i][2 + k].Text?
    {
      assert u.rows[i][2..] == kept.rows[i];
      assert u.rows[i][2 + k] == kept.rows[i][k];
    }
  }

  predicate IsMerged(f: SourceFile) {
    ProcessFile(f).Merged?
  }

  predicate IsFailed(f: SourceFile) {
    ProcessFile(f).Failed?
  }

  /** The rows of a table, each paired with the table's labels. */
  function Records(t: Table): (rs: seq<Record>)
    ensures |rs| == |t.rows|
    ensures forall i :: 0 <= i < |rs| ==> rs[i].columns == t.columns && rs[i].cells == t.rows[i]
  {
    seq(|t.rows|, i requires 0 <= i < |t.rows| => Record(t.columns, t.rows[i]))
  }

  /** The records a file appends to the master table. */
  function Contribution(f: SourceFile): seq<Record> {
    match ProcessFile(f)
    case Merged(t) => Records(t)
    case _ => []
  }

  /** The error-log line of a file that raised: `"{basename}: {error}"`. */
  function LogEntries(f: SourceFile): seq<string> {
    match ProcessFile(f)
    case Failed(e) => [f.name + ": " + Message(e)]
    case _ => []
  }

  /** The master table after a run over `files`: every file's contribution, in file order. */
  function MasterOf(files: seq<SourceFile>): seq<Record> {
    if |files| == 0 then [] else MasterOf(files[..|files| - 1]) + Contribution(files[|files| - 1])
  }

  /** The error log after a run over `files`: every file's log line, in file order. */
  function ErrorLogOf(files: seq<SourceFile>): seq<string> {
    if |files| == 0 then [] else ErrorLogOf(files[..|files| - 1]) + LogEntries(files[|files| - 1])
  }

  /** Processing one more file appends its contribution to the master table. */
  lemma MasterStep(files: seq<SourceFile>, f: SourceFile)
    ensures MasterOf(files + [f]) == MasterOf(files) + Contribution(f)
  {
    assert (files + [f])[..|files|] == files;
  }

  /** Processing one more file appends its log line, if any. */
  lemma LogStep(files: seq<SourceFile>, f: SourceFile)
    ensures ErrorLogOf(files + [f]) == ErrorLogOf(files) + LogEntries(f)
  {
    assert (files + [f])[..|files|] == files;
  }

  /** Processing one more file adds one to the count exactly when it merges. */
  lemma CountStep(files: seq<SourceFile>, f: SourceFile)
    ensures Seqs.Count(IsMerged, files + [f]) == Seqs.Count(IsMerged, files) + (if IsMerged(f) then 1 else 0)
  {
    Seqs.CountAppend(IsMerged, files, [f]);
  }

  /** One turn of the loop, stated on the prefix of the files processed so far. */
  lemma LoopStep(files: seq<SourceFile>, i: nat)
    requires i < |files|
    ensures MasterOf(files[..i + 1]) == MasterOf(files[..i]) + Contribution(files[i])
    ensures ErrorLogOf(files[..i + 1]) == ErrorLogOf(files[..i]) + LogEntries(files[i])
    ensures Seqs.Count(IsMerged, files[..i + 1]) == Seqs.Count(IsMerged, files[..i]) + (if IsMerged(files[i]) then 1 else 0)
  {
    assert files[..i + 1] == files[..i] + [files[i]];
    MasterStep(files[..i], files[i]);
    LogStep(files[..i], files[i]);
    CountStep(files[..i], files[i]);
  }

  /** The loop over the selected files (app.py lines 68-115). */
  method MergeFiles(files: seq<SourceFile>) returns (master: seq<Record>, successCount: nat, errorLog: seq<string>)
    ensures master == MasterOf(files)
    ensures successCount == Seqs.Count(IsMerged, files)
    ensures errorLog == ErrorLogOf(files)
  {
    master, successCount, errorLog := [], 0, [];
    for i := 0 to |files|
      invariant master == MasterOf(files[..i])
      invariant successCount == Seqs.Count(IsMerged, files[..i])
      invariant errorLog == ErrorLogOf(files[..i])
    {
      var f := files[i];
      var outcome := ProcessFile(f);
      if outcome.Merged? {
        master := master + Records(outcome.table);
        successCount := successCount + 1;
      } else if outcome.Failed? {
        errorLog := errorLog + [f.name + ": " + Message(outcome.error)];
      }
      LoopStep(files, i);
    }
    assert files[..|files|] == files;
  }

  // ---------------------------------------------------------------------------
  // What the loop promises about the batch as a whole
  // ---------------------------------------------------------------------------

  /** Rows with an order number in a file's full read when it has a key column, else 0. */
  function KeyedRowCount(f: SourceFile): nat {
    match Loaded(f)
    case Failure(_) => 0
    case Success(t) =>
      match KeyColumn(t.columns)
      case None => 0
      case Some(k) => Seqs.Count(Keyed(k), t.rows)
  }

  /** Sum of `KeyedRowCount` over the files that merge. */
  function MergedRowTotal(files: seq<SourceFile>): nat {
    if |files| == 0 then 0
    else
      var last := files[|files| - 1];
      MergedRowTotal(files[..|files| - 1]) + (if IsMerged(last) then KeyedRowCount(last) else 0)
  }

  /** The master table holds exactly the order-numbered rows of the files that merged. */
  lemma {:induction false} MasterRowCount(files: seq<SourceFile>)
    ensures |MasterOf(files)| == MergedRowTotal(files)
  {
    if |files| == 0 {
    } else {
      var init, last := files[..|files| - 1], files[|files| - 1];
      assert files == init + [last];
      MasterStep(init, last);
      MasterRowCount(init);
      if IsMerged(last) {
        MergedFileShape(last);
      }
    }
  }

  /** A master record led by the metadata of file `f` and carrying an order number. */
  ghost predicate TaggedBy(r: Record, f: SourceFile) {
    && |r.cells| == |r.columns| >= 2
    && r.columns[0] == DateLabel && r.columns[1] == FurnaceLabel
    && r.cells[0] == Text(WorkDate(f.name)) && r.cells[1] == Text(FurnaceTag(f.name))
    && exists c :: 2 <= c < |r.cells| && Contains(r.columns[c], OrderKeyword) && r.cells[c].Text?
  }

  /** Every record a merged file contributes is tagged by that file. */
  lemma ContributionTagged(f: SourceFile)
    ensures forall j :: 0 <= j < |Contribution(f)| ==> TaggedBy(Contribution(f)[j], f)
  {
    if IsMerged(f) {
      MergedFileShape(f);
      MergedFileRows(f);
      var t := Loaded(f).value;
      var k := KeyColumn(t.columns).value;
      var u := ProcessFile(f).table;
      forall j | 0 <= j < |Contribution(f)|
        ensures TaggedBy(Contribution(f)[j], f)
      {
        var r := Contribution(f)[j];
        assert r.columns == u.columns && r.cells == u.rows[j];
        assert |u.rows[j]| == |u.columns|;
        assert u.columns[2 + k] == t.columns[k];
      }
    }
  }

  /** Every master record has the work date and furnace tag of some input file in front, and an order number. */
  lemma {:induction false} MasterRecordsTagged(files: seq<SourceFile>)
    ensures forall j :: 0 <= j < |MasterOf(files)| ==>
              exists i :: 0 <= i < |files| && TaggedBy(MasterOf(files)[j], files[i])
  {
    if |files| > 0 {
      var init, last := files[..|files| - 1], files[|files| - 1];
      MasterRecordsTagged(init);
      ContributionTagged(last);
      var m := MasterOf(files);
      assert m == MasterOf(init) + Contribution(last);
      forall j | 0 <= j < |m|
        ensures exists i :: 0 <= i < |files| && TaggedBy(m[j], files[i])
      {
        if j < |MasterOf(init)| {
          var i :| 0 <= i < |init| && TaggedBy(MasterOf(init)[j], init[i]);
          assert m[j] == MasterOf(init)[j] && files[i] == init[i];
          assert TaggedBy(m[j], files[i]);
        } else {
          assert m[j] == Contribution(last)[j - |MasterOf(init)|];
          assert TaggedBy(m[j], files[|files| - 1]);
        }
      }
    } else {
      assert MasterOf(files) == [];
    }
  }

  /** The error-log line of a failing file. */
  function LogLine(f: SourceFile): string
    requires IsFailed(f)
  {
    f.name + ": " + Message(ProcessFile(f).error)
  }

  /** The error log holds one line per failing file, in input order, and nothing else. */
  lemma {:induction false} ErrorLogOnePerFailure(files: seq<SourceFile>)
    ensures |ErrorLogOf(files)| == |Seqs.Filter(IsFailed, files)|
    ensures forall j :: 0 <= j < |ErrorLogOf(files)| ==>
              ErrorLogOf(files)[j] == LogLine(Seqs.Filter(IsFailed, files)[j])
  {
    if |files| > 0 {
      var init, last := files[..|files| - 1], files[|files| - 1];
      assert files == init + [last];
      LogStep(init, last);
      Seqs.FilterAppend(IsFailed, init, [last]);
      ErrorLogOnePerFailure(init);
    }
  }

  /** Merged and failed files are disjoint, so the two tallies never exceed the file count. */
  lemma {:induction false} TalliesBounded(files: seq<SourceFile>)
    ensures Seqs.Count(IsMerged, files) + |ErrorLogOf(files)| <= |files|
  {
    if |files| > 0 {
      var init, last := files[..|files| - 1], files[|files| - 1];
      assert files == init + [last];
      LogStep(init, last);
      CountStep(init, last);
      TalliesBounded(init);
    }
  }

  /** The full read of the file succeeded and has a column whose label mentions the order keyword. */
  predicate HasKeyColumn(f: SourceFile) {
    Loaded(f).Success? && KeyColumn(Loaded(f).value.columns).Some?
  }

  /** The full read of the file succeeded and already has one of the two metadata labels. */
  predicate ClashesOnTag(f: SourceFile) {
    Loaded(f).Success? && (DateLabel in Loaded(f).value.columns || FurnaceLabel in Loaded(f).value.columns)
  }

  /** The file has a key column, so it reaches the inserts, but one of the two metadata labels is taken. */
  predicate KeyedButClashing(f: SourceFile) {
    HasKeyColumn(f) && ClashesOnTag(f)
  }

  /**
   * `success_count` counts the files with a key column, less those whose
   * metadata insert raised because the label was already taken. It equals the
   * number of files with a key column exactly when no such file clashes.
   */
  lemma {:induction false} SuccessCountIsKeyedFiles(files: seq<SourceFile>)
    ensures forall i :: 0 <= i < |files| ==> (IsMerged(files[i]) <==> HasKeyColumn(files[i]) && !ClashesOnTag(files[i]))
    ensures Seqs.Count(IsMerged, files) + Seqs.Count(KeyedButClashing, files) == Seqs.Count(HasKeyColumn, files)
    ensures Seqs.Count(IsMerged, files) <= Seqs.Count(HasKeyColumn, files)
    ensures Seqs.Count(IsMerged, files) == Seqs.Count(HasKeyColumn, files) <==>
              forall i :: 0 <= i < |files| ==> !KeyedButClashing(files[i])
  {
    if |files| > 0 {
      SuccessCountIsKeyedFiles(files[1..]);
      assert forall i :: 1 <= i < |files| ==> files[1..][i - 1] == files[i];
    }
    Seqs.CountZero(KeyedButClashing, files);
  }

  /** A batch in which every file raises yields an empty master table and one log line per file. */
  lemma AllFilesFail(files: seq<SourceFile>)
    requires forall i :: 0 <= i < |files| ==> IsFailed(files[i])
    ensures MasterOf(files) == []
    ensures |ErrorLogOf(files)| == |files|
  {
    ErrorLogOnePerFailure(files);
    Seqs.FilterAll(IsFailed, files);
    MasterRowCount(files);
    NoMergedRows(files);
  }

  lemma {:induction false} NoMergedRows(files: seq<SourceFile>)
    requires forall i :: 0 <= i < |files| ==> !IsMerged(files[i])
    ensures MergedRowTotal(files) == 0
  {
    if |files| > 0 {
      NoMergedRows(files[..|files| - 1]);
    }
  }

  // ---------------------------------------------------------------------------
  // The whole run
  // ---------------------------------------------------------------------------

  /** How a run ends, as the message boxes report it. */
  datatype Conclusion =
    | NoInputFiles
    | NothingMerged(fileCount: nat, errorLog: seq<string>)
    | Saved(output: string, master: seq<Record>, successCount: nat, fileCount: nat, errorLog: seq<string>)
    | SaveFailed(output: string, message: string)

  predicate IsInput(f: SourceFile) {
    IsInputFile(f.name)
  }

  /**
   * Filters the scanned files, merges the survivors and saves the master
   * table when it has rows. `writeError` is the outcome of writing the
   * result workbook: `Some(message)` when that write raised.
   */
  method Run(scanned: seq<SourceFile>, writeError: Option<string>) returns (c: Conclusion)
    ensures c.NoInputFiles? <==> forall i :: 0 <= i < |scanned| ==> !IsInputFile(scanned[i].name)
    ensures var valid := Seqs.Filter(IsInput, scanned);
            (c.Saved? || c.SaveFailed?) <==> |valid| > 0 && |MasterOf(valid)| > 0
    ensures var valid := Seqs.Filter(IsInput, scanned);
            c.Saved? ==> && writeError.None?
                         && c.master == MasterOf(valid) && c.errorLog == ErrorLogOf(valid)
                         && c.successCount == Seqs.Count(IsMerged, valid) && c.fileCount == |valid|
    ensures var valid := Seqs.Filter(IsInput, scanned);
            c.NothingMerged? ==> c.errorLog == ErrorLogOf(valid) && c.fileCount == |valid|
    ensures c.SaveFailed? ==> writeError == Some(c.message)
    ensures (c.Saved? || c.SaveFailed?) ==> c.output == ResultFileName && !IsInputFile(c.output)
  {
    var valid := Seqs.Filter(IsInput, scanned);
    if |valid| == 0 {
      return NoInputFiles;
    }
    assert IsInput(valid[0]);
    var master, successCount, errorLog := MergeFiles(valid);
    if |master| == 0 {
      return NothingMerged(|valid|, errorLog);
    }
    ResultFileNeverIngested();
    match writeError
    case None => c := Saved(ResultFileName, master, successCount, |valid|, errorLog);
    case Some(message) => c := SaveFailed(ResultFileName, message);
  }
}
