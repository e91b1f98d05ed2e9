/**
 * The full read of one file as a labelled table, and the three table steps the
 * merger applies to it: choosing the order-number column, dropping rows
 * without an order number, and putting the filename metadata in front
 * (app.py lines 97-107).
 */
module Tables {
  import opened Results
  import opened Strings
  import opened Literals
  import Seqs

  /** A cell of the read table: missing (NaN / None) or a value, rendered as text. */
  datatype Cell = Null | Text(text: string)

  type Row = seq<Cell>

  datatype Frame = Frame(columns: seq<string>, rows: seq<Row>)

  /** Every row has one cell per column. */
  ghost predicate Rectangular(t: Frame) {
    forall i :: 0 <= i < |t.rows| ==> |t.rows[i]| == |t.columns|
  }

  /** No label appears twice (the readers rename repeated header labels). */
  ghost predicate DistinctLabels(columns: seq<string>) {
    forall i, j :: 0 <= i < j < |columns| ==> columns[i] != columns[j]
  }

  /** A table as the spreadsheet readers deliver it. */
  type Table = t: Frame | Rectangular(t) && DistinctLabels(t.columns) witness Frame([], [])

  /** Why a file could not be merged: the reader raised, or a metadata label was already taken. */
  datatype FileError = ReadError(message: string) | AlreadyExists(column: string)

  /** The text `str(e)` gives for the error. */
  function Message(e: FileError): string {
    match e
    case ReadError(m) => m
    case AlreadyExists(column) => "cannot insert " + column + ", already exists"
  }

  /** The label of an order-number column mentions the order keyword. */
  predicate IsKeyLabel(name: string) {
    HasSubstring(name, OrderKeyword)
  }

  /** The key column: the first column whose label mentions the order keyword. */
  function KeyColumn(columns: seq<string>): (k: Option<nat>)
    ensures k.Some? ==> k.value < |columns| && Contains(columns[k.value], OrderKeyword)
    ensures k.Some? ==> forall j :: 0 <= j < k.value ==> !Contains(columns[j], OrderKeyword)
    ensures k.None? <==> forall j :: 0 <= j < |columns| ==> !Contains(columns[j], OrderKeyword)
  {
    Seqs.FirstIndex(IsKeyLabel, columns)
  }

  /** The row has a value (not a missing cell) in column `k`. */
  predicate HasKey(k: nat, row: Row) {
    k < |row| && row[k].Text?
  }

  /** `HasKey` at column `k`, as a test on rows: the mask `df[key].notna()`. */
  function Keyed(k: nat): Row -> bool {
    (row: Row) => HasKey(k, row)
  }

  /** `df[df[key].notna()]`: the rows with a value in the key column, in their original order. */
  function SelectKeyed(t: Table, k: nat): (u: Table)
    requires k < |t.columns|
    ensures u.columns == t.columns
    ensures |u.rows| == Seqs.Count(Keyed(k), t.rows) <= |t.rows|
    ensures forall i :: 0 <= i < |u.rows| ==> u.rows[i][k].Text? && u.rows[i] in t.rows
    ensures forall i :: 0 <= i < |t.rows| && t.rows[i][k].Text? ==> t.rows[i] in u.rows
  {
    Seqs.FilterCount(Keyed(k), t.rows);
    Frame(t.columns, Seqs.Filter(Keyed(k), t.rows))
  }

  /** Selection keeps the row order: selecting from two stacked tables stacks the selections. */
  lemma SelectKeyedAppend(t: Table, a: seq<Row>, b: seq<Row>, k: nat)
    requires k < |t.columns| && t.rows == a + b
    ensures SelectKeyed(t, k).rows
              == Seqs.Filter(Keyed(k), a) + Seqs.Filter(Keyed(k), b)
  {
    Seqs.FilterAppend(Keyed(k), a, b);
  }

  /**
   * Selection keeps exactly the keyed rows, in their original order: the
   * result is the table read at the keyed row positions, which rise strictly,
   * and every keyed position is among them.
   */
  lemma SelectKeyedInOrder(t: Table, k: nat)
    requires k < |t.columns|
    ensures var idx := Seqs.KeptIndices(Keyed(k), t.rows, 0);
            && |SelectKeyed(t, k).rows| == |idx|
            && (forall j :: 0 <= j < |idx| ==> idx[j] < |t.rows| && SelectKeyed(t, k).rows[j] == t.rows[idx[j]])
            && (forall j :: 0 <= j < |idx| ==> t.rows[idx[j]][k].Text?)
            && (forall j :: 0 < j < |idx| ==> idx[j - 1] < idx[j])
            && (forall i :: 0 <= i < |t.rows| && t.rows[i][k].Text? ==> i in idx)
  {
    var keep := Keyed(k);
    assert t.rows[0..] == t.rows;
    Seqs.KeptIndicesAscend(keep, t.rows, 0);
    Seqs.KeptIndicesComplete(keep, t.rows, 0);
    Seqs.FilterByIndices(keep, t.rows, 0);
  }

  /** `df.insert(0, name, value)`: a new first column holding `value` in every row; raises if `name` is taken. */
  function Insert(t: Table, name: string, value: string): (r: Result<Table, FileError>)
    ensures r.Failure? <==> name in t.columns
  {
    if name in t.columns then Failure(AlreadyExists(name))
    else
      var u := Frame([name] + t.columns, seq(|t.rows|, i requires 0 <= i < |t.rows| => [Text(value)] + t.rows[i]));
      Success(u)
  }

  /**
   * Puts the filename metadata in front: the furnace tag is inserted at 0
   * first and the work date at 0 after it, so the date ends up in column 0
   * and the furnace tag in column 1, with the original columns following in
   * order. The first insert that finds its label taken raises.
   */
  function Tag(t: Table, date: string, furnace: string): (r: Result<Table, FileError>)
    ensures r.Failure? <==> FurnaceLabel in t.columns || DateLabel in t.columns
    ensures r.Failure? ==> r.error == AlreadyExists(if FurnaceLabel in t.columns then FurnaceLabel else DateLabel)
    ensures r.Success? ==> |r.value.columns| == |t.columns| + 2
    ensures r.Success? ==> r.value.columns[0] == DateLabel && r.value.columns[1] == FurnaceLabel
    ensures r.Success? ==> r.value.columns[2..] == t.columns
    ensures r.Success? ==> |r.value.rows| == |t.rows|
    ensures r.Success? ==> forall i :: 0 <= i < |t.rows| ==>
              && r.value.rows[i][0] == Text(date)
              && r.value.rows[i][1] == Text(furnace)
              && r.value.rows[i][2..] == t.rows[i]
  {
    match Insert(t, FurnaceLabel, furnace)
    case Failure(e) => Failure(e)
    case Success(withFurnace) => Insert(withFurnace, DateLabel, date)
  }
}
