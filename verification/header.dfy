/** Locating the header row of a work-order sheet (app.py lines 15-35). */
module Header {
  import opened Results
  import opened Strings
  import opened Literals
  import Seqs

  /** The probe reads at most this many leading rows (`nrows=15`). */
  const ProbeRows: nat := 15

  /** A row, its cells already rendered as text (`row.astype(str)`). */
  type TextRow = seq<string>

  /** Some cell of the row mentions the order keyword. */
  predicate MentionsOrder(row: TextRow) {
    exists c :: 0 <= c < |row| && HasSubstring(row[c], OrderKeyword)
  }

  /** The rows the probe sees: the first `ProbeRows` of the sheet. */
  function Window(rows: seq<TextRow>): (w: seq<TextRow>)
    ensures |w| <= ProbeRows && |w| <= |rows|
    ensures |rows| <= ProbeRows ==> w == rows
    ensures |rows| > ProbeRows ==> |w| == ProbeRows
    ensures forall i :: 0 <= i < |w| ==> w[i] == rows[i]
  {
    if |rows| <= ProbeRows then rows else rows[..ProbeRows]
  }

  /**
   * The header row index: the first probed row with a cell containing the
   * order keyword; 0 when no probed row has one or when the probe read
   * failed (`probe` is `None`), the failure being swallowed.
   */
  function FindHeaderRow(probe: Option<seq<TextRow>>): (h: nat)
    ensures h < ProbeRows
    ensures probe.None? ==> h == 0
    ensures probe.Some? && (exists i :: 0 <= i < |Window(probe.value)| && MentionsOrder(probe.value[i])) ==>
              h < |probe.value| && MentionsOrder(probe.value[h])
              && forall j :: 0 <= j < h ==> !MentionsOrder(probe.value[j])
    ensures probe.Some? && (forall i :: 0 <= i < |Window(probe.value)| ==> !MentionsOrder(probe.value[i])) ==>
              h == 0
  {
    match probe
    case None => 0
    case Some(rows) =>
      match Seqs.FirstIndex(MentionsOrder, Window(rows))
      case Some(i) => i
      case None => 0
  }

  /** The cells mentioning the keyword are exactly those containing it as a substring. */
  lemma MentionsOrderMeaning(row: TextRow)
    ensures MentionsOrder(row) <==> exists c :: 0 <= c < |row| && Contains(row[c], OrderKeyword)
  {
  }

  /** Rows past the probe window never influence the header index. */
  lemma {:induction false} LaterRowsIgnored(rows: seq<TextRow>, more: seq<TextRow>)
    requires |rows| >= ProbeRows
    ensures FindHeaderRow(Some(rows + more)) == FindHeaderRow(Some(rows))
  {
    assert Window(rows + more) == Window(rows);
  }
}
