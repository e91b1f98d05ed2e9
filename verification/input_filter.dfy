/** Which scanned files the merger reads (app.py lines 57-62). */
module InputFilter {
  import opened Strings
  import opened Literals

  /** A basename is read unless it is an editor lock file or a previous merge result. */
  predicate IsInputFile(base: string)
  {
    !StartsWith(base, LockPrefix) && !HasSubstring(base, ResultStem)
  }

  /** The meaning of the test: both exclusions, and nothing else. */
  lemma InputFileExactly(base: string)
    ensures IsInputFile(base) <==> !StartsWith(base, LockPrefix) && !Contains(base, ResultStem)
  {
  }

  /** The file the merger writes is never read back in by a later run. */
  lemma ResultFileNeverIngested()
    ensures !IsInputFile(ResultFileName)
  {
    assert OccursAt(ResultFileName, ResultStem, 0);
  }

  /** Any name carrying the result stem, wherever it sits, is excluded. */
  lemma {:induction false} StemAnywhereExcluded(prefix: string, suffix: string)
    ensures !IsInputFile(prefix + ResultStem + suffix)
  {
    var name := prefix + ResultStem + suffix;
    assert name[|prefix|..|prefix| + |ResultStem|] == ResultStem;
    assert OccursAt(name, ResultStem, |prefix|);
  }
}
