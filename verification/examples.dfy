/** The worked example in app.py's comment on the filename metadata (line 81). */
module Examples {
  import opened Results
  import opened Strings
  import opened Metadata

  /** The basename quoted in the comment: work date `11-03`, furnace `1`. */
  const CommentExample: string := "11월 작업... - 11-03(1).csv"

  /** `11월` starts with digits, but `11` is followed by `월`, not a hyphen, so no match starts there. */
  lemma CommentExampleLeadingDigits()
    ensures FindDateFrom(CommentExample, 0) == FindDateFrom(CommentExample, 2)
  {
    assert DateMatchAt(CommentExample, 0) == 0;
    assert DateMatchAt(CommentExample, 1) == 0;
  }

  /** The first date-shaped span is at position 12. */
  lemma CommentExampleDateAt12()
    ensures FindDateFrom(CommentExample, 12) == Some((12, 5))
  {
    assert DigitRun(CommentExample, 12) == 2;
    assert CommentExample[14] == '-';
    assert DigitRun(CommentExample, 15) == 2;
    assert DateMatchAt(CommentExample, 12) == 5;
  }

  /** The characters at 12-16 spell the date. */
  lemma CommentExampleDateText()
    ensures CommentExample[12..17] == "11-03"
  {
  }

  /** ` 작업... - ` holds no digit, so the search crosses it unchanged. */
  lemma CommentExampleMiddle()
    ensures FindDateFrom(CommentExample, 2) == FindDateFrom(CommentExample, 12)
  {
    assert forall k :: 2 <= k < 12 ==> !IsDigit(CommentExample[k]);
    DateSearchSkips(CommentExample, 2, 12);
  }

  lemma CommentExampleDateSpan()
    ensures FindDateFrom(CommentExample, 0) == Some((12, 5))
  {
    CommentExampleLeadingDigits();
    CommentExampleMiddle();
    CommentExampleDateAt12();
  }

  lemma CommentExampleDate()
    ensures WorkDate(CommentExample) == "11-03"
  {
    CommentExampleDateSpan();
    CommentExampleDateText();
    WorkDateOfSpan(CommentExample, 12, 5, "11-03");
  }

  /** No `(` occurs before position 17. */
  lemma CommentExampleBeforeGroup()
    ensures FindGroupFrom(CommentExample, 0) == FindGroupFrom(CommentExample, 17)
  {
    assert forall k :: 0 <= k < 17 ==> CommentExample[k] != '(';
    GroupSearchSkips(CommentExample, 0, 17);
  }

  /** The first `(` is at position 17 and the nearest `)` at 19. */
  lemma CommentExampleGroup()
    ensures FindGroupFrom(CommentExample, 0) == Some((17, 19))
  {
    CommentExampleBeforeGroup();
    assert FindGroupFrom(CommentExample, 17) == Some((17, 19));
  }

  lemma CommentExampleFurnace()
    ensures FurnaceTag(CommentExample) == "1"
  {
    CommentExampleGroup();
    assert CommentExample[18..19] == "1";
    FurnaceTagOfGroup(CommentExample, 17, 19, "1");
  }
}
