/**
 * Work date and furnace tag read off a file's basename (app.py lines 80-86).
 * Both regular expressions are written out as left-to-right scans; next to each
 * scan stands a declarative description of what the regex engine's leftmost
 * match is, and the scan's contract ties the two together.
 */
module Metadata {
  import opened Results
  import opened Strings
  import opened Literals

  // ---------------------------------------------------------------------------
  // Work date: re.search(r"(\d{1,2}-\d{1,2})", name)
  // ---------------------------------------------------------------------------

  /** `s[i..i+n]` splits as `k` digits, a hyphen, then one or two digits, with `k` one or two. */
  ghost predicate DateSplit(s: string, i: int, k: int, n: int) {
    && 0 <= i && 1 <= k <= 2 && k + 2 <= n <= k + 3 && i + n <= |s|
    && s[i + k] == '-'
    && (forall j :: i <= j < i + k ==> IsDigit(s[j]))
    && (forall j :: i + k < j < i + n ==> IsDigit(s[j]))
  }

  /** Some match of the date pattern occupies `s[i..i+n]`. */
  ghost predicate DateAt(s: string, i: int, n: int) {
    exists k :: DateSplit(s, i, k, n)
  }

  /** The match the greedy pattern picks at `i`: no longer match starts there. */
  ghost predicate LongestDateAt(s: string, i: int, n: int) {
    DateAt(s, i, n) && forall m :: n < m ==> !DateAt(s, i, m)
  }

  /** The match `re.search` returns: the longest at the leftmost position where any match starts. */
  ghost predicate FirstDateAt(s: string, i: int, n: int) {
    LongestDateAt(s, i, n) && forall j, m :: 0 <= j < i ==> !DateAt(s, j, m)
  }

  /** A whole string shaped like a work date: 1-2 digits, `-`, 1-2 digits. */
  ghost predicate IsDateShape(t: string) {
    exists k :: DateSplit(t, 0, k, |t|)
  }

  /** Number of digits, at most two, that a greedy `\d{1,2}` consumes at `i`. */
  function DigitRun(s: string, i: nat): (n: nat)
    ensures n <= 2 && (n > 0 ==> i + n <= |s|)
  {
    if i < |s| && IsDigit(s[i]) then
      (if i + 1 < |s| && IsDigit(s[i + 1]) then 2 else 1)
    else 0
  }

  /** The run is made of digits and stops short of two only at a non-digit or the end. */
  lemma DigitRunIsGreedy(s: string, i: nat)
    ensures forall j :: i <= j < i + DigitRun(s, i) ==> IsDigit(s[j])
    ensures DigitRun(s, i) < 2 ==> i + DigitRun(s, i) >= |s| || !IsDigit(s[i + DigitRun(s, i)])
  {
  }

  /**
   * Every date match at `i` is carved out by the greedy digit runs: its first
   * part is exactly the run at `i` (backtracking to one digit never helps, as
   * the hyphen cannot be a digit) and its second part is a prefix of the run
   * after the hyphen.
   */
  lemma DateSplitFollowsRuns(s: string, i: nat)
    ensures forall k, m :: DateSplit(s, i, k, m) ==>
              && k == DigitRun(s, i) && i + k < |s| && s[i + k] == '-'
              && 1 <= m - k - 1 <= DigitRun(s, i + k + 1)
  {
    DigitRunIsGreedy(s, i);
    forall k, m | DateSplit(s, i, k, m)
      ensures k == DigitRun(s, i) && 1 <= m - k - 1 <= DigitRun(s, i + k + 1)
    {
      assert IsDigit(s[i]);
      assert IsDigit(s[i + k + 1]);
      if m - k - 1 == 2 {
        assert IsDigit(s[i + k + 2]);
      }
    }
  }

  /** Length of the match the date pattern makes at `i`, 0 when it fails there. */
  function DateMatchAt(s: string, i: nat): (n: nat)
    ensures n > 0 ==> i + n <= |s|
  {
    var a := DigitRun(s, i);
    if a == 0 || i + a >= |s| || s[i + a] != '-' then 0
    else
      var b := DigitRun(s, i + a + 1);
      if b == 0 then 0 else a + 1 + b
  }

  /** The scan at `i` finds the match the greedy pattern makes there, and fails only when there is none. */
  lemma DateMatchAtIsLongest(s: string, i: nat)
    ensures DateMatchAt(s, i) > 0 ==> LongestDateAt(s, i, DateMatchAt(s, i))
    ensures DateMatchAt(s, i) == 0 ==> forall m :: !DateAt(s, i, m)
  {
    DateSplitFollowsRuns(s, i);
    var a := DigitRun(s, i);
    DigitRunIsGreedy(s, i);
    if DateMatchAt(s, i) > 0 {
      DigitRunIsGreedy(s, i + a + 1);
      assert DateSplit(s, i, a, DateMatchAt(s, i));
    }
  }

  /** The leftmost position at or after `i` where the date pattern matches, with its length. */
  function FindDateFrom(s: string, i: nat): (r: Option<(nat, nat)>)
    ensures r.Some? ==> i <= r.value.0 && r.value.0 + r.value.1 <= |s|
    decreases |s| - i
  {
    if i >= |s| then None
    else
      var n := DateMatchAt(s, i);
      if n > 0 then Some((i, n)) else FindDateFrom(s, i + 1)
  }

  /** The search reports the leftmost match and its greedy length, and reports none only when there is none. */
  lemma {:induction false} FindDateFromIsLeftmost(s: string, i: nat)
    ensures FindDateFrom(s, i).None? ==> forall j, m :: i <= j ==> !DateAt(s, j, m)
    ensures FindDateFrom(s, i).Some? ==>
              var (j, n) := FindDateFrom(s, i).value;
              LongestDateAt(s, j, n) && forall j', m :: i <= j' < j ==> !DateAt(s, j', m)
    decreases |s| - i
  {
    if i >= |s| {
      assert forall j, m, k :: i <= j ==> !DateSplit(s, j, k, m);
    } else {
      DateMatchAtIsLongest(s, i);
      if DateMatchAt(s, i) == 0 {
        FindDateFromIsLeftmost(s, i + 1);
      }
    }
  }

  /** The work date of a file: the first `d-d` match in its basename, or `UnknownDate`. */
  function WorkDate(name: string): string {
    match FindDateFrom(name, 0)
    case None => UnknownDate
    case Some((i, n)) => name[i..i + n]
  }

  /**
   * The work date is the sentinel exactly when the basename holds no date;
   * otherwise it is date-shaped and is the leftmost, longest match.
   */
  lemma WorkDateIsFirstMatch(name: string)
    ensures WorkDate(name) == UnknownDate <==> forall i, n :: !DateAt(name, i, n)
    ensures WorkDate(name) != UnknownDate ==> IsDateShape(WorkDate(name))
    ensures WorkDate(name) != UnknownDate ==>
              exists i, n :: FirstDateAt(name, i, n) && WorkDate(name) == name[i..i + n]
  {
    FindDateFromIsLeftmost(name, 0);
    SentinelShapes();
    match FindDateFrom(name, 0)
    case None =>
    case Some((i, n)) =>
      var d := name[i..i + n];
      assert FirstDateAt(name, i, n);
      var k :| DateSplit(name, i, k, n);
      assert DateSplit(d, 0, k, |d|);
      assert IsDigit(d[0]);
      assert WorkDate(name) == d;
  }

  /** Neither sentinel can be mistaken for a match: the date sentinel does not start with a digit, the furnace sentinel has no line break. */
  lemma SentinelShapes()
    ensures |UnknownDate| > 0 && !IsDigit(UnknownDate[0])
    ensures |UnknownFurnace| > 0 && '\n' !in UnknownFurnace
  {
  }

  // ---------------------------------------------------------------------------
  // Furnace tag: re.search(r"\((.+?)\)", name)
  // ---------------------------------------------------------------------------

  /**
   * A match of the furnace pattern: `(` at `i`, `)` at `j`, at least one
   * character between them and no line break among them (`.` skips `\n`).
   */
  ghost predicate GroupAt(s: string, i: int, j: int) {
    && 0 <= i && i + 2 <= j < |s|
    && s[i] == '(' && s[j] == ')'
    && forall k :: i < k < j ==> s[k] != '\n'
  }

  /** The match the lazy pattern picks at `i`: the nearest closing parenthesis. */
  ghost predicate NearestGroupAt(s: string, i: int, j: int) {
    GroupAt(s, i, j) && forall j' :: j' < j ==> !GroupAt(s, i, j')
  }

  /** The match `re.search` returns: the nearest close after the leftmost `(` that has one. */
  ghost predicate FirstGroupAt(s: string, i: int, j: int) {
    NearestGroupAt(s, i, j) && forall i', j' :: 0 <= i' < i ==> !GroupAt(s, i', j')
  }

  /** Scans for the `)` that closes a group opened at `i`, from position `j` on. */
  function CloseFrom(s: string, i: nat, j: nat): (r: Option<nat>)
    requires i < |s| && s[i] == '(' && i + 2 <= j <= |s|
    ensures r.Some? ==> j <= r.value < |s|
    decreases |s| - j
  {
    if j >= |s| then None
    else if s[j] == ')' then Some(j)
    else if s[j] == '\n' then None
    else CloseFrom(s, i, j + 1)
  }

  /** Started past the characters already checked, the scan finds the nearest close or proves there is none. */
  lemma {:induction false} CloseFromIsNearest(s: string, i: nat, j: nat)
    requires i < |s| && s[i] == '(' && i + 2 <= j <= |s|
    requires forall k :: i < k < j ==> s[k] != '\n'
    requires forall k :: i + 2 <= k < j ==> s[k] != ')'
    ensures CloseFrom(s, i, j).Some? ==> NearestGroupAt(s, i, CloseFrom(s, i, j).value)
    ensures CloseFrom(s, i, j).None? ==> forall j' :: !GroupAt(s, i, j')
    decreases |s| - j
  {
    if j < |s| && s[j] != ')' && s[j] != '\n' {
      CloseFromIsNearest(s, i, j + 1);
    }
  }

  /** The group the pattern matches when it starts at `i`, as the index of its `)`. */
  function GroupMatchAt(s: string, i: nat): (r: Option<nat>)
    ensures r.Some? ==> i + 2 <= r.value < |s|
  {
    if i + 1 < |s| && s[i] == '(' && s[i + 1] != '\n' then CloseFrom(s, i, i + 2)
    else None
  }

  lemma GroupMatchAtIsNearest(s: string, i: nat)
    ensures GroupMatchAt(s, i).Some? ==> NearestGroupAt(s, i, GroupMatchAt(s, i).value)
    ensures GroupMatchAt(s, i).None? ==> forall j :: !GroupAt(s, i, j)
  {
    if i + 1 < |s| && s[i] == '(' && s[i + 1] != '\n' {
      CloseFromIsNearest(s, i, i + 2);
    }
  }

  /** The leftmost position at or after `i` where the furnace pattern matches, with its `)`. */
  function FindGroupFrom(s: string, i: nat): (r: Option<(nat, nat)>)
    ensures r.Some? ==> i <= r.value.0 && r.value.0 + 2 <= r.value.1 < |s|
    decreases |s| - i
  {
    if i >= |s| then None
    else match GroupMatchAt(s, i)
      case Some(j) => Some((i, j))
      case None => FindGroupFrom(s, i + 1)
  }

  /** The search reports the leftmost group with its nearest close, and reports none only when there is none. */
  lemma {:induction false} FindGroupFromIsLeftmost(s: string, i: nat)
    ensures FindGroupFrom(s, i).None? ==> forall i', j :: i <= i' ==> !GroupAt(s, i', j)
    ensures FindGroupFrom(s, i).Some? ==>
              var (i0, j0) := FindGroupFrom(s, i).value;
              NearestGroupAt(s, i0, j0) && forall i', j :: i <= i' < i0 ==> !GroupAt(s, i', j)
    decreases |s| - i
  {
    if i < |s| {
      GroupMatchAtIsNearest(s, i);
      if GroupMatchAt(s, i).None? {
        FindGroupFromIsLeftmost(s, i + 1);
      }
    }
  }

  /** The furnace tag of a file: the text of the first `(…)` group in its basename, or `UnknownFurnace`. */
  function FurnaceTag(name: string): string {
    match FindGroupFrom(name, 0)
    case None => UnknownFurnace
    case Some((i, j)) => name[i + 1..j]
  }

  /**
   * The furnace tag is the sentinel when the basename has no group; otherwise
   * it is the text inside the leftmost group, up to its nearest `)`. Either
   * way it is non-empty and free of line breaks.
   */
  lemma FurnaceTagIsFirstGroup(name: string)
    ensures (forall i, j :: !GroupAt(name, i, j)) ==> FurnaceTag(name) == UnknownFurnace
    ensures (exists i, j :: GroupAt(name, i, j)) ==>
              exists i, j :: FirstGroupAt(name, i, j) && FurnaceTag(name) == name[i + 1..j]
    ensures |FurnaceTag(name)| > 0 && '\n' !in FurnaceTag(name)
  {
    FindGroupFromIsLeftmost(name, 0);
    SentinelShapes();
    match FindGroupFrom(name, 0)
    case None =>
    case Some((i, j)) =>
      var t := name[i + 1..j];
      assert FurnaceTag(name) == t;
      assert FirstGroupAt(name, i, j);
      assert forall k :: 0 <= k < |t| ==> t[k] == name[i + 1 + k];
  }

  // ---------------------------------------------------------------------------
  // Scanning facts used to evaluate the searches on concrete names
  // ---------------------------------------------------------------------------

  /** A date match never starts at a non-digit, so the search steps over such a stretch. */
  lemma {:induction false} DateSearchSkips(s: string, i: nat, j: nat)
    requires i <= j <= |s|
    requires forall k :: i <= k < j ==> !IsDigit(s[k])
    ensures FindDateFrom(s, i) == FindDateFrom(s, j)
    decreases j - i
  {
    if i < j {
      DateSearchSkips(s, i + 1, j);
    }
  }

  /** A group never starts anywhere but at `(`, so the search steps over a stretch without one. */
  lemma {:induction false} GroupSearchSkips(s: string, i: nat, j: nat)
    requires i <= j <= |s|
    requires forall k :: i <= k < j ==> s[k] != '('
    ensures FindGroupFrom(s, i) == FindGroupFrom(s, j)
    decreases j - i
  {
    if i < j {
      GroupSearchSkips(s, i + 1, j);
    }
  }

  /** The work date is the text of the span the leftmost search reports. */
  lemma WorkDateOfSpan(name: string, i: nat, n: nat, d: string)
    requires FindDateFrom(name, 0) == Some((i, n))
    requires name[i..i + n] == d
    ensures WorkDate(name) == d
  {
  }

  /** The furnace tag is the text inside the group the leftmost search reports. */
  lemma FurnaceTagOfGroup(name: string, i: nat, j: nat, t: string)
    requires FindGroupFrom(name, 0) == Some((i, j))
    requires name[i + 1..j] == t
    ensures FurnaceTag(name) == t
  {
  }
}
