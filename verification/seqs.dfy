/** Order-preserving scans over sequences: first match, filter, concatenation. */
module Seqs {
  import opened Results

  /** Index of the first element satisfying `p`, if any. */
  function FirstIndex<T>(p: T -> bool, s: seq<T>): (r: Option<nat>)
    ensures r.Some? ==> r.value < |s| && p(s[r.value])
    ensures r.Some? ==> forall j :: 0 <= j < r.value ==> !p(s[j])
    ensures r.None? <==> forall j :: 0 <= j < |s| ==> !p(s[j])
  {
    if |s| == 0 then None
    else if p(s[0]) then Some(0)
    else match FirstIndex(p, s[1..])
      case None => None
      case Some(k) => Some(k + 1)
  }

  /** The elements of `s` satisfying `keep`, in their original order. */
  function Filter<T>(keep: T -> bool, s: seq<T>): (r: seq<T>)
    ensures |r| <= |s|
    ensures forall i :: 0 <= i < |r| ==> keep(r[i])
    ensures forall i :: 0 <= i < |r| ==> r[i] in s
    ensures forall i :: 0 <= i < |s| && keep(s[i]) ==> s[i] in r
  {
    if |s| == 0 then []
    else (if keep(s[0]) then [s[0]] else []) + Filter(keep, s[1..])
  }

  /** Number of elements of `s` satisfying `p`. */
  function Count<T>(p: T -> bool, s: seq<T>): nat {
    if |s| == 0 then 0 else (if p(s[0]) then 1 else 0) + Count(p, s[1..])
  }

  /** Filtering distributes over concatenation: order is preserved across the seam. */
  lemma {:induction false} FilterAppend<T>(keep: T -> bool, a: seq<T>, b: seq<T>)
    ensures Filter(keep, a + b) == Filter(keep, a) + Filter(keep, b)
  {
    if |a| == 0 {
      assert a + b == b;
    } else {
      assert (a + b)[1..] == a[1..] + b;
      FilterAppend(keep, a[1..], b);
    }
  }

  /** Filtering keeps exactly as many elements as satisfy the predicate. */
  lemma {:induction false} FilterCount<T>(keep: T -> bool, s: seq<T>)
    ensures |Filter(keep, s)| == Count(keep, s)
  {
    if |s| > 0 {
      FilterCount(keep, s[1..]);
    }
  }

  lemma {:induction false} CountAppend<T>(p: T -> bool, a: seq<T>, b: seq<T>)
    ensures Count(p, a + b) == Count(p, a) + Count(p, b)
  {
    if |a| == 0 {
      assert a + b == b;
    } else {
      assert (a + b)[1..] == a[1..] + b;
      CountAppend(p, a[1..], b);
    }
  }

  /** Nothing is counted exactly when no element satisfies the predicate. */
  lemma {:induction false} CountZero<T>(p: T -> bool, s: seq<T>)
    ensures Count(p, s) == 0 <==> forall i :: 0 <= i < |s| ==> !p(s[i])
  {
    if |s| > 0 {
      CountZero(p, s[1..]);
      assert forall i :: 1 <= i < |s| ==> s[1..][i - 1] == s[i];
    }
  }

  /** A filter that rejects nothing is the identity. */
  lemma {:induction false} FilterAll<T>(keep: T -> bool, s: seq<T>)
    requires forall i :: 0 <= i < |s| ==> keep(s[i])
    ensures Filter(keep, s) == s
  {
    if |s| > 0 {
      FilterAll(keep, s[1..]);
    }
  }

  /** The positions, from `from` on, whose elements satisfy `keep`, in increasing order. */
  function KeptIndices<T>(keep: T -> bool, s: seq<T>, from: nat): seq<nat>
    requires from <= |s|
    decreases |s| - from
  {
    if from == |s| then [] else (if keep(s[from]) then [from] else []) + KeptIndices(keep, s, from + 1)
  }

  /** The kept positions lie in the suffix, hold kept elements and rise strictly. */
  lemma {:induction false} KeptIndicesAscend<T>(keep: T -> bool, s: seq<T>, from: nat)
    requires from <= |s|
    ensures forall j :: 0 <= j < |KeptIndices(keep, s, from)| ==>
              from <= KeptIndices(keep, s, from)[j] < |s| && keep(s[KeptIndices(keep, s, from)[j]])
    ensures forall j :: 0 < j < |KeptIndices(keep, s, from)| ==>
              KeptIndices(keep, s, from)[j - 1] < KeptIndices(keep, s, from)[j]
    decreases |s| - from
  {
    if from < |s| {
      KeptIndicesAscend(keep, s, from + 1);
      var rest := KeptIndices(keep, s, from + 1);
      assert forall j :: 0 <= j < |rest| ==> from < rest[j] < |s| && keep(s[rest[j]]);
      if keep(s[from]) {
        var idx := [from] + rest;
        assert KeptIndices(keep, s, from) == idx;
        forall j | 0 <= j < |idx|
          ensures from <= idx[j] < |s| && keep(s[idx[j]])
        {
          if j > 0 {
            assert idx[j] == rest[j - 1];
          }
        }
        forall j | 0 < j < |idx|
          ensures idx[j - 1] < idx[j]
        {
          assert idx[j] == rest[j - 1];
          if j > 1 {
            assert idx[j - 1] == rest[j - 2];
          }
        }
      } else {
        assert KeptIndices(keep, s, from) == rest;
      }
    } else {
      assert KeptIndices(keep, s, from) == [];
    }
  }

  /** Every position from `from` on whose element is kept is listed. */
  lemma {:induction false} KeptIndicesComplete<T>(keep: T -> bool, s: seq<T>, from: nat)
    requires from <= |s|
    ensures forall i :: from <= i < |s| && keep(s[i]) ==> i in KeptIndices(keep, s, from)
    decreases |s| - from
  {
    if from < |s| {
      KeptIndicesComplete(keep, s, from + 1);
    }
  }

  /** The filter of a suffix keeps one element per kept position. */
  lemma {:induction false} KeptIndicesCount<T>(keep: T -> bool, s: seq<T>, from: nat)
    requires from <= |s|
    ensures |KeptIndices(keep, s, from)| == |Filter(keep, s[from..])|
    decreases |s| - from
  {
    if from < |s| {
      KeptIndicesCount(keep, s, from + 1);
      assert s[from..][1..] == s[from + 1..];
      assert s[from..][0] == s[from];
    }
  }

  /** The filter of a suffix is the suffix read at the kept positions. */
  lemma {:induction false} FilterByIndices<T>(keep: T -> bool, s: seq<T>, from: nat)
    requires from <= |s|
    ensures |KeptIndices(keep, s, from)| == |Filter(keep, s[from..])|
    ensures forall j :: 0 <= j < |KeptIndices(keep, s, from)| ==>
              KeptIndices(keep, s, from)[j] < |s| && Filter(keep, s[from..])[j] == s[KeptIndices(keep, s, from)[j]]
    decreases |s| - from
  {
    KeptIndicesCount(keep, s, from);
    if from < |s| {
      FilterByIndices(keep, s, from + 1);
      KeptIndicesAscend(keep, s, from + 1);
      assert s[from..][1..] == s[from + 1..];
      assert s[from..][0] == s[from];
      var rest := KeptIndices(keep, s, from + 1);
      var r := Filter(keep, s[from + 1..]);
      if keep(s[from]) {
        assert KeptIndices(keep, s, from) == [from] + rest;
        assert Filter(keep, s[from..]) == [s[from]] + r;
      } else {
        assert KeptIndices(keep, s, from) == rest;
        assert Filter(keep, s[from..]) == r;
      }
    }
  }
}
