/**
 * Where a generator inserts into a list of siblings: the rule that
 * setInsertIndex applies, in two identical copies, to the statements of a
 * block and to the members of a class.
 */
module SiblingIndex {
  import opened Maybe
  import opened SyntaxTrees

  /** The caret lies strictly between sibling j-1 and sibling j. */
  predicate GapAt(starts: seq<int>, caret: int, j: int)
    requires 1 <= j < |starts|
  {
    starts[j - 1] < caret < starts[j]
  }

  /** The first gap at an index in [i, |starts| - 2] holding the caret, as the default branch scans them. */
  function FirstGap(starts: seq<int>, caret: int, i: nat): (r: Option<nat>)
    requires 1 <= i
    decreases |starts| - i
    ensures r.Some? ==> i <= r.value < |starts| - 1 && GapAt(starts, caret, r.value)
    ensures r.Some? ==> forall j :: i <= j < r.value ==> !GapAt(starts, caret, j)
    ensures r.None? ==> forall j :: i <= j < |starts| - 1 ==> !GapAt(starts, caret, j)
  {
    if i >= |starts| - 1 then None
    else if GapAt(starts, caret, i) then Some(i)
    else FirstGap(starts, caret, i + 1)
  }

  /**
   * The index setInsertIndex stores for siblings (the statements of a block,
   * or the members of a class) that start at `starts`; `current` is the
   * stored index, which an empty list of siblings leaves as is.
   */
  function SiblingInsertIndex(starts: seq<int>, caret: int, current: int): (r: int)
    ensures |starts| == 0 ==> r == current
    ensures |starts| > 0 ==> 0 <= r <= |starts|
  {
    var size := |starts|;
    if size == 0 then current
    else if size == 1 then (if caret < starts[0] then 0 else 1)
    else if size == 2 then (if caret < starts[0] then 0 else if starts[1] < caret then size else 1)
    else match FirstGap(starts, caret, 1)
      case Some(i) => i
      case None => if starts[size - 1] < caret then size else size - 1
  }

  lemma {:induction false} GapExists(starts: seq<int>, caret: int, lo: nat, hi: nat)
    requires StrictlyAscending(starts) && caret !in starts
    requires lo < hi < |starts| && starts[lo] < caret < starts[hi]
    ensures exists j :: lo < j <= hi && GapAt(starts, caret, j)
    decreases hi - lo
  {
    if hi > lo + 1 {
      if starts[lo + 1] < caret {
        GapExists(starts, caret, lo + 1, hi);
      } else {
        assert starts[lo + 1] != caret;
        assert GapAt(starts, caret, lo + 1);
      }
    } else {
      assert GapAt(starts, caret, hi);
    }
  }

  /**
   * For siblings in source order and a caret outside every start offset,
   * the index separates the siblings that start before the caret from
   * those that start after it -- except when the caret precedes the first of
   * three or more siblings (see CaretBeforeFirstSibling).
   */
  lemma {:induction false} IndexSplitsSiblings(starts: seq<int>, caret: int, current: int)
    requires StrictlyAscending(starts) && caret !in starts
    requires !(|starts| >= 3 && caret < starts[0])
    ensures var r := SiblingInsertIndex(starts, caret, current);
      (|starts| > 0 ==> 0 <= r <= |starts|)
      && (forall j :: 0 <= j < r && j < |starts| ==> starts[j] < caret)
      && (forall j :: 0 <= j < |starts| && r <= j ==> caret < starts[j])
  {
    var n := |starts|;
    if n >= 3 {
      var g := FirstGap(starts, caret, 1);
      if g.None? && !(starts[n - 1] < caret) {
        assert caret < starts[n - 1];
        if caret < starts[n - 2] {
          GapExists(starts, caret, 0, n - 2);
          assert false;
        }
      }
    }
  }

  /** With three or more siblings, a caret before the first one yields the next-to-last index. */
  lemma {:induction false} CaretBeforeFirstSibling(starts: seq<int>, caret: int, current: int)
    requires |starts| >= 3 && StrictlyAscending(starts) && caret < starts[0]
    ensures SiblingInsertIndex(starts, caret, current) == |starts| - 1
  {
    assert caret < starts[|starts| - 1];
  }

  /**
   * A caret on the first character of a sibling: one or two siblings give
   * index 1, and three or more fall through the scan to `n - 1`, whichever
   * sibling it is.
   */
  lemma CaretOnSiblingStart(starts: seq<int>, k: nat, current: int)
    requires StrictlyAscending(starts) && k < |starts|
    ensures |starts| <= 2 ==> SiblingInsertIndex(starts, starts[k], current) == 1
    ensures |starts| >= 3 ==> SiblingInsertIndex(starts, starts[k], current) == |starts| - 1
  {
    var n, caret := |starts|, starts[k];
    if n >= 3 {
      var g := FirstGap(starts, caret, 1);
      if g.Some? {
        assert false;
      }
      assert caret <= starts[n - 1];
    }
  }
}
