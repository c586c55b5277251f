/** The severity threshold table and the scan that maps an occurrence count
    to the highest level it has crossed. */
module Thresholds {

  /** The table the tracker ships with: points at which a crash group is
      reported; counts below the lowest one are ignored. */
  const DEFAULT_THRESHOLDS: seq<int> := [20, 50, 100, 150, 200, 250, 500, 1000]

  /** A usable table: positive levels in strictly ascending order. */
  predicate ValidThresholds(t: seq<int>) {
    (forall i :: 0 <= i < |t| ==> 0 < t[i]) &&
    (forall i, j :: 0 <= i < j < |t| ==> t[i] < t[j])
  }

  /** The value the scan leaves behind: the LAST level of the table that is
      strictly below `count`, or 0 when no level qualifies. */
  function HighestCrossed(t: seq<int>, count: int): int
  {
    if |t| == 0 then 0
    else if t[|t| - 1] < count then t[|t| - 1]
    else HighestCrossed(t[..|t| - 1], count)
  }

  /** The scan as the tracker runs it: walk the table front to back and keep
      every level that is strictly below the count. */
  method ScanThreshold(t: seq<int>, count: int) returns (level: int)
    ensures level == HighestCrossed(t, count)
  {
    level := 0;
    var i := 0;
    while i < |t|
      invariant 0 <= i <= |t|
      invariant level == HighestCrossed(t[..i], count)
    {
      assert t[..i + 1][..i] == t[..i];
      if t[i] < count {
        level := t[i];
      }
      i := i + 1;
    }
    assert t[..|t|] == t;
  }

  lemma ValidPrefix(t: seq<int>, n: nat)
    requires ValidThresholds(t) && n <= |t|
    ensures ValidThresholds(t[..n])
  {
  }

  /** On a valid table the scan returns the largest level strictly below the
      count, and 0 exactly when no level is below it. */
  lemma {:induction false} HighestCrossedIsLargestBelow(t: seq<int>, count: int)
    requires ValidThresholds(t)
    ensures (forall i :: 0 <= i < |t| ==> count <= t[i]) ==> HighestCrossed(t, count) == 0
    ensures (exists i :: 0 <= i < |t| && t[i] < count) ==>
              HighestCrossed(t, count) < count &&
              (exists i :: 0 <= i < |t| && t[i] == HighestCrossed(t, count)) &&
              (forall i :: 0 <= i < |t| && t[i] < count ==> t[i] <= HighestCrossed(t, count))
  {
    if |t| > 0 {
      var n := |t| - 1;
      var init := t[..n];
      ValidPrefix(t, n);
      HighestCrossedIsLargestBelow(init, count);
      if t[n] >= count {
        assert forall i :: 0 <= i < n ==> init[i] == t[i];
        if exists i :: 0 <= i < |t| && t[i] < count {
          var i :| 0 <= i < |t| && t[i] < count;
          assert i < n && init[i] < count;
        }
      }
    }
  }

  /** On a valid table the scan reports level 0 exactly when the count is
      at most the lowest level, and never a negative level. */
  lemma HighestCrossedZero(t: seq<int>, count: int)
    requires ValidThresholds(t)
    ensures HighestCrossed(t, count) == 0 <==> forall i :: 0 <= i < |t| ==> count <= t[i]
    ensures 0 <= HighestCrossed(t, count)
  {
    HighestCrossedIsLargestBelow(t, count);
  }

  /** A count equal to a level does not reach that level: it only reaches the
      level before it (100 on the default table gives 50). */
  lemma EqualCountStaysBelow(t: seq<int>, i: nat)
    requires ValidThresholds(t) && i < |t|
    ensures HighestCrossed(t, t[i]) == if i == 0 then 0 else t[i - 1]
  {
    HighestCrossedIsLargestBelow(t, t[i]);
    if i > 0 {
      var r := HighestCrossed(t, t[i]);
      var j :| 0 <= j < |t| && t[j] == r;
      assert t[i - 1] <= r;
    }
  }

  /** A larger count never reaches a lower level. */
  lemma HighestCrossedMonotone(t: seq<int>, c1: int, c2: int)
    requires ValidThresholds(t) && c1 <= c2
    ensures HighestCrossed(t, c1) <= HighestCrossed(t, c2)
  {
    HighestCrossedIsLargestBelow(t, c1);
    HighestCrossedIsLargestBelow(t, c2);
    if exists i :: 0 <= i < |t| && t[i] < c1 {
      var i :| 0 <= i < |t| && t[i] == HighestCrossed(t, c1);
      assert t[i] < c2;
    }
  }

  /** The default table is valid. */
  lemma DefaultThresholdsValid()
    ensures ValidThresholds(DEFAULT_THRESHOLDS)
  {
  }

  /** The boundary cases of the default table behave as intended. */
  lemma DefaultThresholdsExamples()
    ensures HighestCrossed(DEFAULT_THRESHOLDS, 10) == 0
    ensures HighestCrossed(DEFAULT_THRESHOLDS, 20) == 0
    ensures HighestCrossed(DEFAULT_THRESHOLDS, 75) == 50
    ensures HighestCrossed(DEFAULT_THRESHOLDS, 100) == 50
    ensures HighestCrossed(DEFAULT_THRESHOLDS, 5000) == 1000
  {
    var t := DEFAULT_THRESHOLDS;
    DefaultThresholdsValid();
    HighestCrossedIsLargestBelow(t, 10);
    EqualCountStaysBelow(t, 0);
    EqualCountStaysBelow(t, 2);
    HighestCrossedIsLargestBelow(t, 75);
    assert t[1] < 75;
  }
}
