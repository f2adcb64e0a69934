/** `flag_bad_data` and `get_valid_data_range` (app/modules/petrofisica.py):
    an out-of-range mask for one curve, and the depth window that holds
    data in any key curve. */
module DataQuality {
  import opened Values

  /** `flag_bad_data(df, curve, min_val, max_val)`. An absent curve
      (`None`) flags nothing; NaN compares false and is never flagged. */
  function FlagBadData(curve: Option<Column>, rows: nat, minVal: real, maxVal: real): (flags: seq<bool>)
    requires curve.Some? ==> |curve.value| == rows
    ensures |flags| == rows
    ensures forall i :: 0 <= i < rows ==>
              (flags[i] <==> curve.Some? && curve.value[i].Some? &&
                             (curve.value[i].value < minVal || curve.value[i].value > maxVal))
  {
    match curve
    case None => seq(rows, _ => false)
    case Some(c) => seq(rows, i requires 0 <= i < rows => c[i].Some? && (c[i].value < minVal || c[i].value > maxVal))
  }

  /** The unflagged samples of a curve are exactly its missing ones and
      those `np.clip` would leave unchanged. */
  lemma UnflaggedSamplesAreInRange(c: Column, minVal: real, maxVal: real, i: nat)
    requires minVal <= maxVal && i < |c|
    ensures !FlagBadData(Some(c), |c|, minVal, maxVal)[i] <==>
              c[i].None? || Clip(c[i].value, minVal, maxVal) == c[i].value
  {}

  // ------------------------------------------------------------ data range

  /** Row `i` has a value in some key curve present in the frame. */
  predicate RowHasData(keys: seq<Option<Column>>, i: nat) {
    exists k :: 0 <= k < |keys| && keys[k].Some? && i < |keys[k].value| && keys[k].value[i].Some?
  }

  /** The key curves present in the frame whose column has a valid value
      (`available`). */
  predicate AnyAvailable(keys: seq<Option<Column>>) {
    exists k :: 0 <= k < |keys| && keys[k].Some? && AnyValid(keys[k].value)
  }

  function SeqMin(s: seq<real>): (m: real)
    requires s != []
    ensures m in s && forall x :: x in s ==> m <= x
  {
    if |s| == 1 then s[0]
    else
      var m := SeqMin(s[1..]);
      assert forall x :: x in s[1..] ==> x in s;
      assert forall x :: x in s ==> x == s[0] || x in s[1..];
      if s[0] <= m then s[0] else m
  }

  function SeqMax(s: seq<real>): (m: real)
    requires s != []
    ensures m in s && forall x :: x in s ==> x <= m
  {
    if |s| == 1 then s[0]
    else
      var m := SeqMax(s[1..]);
      assert forall x :: x in s[1..] ==> x in s;
      assert forall x :: x in s ==> x == s[0] || x in s[1..];
      if s[0] >= m then s[0] else m
  }

  /** The first row with data, for a frame that has one. */
  function FirstDataRow(keys: seq<Option<Column>>, n: nat, from: nat): (i: nat)
    requires from <= n && exists j :: from <= j < n && RowHasData(keys, j)
    ensures from <= i < n && RowHasData(keys, i)
    ensures forall j :: from <= j < i ==> !RowHasData(keys, j)
    decreases n - from
  {
    if RowHasData(keys, from) then from else FirstDataRow(keys, n, from + 1)
  }

  /** The last row with data below `upto`. */
  function LastDataRow(keys: seq<Option<Column>>, upto: nat): (i: nat)
    requires exists j :: 0 <= j < upto && RowHasData(keys, j)
    ensures i < upto && RowHasData(keys, i)
    ensures forall j :: i < j < upto ==> !RowHasData(keys, j)
  {
    if RowHasData(keys, upto - 1) then upto - 1 else LastDataRow(keys, upto - 1)
  }

  /** `get_valid_data_range(df)`: `None` stands for the NaN pair of an
      empty frame. */
  function ValidDataRange(depth: seq<real>, keys: seq<Option<Column>>): (range: Option<(real, real)>)
    requires forall k :: 0 <= k < |keys| && keys[k].Some? ==> |keys[k].value| == |depth|
    ensures range.None? <==> depth == []
  {
    if !AnyAvailable(keys) || !(exists j :: 0 <= j < |depth| && RowHasData(keys, j)) then
      if depth == [] then None else Some((SeqMin(depth), SeqMax(depth)))
    else
      var first := FirstDataRow(keys, |depth|, 0);
      var last := LastDataRow(keys, |depth|);
      var start, end := depth[first], depth[last];
      var margin := (end - start) * 0.02;
      Some((start - margin, end + margin))
  }

  predicate NonDecreasing(depth: seq<real>) {
    forall i, j :: 0 <= i < j < |depth| ==> depth[i] <= depth[j]
  }

  /** The smallest and largest depth of a non-decreasing column are its
      first and last. */
  lemma AscendingEnds(depth: seq<real>)
    requires NonDecreasing(depth) && depth != []
    ensures SeqMin(depth) == depth[0] && SeqMax(depth) == depth[|depth| - 1]
  {
    assert depth[0] in depth && depth[|depth| - 1] in depth;
    var lo :| 0 <= lo < |depth| && depth[lo] == SeqMin(depth);
    var hi :| 0 <= hi < |depth| && depth[hi] == SeqMax(depth);
    assert depth[0] <= depth[lo] && depth[hi] <= depth[|depth| - 1];
  }

  /** On a non-decreasing column every row with data lies between the first
      and the last row with data. */
  lemma DataRowsBetween(depth: seq<real>, keys: seq<Option<Column>>)
    requires NonDecreasing(depth)
    requires exists j :: 0 <= j < |depth| && RowHasData(keys, j)
    ensures var first, last := FirstDataRow(keys, |depth|, 0), LastDataRow(keys, |depth|);
      && depth[first] <= depth[last]
      && forall i :: 0 <= i < |depth| && RowHasData(keys, i) ==> depth[first] <= depth[i] <= depth[last]
  {
    var first, last := FirstDataRow(keys, |depth|, 0), LastDataRow(keys, |depth|);
    forall i | 0 <= i < |depth| && RowHasData(keys, i) ensures depth[first] <= depth[i] <= depth[last] {
      assert first <= i <= last;
    }
  }

  /** On an ascending depth column the window holds every row with data;
      with no data anywhere it is the whole column. The 2% margin is stated
      by `ValidDataRangeWidening`. */
  lemma ValidDataRangeCovers(depth: seq<real>, keys: seq<Option<Column>>)
    requires forall k :: 0 <= k < |keys| && keys[k].Some? ==> |keys[k].value| == |depth|
    requires NonDecreasing(depth) && depth != []
    ensures var (lo, hi) := ValidDataRange(depth, keys).value;
      && lo <= hi
      && (forall i :: 0 <= i < |depth| && RowHasData(keys, i) ==> lo <= depth[i] <= hi)
      && (!(exists i :: 0 <= i < |depth| && RowHasData(keys, i)) ==> lo == depth[0] && hi == depth[|depth| - 1])
  {
    if exists j :: 0 <= j < |depth| && RowHasData(keys, j) {
      var j :| 0 <= j < |depth| && RowHasData(keys, j);
      var k :| 0 <= k < |keys| && keys[k].Some? && j < |keys[k].value| && keys[k].value[j].Some?;
      assert AnyValid(keys[k].value);
      DataRowsBetween(depth, keys);
    } else {
      AscendingEnds(depth);
    }
  }

  /** When some row has data, the window runs from the first to the last
      row with data, widened on each side by 2% of the distance between
      their depths. */
  lemma ValidDataRangeWidening(depth: seq<real>, keys: seq<Option<Column>>)
    requires forall k :: 0 <= k < |keys| && keys[k].Some? ==> |keys[k].value| == |depth|
    requires exists i :: 0 <= i < |depth| && RowHasData(keys, i)
    ensures var (lo, hi) := ValidDataRange(depth, keys).value;
      exists i, j :: 0 <= i <= j < |depth| && RowHasData(keys, i) && RowHasData(keys, j) &&
        (forall k :: 0 <= k < |depth| && RowHasData(keys, k) ==> i <= k <= j) &&
        lo == depth[i] - (depth[j] - depth[i]) * 0.02 && hi == depth[j] + (depth[j] - depth[i]) * 0.02
  {
    var j :| 0 <= j < |depth| && RowHasData(keys, j);
    var k :| 0 <= k < |keys| && keys[k].Some? && j < |keys[k].value| && keys[k].value[j].Some?;
    assert AnyValid(keys[k].value);
    var first, last := FirstDataRow(keys, |depth|, 0), LastDataRow(keys, |depth|);
    assert first <= j <= last;
  }
}
