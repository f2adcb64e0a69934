/** Missing-value handling shared by every stage: a log sample is either a
    number or pandas' NaN, and a curve is a column of such samples. */
module Values {

  /** A sample that may be missing; `None` stands for NaN. */
  datatype Option<+T> = None | Some(value: T)

  /** One curve of a well, one entry per depth row. */
  type Column = seq<Option<real>>

  /** numpy.clip of a present value into [lo, hi]. */
  function Clip(x: real, lo: real, hi: real): (r: real)
    requires lo <= hi
    ensures lo <= r <= hi
    ensures lo <= x <= hi ==> r == x
    ensures x < lo ==> r == lo
    ensures hi < x ==> r == hi
  {
    if x < lo then lo else if x > hi then hi else x
  }

  lemma ClipMonotone(x: real, y: real, lo: real, hi: real)
    requires lo <= hi && x <= y
    ensures Clip(x, lo, hi) <= Clip(y, lo, hi)
  {}

  /** `series.notna().any()`. */
  predicate AnyValid(c: Column) {
    exists i :: 0 <= i < |c| && c[i].Some?
  }

  /** `series.dropna()`: the present values, in row order. */
  function DropMissing(c: Column): (v: seq<real>)
    ensures |v| <= |c|
    ensures forall x :: x in v ==> Some(x) in c
  {
    if c == [] then []
    else
      var init := DropMissing(c[..|c| - 1]);
      match c[|c| - 1]
      case None => init
      case Some(x) => init + [x]
  }

  /** `series.notna().sum()`. */
  function CountValid(c: Column): nat {
    |DropMissing(c)|
  }

  /** A curve is present somewhere exactly when it has a valid value to count. */
  lemma {:induction false} AnyValidIffCount(c: Column)
    ensures AnyValid(c) <==> CountValid(c) > 0
  {
    if c != [] {
      var init := c[..|c| - 1];
      AnyValidIffCount(init);
      if AnyValid(init) {
        var i :| 0 <= i < |init| && init[i].Some?;
        assert c[i].Some?;
      }
      if AnyValid(c) && c[|c| - 1].None? {
        var i :| 0 <= i < |c| && c[i].Some?;
        assert init[i].Some?;
      }
    }
  }

  /** Dropping missing values of a row-by-row extension. */
  lemma DropMissingSnoc(c: Column, i: nat)
    requires i < |c|
    ensures DropMissing(c[..i + 1]) ==
      DropMissing(c[..i]) + (if c[i].Some? then [c[i].value] else [])
  {
    assert c[..i + 1][..i] == c[..i];
  }

  /** Dropping missing values of a column with one more sample. */
  lemma DropMissingAppend(c: Column, o: Option<real>)
    ensures DropMissing(c + [o]) == DropMissing(c) + (if o.Some? then [o.value] else [])
  {
    assert (c + [o])[..|c|] == c;
  }

  /** The rows holding a present sample. */
  function ValidRows(c: Column): set<int> {
    set i | 0 <= i < |c| && c[i].Some?
  }

  /** Appending one sample adds its row to the valid rows when present. */
  lemma ValidRowsSnoc(c: Column)
    requires c != []
    ensures ValidRows(c) == ValidRows(c[..|c| - 1]) + (if c[|c| - 1].Some? then {|c| - 1} else {})
    ensures |c| - 1 !in ValidRows(c[..|c| - 1])
  {
    var n := |c| - 1;
    forall i ensures i in ValidRows(c) <==> i in ValidRows(c[..n]) || (c[n].Some? && i == n) {
      if 0 <= i < n { assert c[i] == c[..n][i]; }
    }
  }

  /** `dropna` keeps one value per valid row. */
  lemma {:induction false} DropMissingCount(c: Column)
    ensures CountValid(c) == |ValidRows(c)|
  {
    if c != [] {
      var n := |c| - 1;
      DropMissingCount(c[..n]);
      DropMissingSnoc(c, n);
      assert c[..n + 1] == c;
      ValidRowsSnoc(c);
    }
  }

  /** `dropna` keeps the samples in row order: the sample of a valid row
      sits at the position given by the number of valid rows above it. */
  lemma {:induction false} DropMissingOrder(c: Column)
    ensures forall i :: 0 <= i < |c| && c[i].Some? ==>
              CountValid(c[..i]) < CountValid(c) && DropMissing(c)[CountValid(c[..i])] == c[i].value
  {
    if c != [] {
      var n := |c| - 1;
      var init := c[..n];
      DropMissingOrder(init);
      DropMissingSnoc(c, n);
      assert c[..n + 1] == c;
      forall i | 0 <= i < |c| && c[i].Some?
        ensures CountValid(c[..i]) < CountValid(c) && DropMissing(c)[CountValid(c[..i])] == c[i].value
      {
        if i < n {
          assert c[..i] == init[..i] && c[i] == init[i];
        }
      }
    }
  }

  /** A column of `n` NaN rows (`df[col] = np.nan`). */
  function AllMissing(n: nat): (c: Column)
    ensures |c| == n
    ensures !AnyValid(c)
  {
    seq(n, _ => None)
  }
}
