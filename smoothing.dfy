/** `smooth_curve` (app/modules/petrofisica.py): a median filter run over
    the valid samples of a curve only, written back into the same positions. */
module Smoothing {
  import opened Values
  import opened Numerics

  /** The curve `data` with its valid samples replaced, in order, by `vals`:
      the result of `smoothed[valid] = vals`. */
  function Refill(data: Column, vals: seq<real>): (c: Column)
    requires |vals| == CountValid(data)
    ensures |c| == |data|
  {
    if data == [] then []
    else
      var init := data[..|data| - 1];
      match data[|data| - 1]
      case None => Refill(init, vals) + [None]
      case Some(_) => Refill(init, vals[..|vals| - 1]) + [Some(vals[|vals| - 1])]
  }

  /** Refilling keeps every missing sample missing and every valid one valid. */
  lemma {:induction false} RefillKeepsMask(data: Column, vals: seq<real>)
    requires |vals| == CountValid(data)
    ensures forall j :: 0 <= j < |data| ==> (Refill(data, vals)[j].None? <==> data[j].None?)
  {
    if data != [] {
      var n := |data| - 1;
      var init := data[..n];
      DropMissingSnoc(data, n);
      assert data[..n + 1] == data;
      var vals' := if data[n].None? then vals else vals[..|vals| - 1];
      RefillKeepsMask(init, vals');
      var last := if data[n].None? then None else Some(vals[|vals| - 1]);
      assert Refill(data, vals) == Refill(init, vals') + [last];
      forall j | 0 <= j < |data| ensures Refill(data, vals)[j].None? <==> data[j].None? {
        if j < n {
          assert Refill(data, vals)[j] == Refill(init, vals')[j] && data[j] == init[j];
        }
      }
    }
  }

  /** The valid samples of a refilled curve read back are exactly `vals`. */
  lemma {:induction false} RefillReadsBack(data: Column, vals: seq<real>)
    requires |vals| == CountValid(data)
    ensures DropMissing(Refill(data, vals)) == vals
  {
    if data != [] {
      var n := |data| - 1;
      var init := data[..n];
      DropMissingSnoc(data, n);
      assert data[..n + 1] == data;
      if data[n].None? {
        RefillReadsBack(init, vals);
        assert Refill(data, vals) == Refill(init, vals) + [None];
        DropMissingAppend(Refill(init, vals), None);
      } else {
        var vals' := vals[..|vals| - 1];
        RefillReadsBack(init, vals');
        assert Refill(data, vals) == Refill(init, vals') + [Some(vals[|vals| - 1])];
        DropMissingAppend(Refill(init, vals'), Some(vals[|vals| - 1]));
        assert vals == vals' + [vals[|vals| - 1]];
      }
    }
  }

  /** What `smooth_curve(data, window)` returns. */
  function Smoothed(data: Column, window: nat, filter: MedianFilter): Column {
    var vals := DropMissing(data);
    if |vals| < window then data else Refill(data, filter(vals, window))
  }

  /** `smooth_curve` keeps the length and the missing positions, and
      replaces the valid samples by the filter output when there are at
      least `window` of them. */
  lemma SmoothedSpec(data: Column, window: nat, filter: MedianFilter)
    ensures |Smoothed(data, window, filter)| == |data|
    ensures forall j :: 0 <= j < |data| ==> (Smoothed(data, window, filter)[j].None? <==> data[j].None?)
    ensures CountValid(data) < window ==> Smoothed(data, window, filter) == data
    ensures CountValid(data) >= window ==> DropMissing(Smoothed(data, window, filter)) == filter(DropMissing(data), window)
  {
    if CountValid(data) >= window {
      RefillKeepsMask(data, filter(DropMissing(data), window));
      RefillReadsBack(data, filter(DropMissing(data), window));
    }
  }

  /** A prefix never has more valid samples than the whole curve. */
  lemma {:induction false} CountValidPrefix(c: Column, i: nat)
    requires i <= |c|
    ensures CountValid(c[..i]) <= CountValid(c)
    decreases |c| - i
  {
    if i < |c| {
      DropMissingSnoc(c, i);
      CountValidPrefix(c, i + 1);
    } else {
      assert c[..i] == c;
    }
  }

  /** One step of the write-back loop: with the first `i` positions
      refilled and the rest untouched, writing position `i` (the next
      filtered value when the sample is valid) extends the refilled prefix
      by one. */
  lemma RefillStep(data: Column, vals: seq<real>, sm: Column, i: nat)
    requires i < |data| == |sm| && |vals| == CountValid(data) && CountValid(data[..i]) <= |vals|
    requires sm[..i] == Refill(data[..i], vals[..CountValid(data[..i])])
    requires forall j :: i <= j < |data| ==> sm[j] == data[j]
    ensures CountValid(data[..i + 1]) == CountValid(data[..i]) + (if data[i].Some? then 1 else 0) <= |vals|
    ensures var sm' := if data[i].Some? then sm[i := Some(vals[CountValid(data[..i])])] else sm;
      && sm'[..i + 1] == Refill(data[..i + 1], vals[..CountValid(data[..i + 1])])
      && forall j :: i + 1 <= j < |data| ==> sm'[j] == data[j]
  {
    DropMissingSnoc(data, i);
    CountValidPrefix(data, i + 1);
    var k := CountValid(data[..i]);
    assert data[..i + 1][..i] == data[..i];
    var sm' := if data[i].Some? then sm[i := Some(vals[k])] else sm;
    assert sm'[..i + 1] == sm[..i] + [sm'[i]];
    if data[i].Some? {
      assert vals[..k + 1][..k] == vals[..k];
    }
  }

  /** `smooth_curve(data, window)`: the valid samples are median-filtered
      together and written back into the positions they came from; curves
      with fewer than `window` valid samples come back unchanged. */
  method SmoothCurve(data: Column, window: nat, filter: MedianFilter) returns (smoothed: Column)
    ensures smoothed == Smoothed(data, window, filter)
    ensures |smoothed| == |data|
    ensures forall j :: 0 <= j < |data| ==> (smoothed[j].None? <==> data[j].None?)
    ensures CountValid(data) < window ==> smoothed == data
    ensures CountValid(data) >= window ==> DropMissing(smoothed) == filter(DropMissing(data), window)
  {
    var values := DropMissing(data);
    if |values| < window {
      SmoothedSpec(data, window, filter);
      return data;
    }
    var filtered := filter(values, window);
    smoothed := data;
    var i, k := 0, 0;
    while i < |data|
      invariant 0 <= i <= |data| && |smoothed| == |data|
      invariant k == CountValid(data[..i]) <= |filtered|
      invariant smoothed[..i] == Refill(data[..i], filtered[..k])
      invariant forall j :: i <= j < |data| ==> smoothed[j] == data[j]
    {
      RefillStep(data, filtered, smoothed, i);
      if data[i].Some? {
        smoothed := smoothed[i := Some(filtered[k])];
        k := k + 1;
      }
      i := i + 1;
    }
    assert data[..i] == data && smoothed[..i] == smoothed;
    assert filtered[..k] == filtered;
    SmoothedSpec(data, window, filter);
  }
}
