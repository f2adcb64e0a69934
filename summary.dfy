/** The statistical summary at the end of the per-well pipeline
    (app/main.py): mean, minimum, maximum and count of PHI_E, VSH, SW and
    the positive PERM values. */
module WellSummary {
  import opened Values
  import opened DataQuality
  import opened RealArith

  /** One entry of `stats_dict`; `None` stands for the all-`None` entry with
      a count of zero. */
  datatype CurveStats = CurveStats(mean: real, min: real, max: real, valid: nat)

  function Sum(s: seq<real>): real {
    if s == [] then 0.0 else s[0] + Sum(s[1..])
  }

  /** Values between `lo` and `hi` add up to between |s|·lo and |s|·hi. */
  lemma {:induction false} SumBounds(s: seq<real>, lo: real, hi: real)
    requires forall x :: x in s ==> lo <= x <= hi
    ensures (|s| as real) * lo <= Sum(s) <= (|s| as real) * hi
  {
    if s != [] {
      var t := s[1..];
      assert forall x :: x in t ==> x in s;
      SumBounds(t, lo, hi);
      assert s[0] in s;
      var k := |t| as real;
      assert Sum(s) == s[0] + Sum(t);
      assert (|s| as real) * lo == k * lo + lo by { SuccTimes(k, lo); }
      assert (|s| as real) * hi == k * hi + hi by { SuccTimes(k, hi); }
    }
  }

  /** `Series.mean()` of a non-empty series. */
  function Mean(s: seq<real>): real
    requires s != []
  {
    Sum(s) / (|s| as real)
  }

  /** A total between n·lo and n·hi has its average between lo and hi. */
  lemma AverageBounds(total: real, n: real, lo: real, hi: real)
    requires 0.0 < n && n * lo <= total <= n * hi
    ensures lo <= total / n <= hi
  {
    DivMono(n * lo, total, n);
    DivMono(total, n * hi, n);
    assert (n * lo) / n == lo && (n * hi) / n == hi;
  }

  /** The mean lies between the minimum and the maximum. */
  lemma MeanBetween(s: seq<real>)
    requires s != []
    ensures SeqMin(s) <= Mean(s) <= SeqMax(s)
  {
    SumBounds(s, SeqMin(s), SeqMax(s));
    AverageBounds(Sum(s), |s| as real, SeqMin(s), SeqMax(s));
  }

  /** `series[series > 0]`: the positive values, in order. */
  function Positive(s: seq<real>): (p: seq<real>)
    ensures |p| <= |s|
    ensures forall x :: x in p <==> x in s && x > 0.0
  {
    if s == [] then []
    else
      var init, last := s[..|s| - 1], s[|s| - 1];
      assert s == init + [last];
      assert forall x :: x in s <==> x in init || x == last;
      Positive(init) + (if last > 0.0 then [last] else [])
  }

  /** The rows holding a positive value. */
  function PositiveRows(s: seq<real>): set<int> {
    set i | 0 <= i < |s| && s[i] > 0.0
  }

  /** The filter keeps one value per positive row. */
  lemma {:induction false} PositiveCount(s: seq<real>)
    ensures |Positive(s)| == |PositiveRows(s)|
  {
    if s != [] {
      var n := |s| - 1;
      PositiveCount(s[..n]);
      forall i ensures i in PositiveRows(s) <==> i in PositiveRows(s[..n]) || (s[n] > 0.0 && i == n) {
        if 0 <= i < n { assert s[i] == s[..n][i]; }
      }
      assert PositiveRows(s) == PositiveRows(s[..n]) + (if s[n] > 0.0 then {n} else {});
      assert n !in PositiveRows(s[..n]);
    }
  }

  /** The filter keeps the values in row order: the value of a positive row
      sits at the position given by the number of positive rows above it. */
  lemma {:induction false} PositiveOrder(s: seq<real>)
    ensures forall i :: 0 <= i < |s| && s[i] > 0.0 ==>
              |Positive(s[..i])| < |Positive(s)| && Positive(s)[|Positive(s[..i])|] == s[i]
  {
    if s != [] {
      var n := |s| - 1;
      var init := s[..n];
      PositiveOrder(init);
      assert Positive(s) == Positive(init) + (if s[n] > 0.0 then [s[n]] else []);
      forall i | 0 <= i < |s| && s[i] > 0.0
        ensures |Positive(s[..i])| < |Positive(s)| && Positive(s)[|Positive(s[..i])|] == s[i]
      {
        if i < n {
          assert s[..i] == init[..i] && s[i] == init[i];
        }
      }
    }
  }

  /** The values summarised: the valid ones, and for PERM only the positive ones. */
  function SummaryValues(c: Column, positiveOnly: bool): seq<real> {
    if positiveOnly then Positive(DropMissing(c)) else DropMissing(c)
  }

  /** The entry of one curve. */
  function CurveSummary(c: Column, positiveOnly: bool): Option<CurveStats> {
    var v := SummaryValues(c, positiveOnly);
    if |v| > 0 then Some(CurveStats(Mean(v), SeqMin(v), SeqMax(v), |v|)) else None
  }

  /** An entry has minimum ≤ mean ≤ maximum and counts the values it
      summarises, all positive for PERM; it is empty only when nothing is
      left to summarise. */
  lemma CurveSummarySpec(c: Column, positiveOnly: bool)
    ensures var e := CurveSummary(c, positiveOnly);
      && (e.None? <==> SummaryValues(c, positiveOnly) == [])
      && (e.Some? ==> e.value.min <= e.value.mean <= e.value.max)
      && (e.Some? ==> e.value.valid == |SummaryValues(c, positiveOnly)| <= CountValid(c))
      && (e.Some? && positiveOnly ==> 0.0 < e.value.min)
      && (!positiveOnly ==> (e.None? <==> !AnyValid(c)))
  {
    var v := SummaryValues(c, positiveOnly);
    AnyValidIffCount(c);
    if v != [] {
      MeanBetween(v);
    }
  }

  /** `stats_dict`: an entry, in order, for each curve that has any valid
      value. */
  function SummaryOf(curves: seq<(string, Column, bool)>): (entries: seq<(string, Option<CurveStats>)>)
    ensures |entries| <= |curves|
  {
    if curves == [] then []
    else
      var init := SummaryOf(curves[..|curves| - 1]);
      var (name, c, positiveOnly) := curves[|curves| - 1];
      if AnyValid(c) then init + [(name, CurveSummary(c, positiveOnly))] else init
  }

  /** Every entry belongs to a curve with valid values, under its own name. */
  lemma {:induction false} SummaryOfEntries(curves: seq<(string, Column, bool)>)
    ensures forall e :: e in SummaryOf(curves) ==>
              exists k :: 0 <= k < |curves| && curves[k].0 == e.0 && AnyValid(curves[k].1) &&
                          e.1 == CurveSummary(curves[k].1, curves[k].2)
  {
    if curves != [] {
      var init := curves[..|curves| - 1];
      SummaryOfEntries(init);
      forall e | e in SummaryOf(curves)
        ensures exists k :: 0 <= k < |curves| && curves[k].0 == e.0 && AnyValid(curves[k].1) &&
                            e.1 == CurveSummary(curves[k].1, curves[k].2)
      {
        if e in SummaryOf(init) {
          var k :| 0 <= k < |init| && init[k].0 == e.0 && AnyValid(init[k].1) &&
                   e.1 == CurveSummary(init[k].1, init[k].2);
          assert curves[k] == init[k];
        } else {
          assert curves[|curves| - 1].0 == e.0;
        }
      }
    }
  }

  /** `idx` lists, in increasing order, the curves that have a valid value,
      and entry `t` is the summary of curve `idx[t]` under its name. */
  predicate EnumeratesDataCurves(entries: seq<(string, Option<CurveStats>)>,
                                 curves: seq<(string, Column, bool)>, idx: seq<int>) {
    && |idx| == |entries|
    && (forall t :: 0 <= t < |idx| ==>
          0 <= idx[t] < |curves| &&
          entries[t] == (curves[idx[t]].0, CurveSummary(curves[idx[t]].1, curves[idx[t]].2)))
    && (forall t, u :: 0 <= t < u < |idx| ==> idx[t] < idx[u])
    && (forall k :: 0 <= k < |curves| ==> (AnyValid(curves[k].1) <==> k in idx))
  }

  /** Extending the curve list by one curve extends the enumeration by
      that curve when it has a valid value. */
  lemma EnumerateSnoc(entries: seq<(string, Option<CurveStats>)>, curves: seq<(string, Column, bool)>,
                      idx: seq<int>)
    requires curves != [] && EnumeratesDataCurves(entries, curves[..|curves| - 1], idx)
    ensures var n := |curves| - 1;
      if AnyValid(curves[n].1)
      then EnumeratesDataCurves(entries + [(curves[n].0, CurveSummary(curves[n].1, curves[n].2))], curves, idx + [n])
      else EnumeratesDataCurves(entries, curves, idx)
  {
    var n := |curves| - 1;
    var init := curves[..n];
    forall k | 0 <= k < n ensures curves[k] == init[k] {}
    assert n !in idx;
  }

  /** `stats_dict` has exactly one entry per curve with a valid value, in
      the order of the curve list, and no other entry. */
  lemma {:induction false} SummaryOfSpec(curves: seq<(string, Column, bool)>)
    ensures exists idx :: EnumeratesDataCurves(SummaryOf(curves), curves, idx)
  {
    if curves == [] {
      assert EnumeratesDataCurves(SummaryOf(curves), curves, []);
    } else {
      var n := |curves| - 1;
      SummaryOfSpec(curves[..n]);
      var idx0 :| EnumeratesDataCurves(SummaryOf(curves[..n]), curves[..n], idx0);
      EnumerateSnoc(SummaryOf(curves[..n]), curves, idx0);
      if AnyValid(curves[n].1) {
        assert EnumeratesDataCurves(SummaryOf(curves), curves, idx0 + [n]);
      } else {
        assert EnumeratesDataCurves(SummaryOf(curves), curves, idx0);
      }
    }
  }
}
