/** `detect_dominant_matrix` (app/modules/petrofisica.py): the well's
    dominant rock matrix, chosen from the median and upper quartile of bulk
    density and the medians of photoelectric factor and gamma ray. */
module MatrixDetection {
  import opened Values
  import opened Numerics
  import opened Config

  /** The summary figures the decision tree reads. `pefMedian` and
      `grMedian` are `None` when the curve is absent or has no valid value. */
  datatype Figures = Figures(rhobMedian: real, rhobP75: real, pefMedian: Option<real>, grMedian: Option<real>)

  /** The decision tree proper, once the figures are known. */
  function MatrixRule(f: Figures): (m: Matrix)
    ensures f.pefMedian.Some? && 2.5 < f.pefMedian.value <= 4.5 ==> m == Dolomita
    ensures f.pefMedian.Some? && f.pefMedian.value < 2.2 ==> m == Arenisca
    ensures f.pefMedian.Some? && 2.2 <= f.pefMedian.value <= 2.5 ==>
              m == (if f.rhobMedian > 2.75 then Dolomita else if f.rhobMedian > 2.68 then Caliza else Arenisca)
    ensures f.pefMedian.Some? && f.pefMedian.value > 4.5 ==>
              (m == Dolomita <==> f.rhobMedian > 2.80) && m != Arenisca
  {
    match f.pefMedian
    case Some(pef) =>
      if pef > 4.5 then (if f.rhobMedian > 2.80 then Dolomita else Caliza)
      else if pef > 2.5 then Dolomita
      else if pef < 2.2 then Arenisca
      else if f.rhobMedian > 2.75 then Dolomita
      else if f.rhobMedian > 2.68 then Caliza
      else Arenisca
    case None =>
      if f.rhobMedian > 2.80 then Dolomita
      else if f.rhobMedian > 2.68 then
        if f.rhobP75 > 2.75 then Caliza
        else match f.grMedian
          case Some(gr) => if gr < 50.0 then Caliza else Arenisca
          case None => Caliza
      else if f.rhobMedian < 2.60 then Arenisca
      else match f.grMedian
        case Some(gr) => if gr < 60.0 then Caliza else Arenisca
        case None => Arenisca
  }

  /** Without photoelectric data and with the median density in
      [2.60, 2.68], the matrix is limestone exactly when the gamma-ray
      median is present and below 60. */
  lemma MidDensityUsesGammaRay(f: Figures)
    requires f.pefMedian.None? && 2.60 <= f.rhobMedian <= 2.68
    ensures MatrixRule(f) == Caliza <==> f.grMedian.Some? && f.grMedian.value < 60.0
    ensures MatrixRule(f) != Dolomita
  {}

  /** Without photoelectric data, a median density above 2.68 gives sand
      exactly when it is at most 2.80, the upper quartile is at most 2.75 and
      the gamma-ray median is present and at least 50. */
  lemma DenseWithoutPef(f: Figures)
    requires f.pefMedian.None? && f.rhobMedian > 2.68
    ensures MatrixRule(f) == Arenisca <==>
              f.rhobMedian <= 2.80 && f.rhobP75 <= 2.75 && f.grMedian.Some? && f.grMedian.value >= 50.0
  {}

  /** `s.median()` of a curve's valid values, `None` when it has none. */
  function MedianOf(c: Column, stats: Statistics): Option<real> {
    if AnyValid(c) then Some(stats.median(DropMissing(c))) else None
  }

  /** The figures the detector reads from a curve with valid density. */
  function FiguresOf(rhob: Column, pef: Option<Column>, gr: Option<Column>, stats: Statistics): Figures {
    var valid := DropMissing(rhob);
    Figures(stats.median(valid), stats.quantile(valid, 0.75),
            if pef.Some? then MedianOf(pef.value, stats) else None,
            if gr.Some? then MedianOf(gr.value, stats) else None)
  }

  /** `detect_dominant_matrix(df)`: the label and its canonical density.
      `pef` and `gr` are `None` when the frame has no such column. The 25th
      percentile the source also computes is never read, so it is not
      evaluated here (see `DetectIgnoresLowerQuartile`). */
  function DetectDominantMatrix(rhob: Column, pef: Option<Column>, gr: Option<Column>,
                                stats: Statistics): (r: (Matrix, real))
    ensures r.1 == MatrixDensity(r.0)
    ensures !AnyValid(rhob) ==> r == (Arenisca, 2.65)
  {
    if !AnyValid(rhob) then (Arenisca, 2.65)
    else
      var m := MatrixRule(FiguresOf(rhob, pef, gr, stats));
      (m, MatrixDensity(m))
  }

  /** The detected density is the grain density RHO_MATRIX lists for the
      detected label. */
  lemma DetectedDensityIsTabled(rhob: Column, pef: Option<Column>, gr: Option<Column>, stats: Statistics)
    ensures var r := DetectDominantMatrix(rhob, pef, gr, stats);
      LabelName(r.0) in RHO_MATRIX && r.1 == RHO_MATRIX[LabelName(r.0)]
  {
    MatrixDensityIsTabled(DetectDominantMatrix(rhob, pef, gr, stats).0);
  }

  /** A photoelectric or gamma-ray column with no valid value counts as an
      absent one. */
  lemma EmptyCurveIsAbsent(rhob: Column, pef: Option<Column>, gr: Option<Column>, stats: Statistics)
    ensures pef.Some? && !AnyValid(pef.value) ==>
              DetectDominantMatrix(rhob, pef, gr, stats) == DetectDominantMatrix(rhob, None, gr, stats)
    ensures gr.Some? && !AnyValid(gr.value) ==>
              DetectDominantMatrix(rhob, pef, gr, stats) == DetectDominantMatrix(rhob, pef, None, stats)
  {}

  /** Two statistics back-ends that agree on the median and on the 75th
      percentile give the same matrix: the lower quartile plays no part. */
  lemma DetectIgnoresLowerQuartile(rhob: Column, pef: Option<Column>, gr: Option<Column>,
                                   s1: Statistics, s2: Statistics)
    requires forall v :: s1.median(v) == s2.median(v)
    requires forall v :: s1.quantile(v, 0.75) == s2.quantile(v, 0.75)
    ensures DetectDominantMatrix(rhob, pef, gr, s1) == DetectDominantMatrix(rhob, pef, gr, s2)
  {}
}
