/** The per-well pipeline of app/main.py: the LAS frame is given a depth
    column and cleaned, curves are mapped to canonical names, the dominant
    matrix is detected and written into the configuration, and the well's
    columns are then filled stage by stage. */
module WellPipeline {
  import opened Values
  import opened Numerics
  import opened Config
  import opened PetroPhysics
  import opened LithoClassifier
  import opened MatrixDetection
  import opened DepthCleaning
  import opened CurveMapping
  import opened WellColumns
  import opened WellSummary

  /** A LAS file as a frame: its column names and one row of samples per
      depth step, in file order. */
  datatype LasFrame = LasFrame(names: seq<string>, rows: seq<seq<Option<real>>>)

  /** Every row has one sample per column. */
  predicate WellFormed(f: LasFrame) {
    forall i :: 0 <= i < |f.rows| ==> |f.rows[i]| == |f.names|
  }

  /** A frame row once its depth is known: the depth and all its samples. */
  type FrameRow = Row<seq<Option<real>>>

  /** The position of the first column called `name`. */
  function IndexOf(names: seq<string>, name: string): (k: nat)
    requires name in names
    ensures k < |names| && names[k] == name
    ensures forall j :: 0 <= j < k ==> names[j] != name
  {
    if names[0] == name then 0
    else
      assert name in names[1..];
      1 + IndexOf(names[1..], name)
  }

  // ------------------------------------------------------------ depth

  /** The position of the depth column. */
  function DepthIndex(f: LasFrame, depthCol: string): (k: nat)
    requires depthCol in f.names
    ensures k < |f.names| && f.names[k] == depthCol
  {
    IndexOf(f.names, depthCol)
  }

  /** The raw rows with the depth column read as each row's depth. */
  function DepthSamples(f: LasFrame, depthCol: string): (s: seq<Sample<seq<Option<real>>>>)
    requires WellFormed(f) && depthCol in f.names
    ensures |s| == |f.rows|
    ensures forall i :: 0 <= i < |s| ==> |s[i].data| == |f.names|
  {
    var k := DepthIndex(f, depthCol);
    seq(|f.rows|, i requires 0 <= i < |f.rows| => Sample(f.rows[i][k], f.rows[i]))
  }

  /** The frame once `clean_depth_data` has run. */
  function CleanedRows(f: LasFrame, depthCol: string): seq<FrameRow>
    requires WellFormed(f) && depthCol in f.names
  {
    CleanDepthData(DepthSamples(f, depthCol))
  }

  /** The column names after the depth column is renamed to DEPTH_FT. */
  function FrameNames(f: LasFrame, depthCol: string): (names: seq<string>)
    ensures |names| == |f.names|
  {
    RenameDepth(f.names, depthCol)
  }

  /** Cleaning keeps whole rows of the raw frame, so every row still has
      one sample per column. */
  lemma CleanedRowsWidth(f: LasFrame, depthCol: string)
    requires WellFormed(f) && depthCol in f.names
    ensures forall y :: y in CleanedRows(f, depthCol) ==> |y.data| == |f.names|
  {
    var s := DepthSamples(f, depthCol);
    CleanDepthDataSpec(s);
    forall y | y in CleanedRows(f, depthCol) ensures |y.data| == |f.names| {
      assert FirstOccurrence(s, y);
      var i :| 0 <= i < |s| && s[i] == Sample(Some(y.depth), y.data) && FirstOfItsDepth(s, i);
    }
  }

  /** The cleaned depths are strictly ascending, are exactly the depths
      present in the raw frame, and come each from the first raw row with
      that depth. */
  lemma CleanedRowsSpec(f: LasFrame, depthCol: string)
    requires WellFormed(f) && depthCol in f.names
    ensures var rows := CleanedRows(f, depthCol);
      && |rows| <= |f.rows|
      && (forall i, j :: 0 <= i < j < |rows| ==> rows[i].depth < rows[j].depth)
      && (forall y :: y in rows ==>
            exists i :: (0 <= i < |f.rows| &&
              f.rows[i] == y.data && f.rows[i][DepthIndex(f, depthCol)] == Some(y.depth) &&
              forall j :: 0 <= j < i ==> f.rows[j][DepthIndex(f, depthCol)] != Some(y.depth)))
      && (forall i :: 0 <= i < |f.rows| && f.rows[i][DepthIndex(f, depthCol)].Some? ==>
            exists y :: y in rows && y.depth == f.rows[i][DepthIndex(f, depthCol)].value)
  {
    var s := DepthSamples(f, depthCol);
    var rows := CleanedRows(f, depthCol);
    var k := DepthIndex(f, depthCol);
    CleanDepthDataSpec(s);
    forall y | y in rows
      ensures exists i :: (0 <= i < |f.rows| &&
        f.rows[i] == y.data && f.rows[i][k] == Some(y.depth) &&
        forall j :: 0 <= j < i ==> f.rows[j][k] != Some(y.depth))
    {
      assert FirstOccurrence(s, y);
      var i :| 0 <= i < |s| && s[i] == Sample(Some(y.depth), y.data) && FirstOfItsDepth(s, i);
      forall j | 0 <= j < i ensures f.rows[j][k] != Some(y.depth) {
        assert s[j].depth != s[i].depth;
      }
    }
    forall i | 0 <= i < |f.rows| && f.rows[i][k].Some?
      ensures exists y :: y in rows && y.depth == f.rows[i][k].value
    {
      assert s[i] in s;
      assert f.rows[i][k].value in PresentDepths(s);
      assert f.rows[i][k].value in DepthSet(rows);
    }
  }

  // ------------------------------------------------------------ curves

  /** Sample `j` of every row. */
  function ColumnAt(rows: seq<FrameRow>, j: nat): (c: Column)
    requires forall y :: y in rows ==> j < |y.data|
    ensures |c| == |rows|
  {
    seq(|rows|, i requires 0 <= i < |rows| => assert rows[i] in rows; rows[i].data[j])
  }

  /** `df[canonical]` after the mapping: a copy of the mapped column, or
      all missing. */
  function CurveColumn(names: seq<string>, rows: seq<FrameRow>, available: map<string, string>,
                       canonical: string): (c: Column)
    requires forall y :: y in rows ==> |y.data| == |names|
    ensures |c| == |rows|
  {
    if canonical in available && available[canonical] in names then
      ColumnAt(rows, IndexOf(names, available[canonical]))
    else AllMissing(|rows|)
  }

  /** The canonical curve `canonical` of the cleaned frame under the
      mapping `available`. */
  function MappedCurve(f: LasFrame, depthCol: string, available: map<string, string>,
                       canonical: string): (c: Column)
    requires WellFormed(f) && depthCol in f.names
    ensures |c| == |CleanedRows(f, depthCol)|
  {
    CleanedRowsWidth(f, depthCol);
    CurveColumn(FrameNames(f, depthCol), CleanedRows(f, depthCol), available, canonical)
  }

  /** For any alias table with distinct canonical names, canonical `k`
      holds, row by row, the column of its first alias present, and is all
      missing when none is. */
  lemma CurveColumnResolves(names: seq<string>, rows: seq<FrameRow>, table: seq<(string, seq<string>)>, k: nat)
    requires DistinctCanonicals(table)
    requires k < |table|
    requires forall y :: y in rows ==> |y.data| == |names|
    ensures var c := CurveColumn(names, rows, AvailableCurves(table, names), table[k].0);
      match FirstPresent(table[k].1, names)
      case None => c == AllMissing(|rows|)
      case Some(alias) =>
        alias in names &&
        forall i :: 0 <= i < |rows| ==> c[i] == rows[i].data[IndexOf(names, alias)]
  {
    AvailableCurvesSpec(table, names, k);
  }

  // ------------------------------------------------------------ the well

  /** The numeric back-ends the pipeline calls. */
  datatype Backends = Backends(t: Transcendentals, stats: Statistics, filter: MedianFilter)

  /** The columns of one processed well. */
  class Well {
    const depthFt: seq<real>
    const depthM: seq<real>
    const available: map<string, string>
    var gr: Column
    var rhob: Column
    var nphi: Column
    const pef: Column
    const rt: Column
    var vsh: Column
    const phit: Column
    var sw: Column
    var litho: seq<Lithology>
    var rhoMatrix: seq<real>
    var phiT: Column
    var phiE: Column
    var perm: Column
    var isPay: seq<bool>
    var netPay: nat

    /** Every curve column has one entry per depth row. */
    predicate Valid()
      reads this
    {
      var n := |depthFt|;
      && |depthM| == n && |gr| == n && |rhob| == n && |nphi| == n && |pef| == n && |rt| == n
      && |vsh| == n && |phit| == n && |sw| == n && |phiT| == n && |phiE| == n && |perm| == n
    }

    /** The frame after depth cleaning and curve mapping: DEPTH_FT, DEPTH in
        metres and every canonical curve the stages read. Columns no stage has
        written yet are empty. */
    constructor (names: seq<string>, rows: seq<FrameRow>, available: map<string, string>)
      requires forall c :: c in available ==> available[c] in names
      requires forall y :: y in rows ==> |y.data| == |names|
      ensures Valid() && |depthFt| == |rows|
      ensures forall i :: 0 <= i < |rows| ==> depthFt[i] == rows[i].depth && depthM[i] == rows[i].depth * 0.3048
      ensures this.available == available
      ensures gr == CurveColumn(names, rows, available, "GR")
      ensures rhob == CurveColumn(names, rows, available, "RHOB")
      ensures nphi == CurveColumn(names, rows, available, "NPHI")
      ensures pef == CurveColumn(names, rows, available, "PEF")
      ensures rt == CurveColumn(names, rows, available, "RT")
      ensures vsh == CurveColumn(names, rows, available, "VSH")
      ensures phit == CurveColumn(names, rows, available, "PHIT")
      ensures sw == CurveColumn(names, rows, available, "SW")
      ensures phiT == AllMissing(|rows|) && phiE == AllMissing(|rows|) && perm == AllMissing(|rows|)
      ensures litho == [] && rhoMatrix == [] && isPay == [] && netPay == 0
    {
      var n := |rows|;
      depthFt := seq(n, i requires 0 <= i < n => rows[i].depth);
      depthM := seq(n, i requires 0 <= i < n => rows[i].depth * 0.3048);
      this.available := available;
      gr := CurveColumn(names, rows, available, "GR");
      rhob := CurveColumn(names, rows, available, "RHOB");
      nphi := CurveColumn(names, rows, available, "NPHI");
      pef := CurveColumn(names, rows, available, "PEF");
      rt := CurveColumn(names, rows, available, "RT");
      vsh := CurveColumn(names, rows, available, "VSH");
      phit := CurveColumn(names, rows, available, "PHIT");
      sw := CurveColumn(names, rows, available, "SW");
      phiT, phiE, perm := AllMissing(n), AllMissing(n), AllMissing(n);
      litho, rhoMatrix, isPay, netPay := [], [], [], 0;
    }

    /** The smoothing loop over GR, RHOB and NPHI. */
    method SmoothCurves(filter: MedianFilter)
      requires Valid()
      modifies this`gr, this`rhob, this`nphi
      ensures Valid()
      ensures gr == SmoothIfDense(old(gr), filter)
      ensures rhob == SmoothIfDense(old(rhob), filter)
      ensures nphi == SmoothIfDense(old(nphi), filter)
    {
      gr := SmoothWhenDense(gr, filter);
      rhob := SmoothWhenDense(rhob, filter);
      nphi := SmoothWhenDense(nphi, filter);
    }

    /** The VSH stage. */
    method ComputeVsh(stats: Statistics, t: Transcendentals)
      requires Valid()
      modifies this`vsh
      ensures Valid()
      ensures vsh == VshColumn(old(vsh), gr, stats, t)
    {
      if AnyValid(vsh) {
        // pre-calculated values are kept
      } else if AnyValid(gr) {
        vsh := LarionovColumn(gr, stats, t);
      } else {
        vsh := AllMissing(|gr|);
      }
    }

    /** The lithology loop: one label and one matrix density per row. */
    method ClassifyRows(dominant: Matrix, dominantRho: real)
      requires Valid()
      modifies this`litho, this`rhoMatrix
      ensures Valid()
      ensures |litho| == |depthFt| && |rhoMatrix| == |depthFt|
      ensures forall i :: 0 <= i < |depthFt| ==>
                litho[i] == ClassifyAdvanced(vsh[i], rhob[i], nphi[i], pef[i], dominant) &&
                rhoMatrix[i] == RhoMatrixFor(litho[i], dominantRho)
    {
      var labels: seq<Lithology> := [];
      var densities: seq<real> := [];
      var i := 0;
      while i < |depthFt|
        invariant 0 <= i <= |depthFt| && |labels| == i && |densities| == i
        invariant forall j :: 0 <= j < i ==>
                    labels[j] == ClassifyAdvanced(vsh[j], rhob[j], nphi[j], pef[j], dominant) &&
                    densities[j] == RhoMatrixFor(labels[j], dominantRho)
      {
        var l := ClassifyAdvanced(vsh[i], rhob[i], nphi[i], pef[i], dominant);
        labels := labels + [l];
        densities := densities + [RhoMatrixFor(l, dominantRho)];
        i := i + 1;
      }
      litho, rhoMatrix := labels, densities;
    }

    /** The PHI_T and PHI_E stages. */
    method ComputePorosity(t: Transcendentals)
      requires Valid() && |rhoMatrix| == |depthFt|
      requires forall i :: 0 <= i < |rhoMatrix| ==> rhoMatrix[i] != RHO_FLUID
      modifies this`phiT, this`phiE
      ensures Valid()
      ensures phiT == TotalPorosity(phit, rhob, nphi, vsh, rhoMatrix, t)
      ensures phiE == EffectivePorosityColumn(phiT, vsh)
    {
      var n := |depthFt|;
      var total := AllMissing(n);
      if AnyValid(phit) {
        total := phit;
      } else if AnyValid(rhob) {
        var i := 0;
        while i < n
          invariant 0 <= i <= n && |total| == n
          invariant forall j :: 0 <= j < i ==> total[j] == TotalPorosityAt(rhob[j], nphi[j], vsh[j], rhoMatrix[j], t)
          invariant forall j :: i <= j < n ==> total[j].None?
        {
          if rhob[i].Some? {
            var p;
            if nphi[i].Some? {
              p := PorosityNeutronDensity(nphi[i], rhob[i], rhoMatrix[i], RHO_FLUID, vsh[i], t);
            } else {
              p := PorosityDensity(rhob[i], rhoMatrix[i], RHO_FLUID, vsh[i], RHO_SHALE);
            }
            total := total[i := p];
          }
          i := i + 1;
        }
      }
      var effective := AllMissing(n);
      var i := 0;
      while i < n
        invariant 0 <= i <= n && |effective| == n
        invariant forall j :: 0 <= j < i ==>
                    effective[j] == (if total[j].Some? && vsh[j].Some? then EffectivePorosity(total[j], vsh[j]) else None)
        invariant forall j :: i <= j < n ==> effective[j].None?
      {
        if total[i].Some? && vsh[i].Some? {
          effective := effective[i := EffectivePorosity(total[i], vsh[i])];
        }
        i := i + 1;
      }
      phiT, phiE := total, effective;
    }

    /** The SW stage: the column is cleared first, so the check for
        pre-calculated values that follows never succeeds. */
    method ComputeSaturation(a: real, m: real, n: real, rw: real, t: Transcendentals)
      requires Valid() && n != 0.0
      modifies this`sw
      ensures Valid()
      ensures sw == SaturationColumn(phiE, rt, a, m, n, rw, t)
    {
      var rows := |depthFt|;
      sw := AllMissing(rows);
      if AnyValid(sw) {
        // the pre-calculated branch
      } else if AnyValid(rt) {
        var computed := AllMissing(rows);
        var i := 0;
        while i < rows
          invariant 0 <= i <= rows && |computed| == rows
          invariant forall j :: 0 <= j < i ==> computed[j] == WaterSaturation(phiE[j], rt[j], a, m, n, rw, t)
        {
          computed := computed[i := WaterSaturation(phiE[i], rt[i], a, m, n, rw, t)];
          i := i + 1;
        }
        sw := computed;
      }
    }

    /** The PERM loop. */
    method ComputePermeability()
      requires Valid()
      modifies this`perm
      ensures Valid()
      ensures perm == PermeabilityColumn(phiE, vsh)
    {
      var rows := |depthFt|;
      var computed := AllMissing(rows);
      var i := 0;
      while i < rows
        invariant 0 <= i <= rows && |computed| == rows
        invariant forall j :: 0 <= j < i ==> computed[j] == PermeabilityKozeny(phiE[j], vsh[j])
      {
        computed := computed[i := PermeabilityKozeny(phiE[i], vsh[i])];
        i := i + 1;
      }
      perm := computed;
    }

    /** IS_PAY and the pay count. */
    method ComputeNetPay(phiCutoff: real, vshCutoff: real, swCutoff: real)
      requires Valid()
      modifies this`isPay, this`netPay
      ensures Valid()
      ensures isPay == NetPay(phiE, vsh, sw, rt, phiCutoff, vshCutoff, swCutoff)
      ensures netPay == PayCount(isPay)
    {
      isPay := NetPay(phiE, vsh, sw, rt, phiCutoff, vshCutoff, swCutoff);
      netPay := PayCount(isPay);
    }

    /** The well after steps 2 and 3, from the mapped curves `gr0`, `rhob0`,
        `nphi0` and `vsh0`: GR, RHOB and NPHI smoothed when dense, VSH
        computed unless the file had one, and a label and a matrix density
        per row. */
    predicate Classified(gr0: Column, rhob0: Column, nphi0: Column, vsh0: Column,
                         matrix: Matrix, rho: real, b: Backends)
      reads this`gr, this`rhob, this`nphi, this`vsh, this`litho, this`rhoMatrix
    {
      && |gr0| == |rhob0| == |nphi0| == |vsh0| == |depthFt|
      && |gr| == |rhob| == |nphi| == |pef| == |vsh| == |depthFt|
      && gr == SmoothIfDense(gr0, b.filter)
      && rhob == SmoothIfDense(rhob0, b.filter)
      && nphi == SmoothIfDense(nphi0, b.filter)
      && vsh == VshColumn(vsh0, gr, b.stats, b.t)
      && |litho| == |depthFt| && |rhoMatrix| == |depthFt|
      && (forall i :: 0 <= i < |depthFt| ==>
            litho[i] == ClassifyAdvanced(vsh[i], rhob[i], nphi[i], pef[i], matrix) &&
            rhoMatrix[i] == RhoMatrixFor(litho[i], rho) &&
            2.65 <= rhoMatrix[i] <= 2.87)
    }

    /** The well after step 4, from its own curves: PHI_T, PHI_E, SW with
        the Archie parameters, PERM and the net-pay flags with the cut-offs. */
    predicate Computed(a: real, m: real, n: real, rw: real,
                       phiCutoff: real, vshCutoff: real, swCutoff: real, t: Transcendentals)
      reads this
    {
      && Valid() && |rhoMatrix| == |depthFt| && n != 0.0
      && (forall i :: 0 <= i < |rhoMatrix| ==> rhoMatrix[i] != RHO_FLUID)
      && phiT == TotalPorosity(phit, rhob, nphi, vsh, rhoMatrix, t)
      && phiE == EffectivePorosityColumn(phiT, vsh)
      && sw == SaturationColumn(phiE, rt, a, m, n, rw, t)
      && perm == PermeabilityColumn(phiE, vsh)
      && isPay == NetPay(phiE, vsh, sw, rt, phiCutoff, vshCutoff, swCutoff)
      && netPay == PayCount(isPay)
    }

    /** Steps 2 and 3 in the order of the per-well loop, with the matrix
        detected in step 1. */
    method ClassifyStages(matrix: Matrix, rho: real, b: Backends)
      requires Valid() && rho == MatrixDensity(matrix)
      modifies this`gr, this`rhob, this`nphi, this`vsh, this`litho, this`rhoMatrix
      ensures Valid()
      ensures Classified(old(gr), old(rhob), old(nphi), old(vsh), matrix, rho, b)
    {
      SmoothCurves(b.filter);
      ComputeVsh(b.stats, b.t);
      ClassifyRows(matrix, rho);
      forall i | 0 <= i < |rhoMatrix| ensures 2.65 <= rhoMatrix[i] <= 2.87 {
        RhoMatrixRange(litho[i], matrix);
      }
    }

    /** Step 4 in the order of the per-well loop, with the Archie parameters
        and the cut-offs of the configuration. */
    method PetrophysicsStages(a: real, m: real, n: real, rw: real,
                              phiCutoff: real, vshCutoff: real, swCutoff: real, t: Transcendentals)
      requires Valid() && |rhoMatrix| == |depthFt| && n != 0.0
      requires forall i :: 0 <= i < |rhoMatrix| ==> 2.65 <= rhoMatrix[i] <= 2.87
      modifies this`phiT, this`phiE, this`sw, this`perm, this`isPay, this`netPay
      ensures Computed(a, m, n, rw, phiCutoff, vshCutoff, swCutoff, t)
    {
      ComputePorosity(t);
      ComputeSaturation(a, m, n, rw, t);
      ComputePermeability();
      ComputeNetPay(phiCutoff, vshCutoff, swCutoff);
    }

    /** Steps 2 to 4 in the order of the per-well loop. */
    method RunStages(matrix: Matrix, rho: real, a: real, m: real, n: real, rw: real,
                     phiCutoff: real, vshCutoff: real, swCutoff: real, b: Backends)
      requires Valid() && rho == MatrixDensity(matrix) && n != 0.0
      modifies this`gr, this`rhob, this`nphi, this`vsh, this`litho, this`rhoMatrix
      modifies this`phiT, this`phiE, this`sw, this`perm, this`isPay, this`netPay
      ensures Classified(old(gr), old(rhob), old(nphi), old(vsh), matrix, rho, b)
      ensures Computed(a, m, n, rw, phiCutoff, vshCutoff, swCutoff, b.t)
    {
      ClassifyStages(matrix, rho, b);
      PetrophysicsStages(a, m, n, rw, phiCutoff, vshCutoff, swCutoff, b.t);
    }

    /** The curves summarised, in order, with PERM restricted to positive
        values. */
    function SummaryCurves(): seq<(string, Column, bool)>
      reads this
    {
      [("PHI_E", phiE, false), ("VSH", vsh, false), ("SW", sw, false), ("PERM", perm, true)]
    }

    /** The summary loop; it changes nothing. */
    method Summarise() returns (entries: seq<(string, Option<CurveStats>)>)
      ensures entries == SummaryOf(SummaryCurves())
    {
      var curves := SummaryCurves();
      entries := [];
      var k := 0;
      while k < |curves|
        invariant 0 <= k <= |curves|
        invariant entries == SummaryOf(curves[..k])
      {
        var (name, c, positiveOnly) := curves[k];
        if AnyValid(c) {
          entries := entries + [(name, CurveSummary(c, positiveOnly))];
        }
        assert curves[..k + 1][..k] == curves[..k];
        k := k + 1;
      }
      assert curves[..k] == curves;
    }
  }

  /** `df[col] = smooth_curve(df[col], window=5)` when the curve has more
      than ten valid samples. */
  method SmoothWhenDense(c: Column, filter: MedianFilter) returns (r: Column)
    ensures r == SmoothIfDense(c, filter)
    ensures |r| == |c|
    ensures forall i :: 0 <= i < |c| ==> (r[i].None? <==> c[i].None?)
  {
    SmoothIfDenseSpec(c, filter);
    r := c;
    if CountValid(c) > 10 {
      r := Smoothing.SmoothCurve(c, 5, filter);
    }
  }

  /** Step 1 and 2: the depth column is found and renamed, the frame is
      cleaned, DEPTH in metres is added and the curves are mapped. */
  method BuildWell(las: LasFrame, depthCol: string) returns (w: Well)
    requires WellFormed(las) && depthCol in las.names
    ensures fresh(w) && w.Valid()
    ensures |w.depthFt| == |CleanedRows(las, depthCol)|
    ensures forall i :: 0 <= i < |w.depthFt| ==>
              w.depthFt[i] == CleanedRows(las, depthCol)[i].depth && w.depthM[i] == w.depthFt[i] * 0.3048
    ensures w.available == AvailableCurves(CURVE_ALIASES, FrameNames(las, depthCol))
    ensures w.gr == MappedCurve(las, depthCol, w.available, "GR")
    ensures w.rhob == MappedCurve(las, depthCol, w.available, "RHOB")
    ensures w.nphi == MappedCurve(las, depthCol, w.available, "NPHI")
    ensures w.pef == MappedCurve(las, depthCol, w.available, "PEF")
    ensures w.rt == MappedCurve(las, depthCol, w.available, "RT")
    ensures w.vsh == MappedCurve(las, depthCol, w.available, "VSH")
    ensures w.phit == MappedCurve(las, depthCol, w.available, "PHIT")
    ensures w.sw == MappedCurve(las, depthCol, w.available, "SW")
    ensures w.litho == [] && w.rhoMatrix == []
  {
    var names := RenameDepth(las.names, depthCol);
    var rows := CleanDepthData(DepthSamples(las, depthCol));
    CleanedRowsWidth(las, depthCol);
    var available := MapCurves(names);
    w := new Well(names, rows, available);
  }

  /** The matrix the pipeline detects, from the mapped curves before smoothing. */
  function DetectedMatrix(f: LasFrame, depthCol: string, available: map<string, string>,
                          stats: Statistics): (r: (Matrix, real))
    requires WellFormed(f) && depthCol in f.names
    ensures r.1 == MatrixDensity(r.0)
  {
    DetectDominantMatrix(MappedCurve(f, depthCol, available, "RHOB"), Some(MappedCurve(f, depthCol, available, "PEF")), Some(MappedCurve(f, depthCol, available, "GR")), stats)
  }

  /** The state the per-well loop leaves for a frame whose depth column is
      `depthCol`: the cleaned depths, the mapped curves, the dominant matrix
      and Archie parameters in the configuration (the water resistivity and
      the cut-offs as before), every stage's column and the summary. */
  predicate Pipelined(las: LasFrame, depthCol: string, w: Well, cfg: PetroConfig, rw: real,
                      phiCutoff: real, vshCutoff: real, swCutoff: real, b: Backends,
                      summary: seq<(string, Option<CurveStats>)>)
    requires WellFormed(las) && depthCol in las.names
    reads w, cfg
  {
    var available := w.available;
    var (matrix, rho) := DetectedMatrix(las, depthCol, available, b.stats);
    && w.Valid()
    && available == AvailableCurves(CURVE_ALIASES, FrameNames(las, depthCol))
    && |w.depthFt| == |CleanedRows(las, depthCol)|
    && (forall i :: 0 <= i < |w.depthFt| ==>
          w.depthFt[i] == CleanedRows(las, depthCol)[i].depth && w.depthM[i] == w.depthFt[i] * 0.3048)
    && cfg.dominantMatrix == matrix && cfg.dominantRho == rho
    && cfg.a == 1.0 && cfg.m == 2.0 && cfg.n == 2.0
    && cfg.rw == rw && cfg.phiCutoff == phiCutoff && cfg.vshCutoff == vshCutoff && cfg.swCutoff == swCutoff
    && w.pef == MappedCurve(las, depthCol, available, "PEF")
    && w.rt == MappedCurve(las, depthCol, available, "RT")
    && w.phit == MappedCurve(las, depthCol, available, "PHIT")
    && w.Classified(MappedCurve(las, depthCol, available, "GR"), MappedCurve(las, depthCol, available, "RHOB"),
                    MappedCurve(las, depthCol, available, "NPHI"), MappedCurve(las, depthCol, available, "VSH"),
                    matrix, rho, b)
    && w.Computed(cfg.a, cfg.m, cfg.n, cfg.rw, cfg.phiCutoff, cfg.vshCutoff, cfg.swCutoff, b.t)
    && summary == SummaryOf(w.SummaryCurves())
  }

  /** Steps 1 to 4 of the per-well loop and the summary, once the depth
      column is known. */
  method ProcessFrame(las: LasFrame, depthCol: string, cfg: PetroConfig, backends: Backends)
    returns (w: Well, summary: seq<(string, Option<CurveStats>)>)
    requires WellFormed(las) && depthCol in las.names
    modifies cfg
    ensures fresh(w)
    ensures Pipelined(las, depthCol, w, cfg, old(cfg.rw), old(cfg.phiCutoff), old(cfg.vshCutoff),
                      old(cfg.swCutoff), backends, summary)
  {
    w := BuildWell(las, depthCol);
    var (matrix, rho) := DetectDominantMatrix(w.rhob, Some(w.pef), Some(w.gr), backends.stats);
    cfg.ApplyDominantMatrix(matrix, rho);
    w.RunStages(cfg.dominantMatrix, cfg.dominantRho, cfg.a, cfg.m, cfg.n, cfg.rw,
                cfg.phiCutoff, cfg.vshCutoff, cfg.swCutoff, backends);
    summary := w.Summarise();
  }

  /** The per-well loop body: the depth column is resolved and the frame
      processed. A frame without columns has no depth column and the well is
      abandoned before the configuration is touched. */
  method ProcessWell(las: LasFrame, cfg: PetroConfig, backends: Backends)
    returns (well: Option<Well>, summary: seq<(string, Option<CurveStats>)>)
    requires WellFormed(las)
    modifies cfg
    ensures well.None? <==> las.names == []
    ensures well.None? ==> unchanged(cfg) && summary == []
    ensures well.Some? ==>
      && fresh(well.value)
      && Pipelined(las, DepthColumn(las.names).value, well.value, cfg, old(cfg.rw), old(cfg.phiCutoff),
                   old(cfg.vshCutoff), old(cfg.swCutoff), backends, summary)
  {
    var depthCol := ResolveDepthColumn(las.names);
    if depthCol.None? {
      return None, [];
    }
    var w;
    w, summary := ProcessFrame(las, depthCol.value, cfg, backends);
    well := Some(w);
  }
}
