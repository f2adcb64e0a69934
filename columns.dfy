/** The column-at-a-time rules of the per-well pipeline (app/main.py):
    which rows of VSH, PHI_T, PHI_E, SW, PERM and IS_PAY get a value, and
    from what. Each function is what one stage leaves in its column; the
    `Well` methods of module WellPipeline are proved to compute them. */
module WellColumns {
  import opened Values
  import opened Numerics
  import opened Config
  import opened PetroPhysics
  import opened Smoothing

  // ------------------------------------------------------------ smoothing

  /** One pass of the smoothing loop: a curve with more than ten valid
      samples is smoothed with a window of five. */
  function SmoothIfDense(c: Column, filter: MedianFilter): Column {
    if CountValid(c) > 10 then Smoothed(c, 5, filter) else c
  }

  /** Smoothing keeps every row and every missing position, leaves sparse
      curves alone and otherwise replaces the valid samples by the filter
      output. */
  lemma SmoothIfDenseSpec(c: Column, filter: MedianFilter)
    ensures |SmoothIfDense(c, filter)| == |c|
    ensures forall i :: 0 <= i < |c| ==> (SmoothIfDense(c, filter)[i].None? <==> c[i].None?)
    ensures CountValid(c) <= 10 ==> SmoothIfDense(c, filter) == c
    ensures CountValid(c) > 10 ==> DropMissing(SmoothIfDense(c, filter)) == filter(DropMissing(c), 5)
  {
    SmoothedSpec(c, 5, filter);
  }

  // ------------------------------------------------------------ VSH

  /** `df['GR'].apply(calc_vsh_larionov)` with the 2nd and 98th percentiles
      of the valid gamma-ray values as clean and shale lines. */
  function LarionovColumn(gr: Column, stats: Statistics, t: Transcendentals): (vsh: Column)
    ensures |vsh| == |gr|
  {
    var valid := DropMissing(gr);
    var grMin, grMax := stats.quantile(valid, 0.02), stats.quantile(valid, 0.98);
    seq(|gr|, i requires 0 <= i < |gr| => VshLarionov(gr[i], grMin, grMax, t))
  }

  /** The VSH stage: a curve with any valid value is kept, else Larionov on
      GR, else all missing. */
  function VshColumn(vsh: Column, gr: Column, stats: Statistics, t: Transcendentals): (r: Column)
    requires |vsh| == |gr|
    ensures |r| == |gr|
  {
    if AnyValid(vsh) then vsh
    else if AnyValid(gr) then LarionovColumn(gr, stats, t)
    else AllMissing(|gr|)
  }

  /** Pre-calculated VSH wins outright; otherwise a row has a shale volume,
      in [0, 1], exactly when it has a gamma-ray value off the degenerate
      line of a well whose two percentiles coincide. */
  lemma VshPrecedence(vsh: Column, gr: Column, stats: Statistics, t: Transcendentals)
    requires |vsh| == |gr|
    ensures AnyValid(vsh) ==> VshColumn(vsh, gr, stats, t) == vsh
    ensures !AnyValid(vsh) ==>
      var r := VshColumn(vsh, gr, stats, t);
      var valid := DropMissing(gr);
      var grMin, grMax := stats.quantile(valid, 0.02), stats.quantile(valid, 0.98);
      forall i :: 0 <= i < |gr| ==>
        && (r[i].None? <==> gr[i].None? || (grMin == grMax && gr[i].value == grMin))
        && (r[i].Some? ==> 0.0 <= r[i].value <= 1.0)
  {
    if !AnyValid(vsh) && !AnyValid(gr) {
      forall i | 0 <= i < |gr| ensures gr[i].None? {
        if gr[i].Some? { assert AnyValid(gr); }
      }
    }
  }

  // ------------------------------------------------------------ matrix density

  /** The matrix density of one row, from the substring tests on its label. */
  function RhoMatrixFor(l: Lithology, dominantRho: real): real {
    if l == Dolomita then 2.87
    else if l == Caliza || l == Carbonato then 2.71
    else if l == Lutita then 2.70
    else dominantRho
  }

  /** Dolomite, limestone and shale rows take their RHO_MATRIX grain density,
      carbonate rows the limestone one, and every other label the well's
      dominant density. */
  lemma RhoMatrixForSpec(l: Lithology, dominantRho: real)
    ensures l == Dolomita || l == Caliza || l == Lutita ==>
              LabelName(l) in RHO_MATRIX && RhoMatrixFor(l, dominantRho) == RHO_MATRIX[LabelName(l)]
    ensures l == Carbonato ==> RhoMatrixFor(l, dominantRho) == RHO_MATRIX["CALIZA"]
    ensures l == Arenisca || l == AreniscaArcillosa || l == Conglomerado ==>
              RhoMatrixFor(l, dominantRho) == dominantRho
  {}

  /** With the dominant density of a detected matrix, every row's matrix
      density lies in [2.65, 2.87], so it is never the fluid density. */
  lemma RhoMatrixRange(l: Lithology, dominant: Matrix)
    ensures 2.65 <= RhoMatrixFor(l, MatrixDensity(dominant)) <= 2.87
    ensures RhoMatrixFor(l, MatrixDensity(dominant)) != RHO_FLUID
  {}

  // ------------------------------------------------------------ porosity

  /** PHI_T of one row with bulk density: neutron-density where NPHI is
      present, density-only elsewhere; nothing without bulk density. */
  function TotalPorosityAt(rhob: Option<real>, nphi: Option<real>, vsh: Option<real>, rhoMa: real,
                           t: Transcendentals): Option<real>
    requires rhoMa != RHO_FLUID
  {
    if rhob.None? then None
    else if nphi.Some? then PorosityNeutronDensity(nphi, rhob, rhoMa, RHO_FLUID, vsh, t)
    else PorosityDensity(rhob, rhoMa, RHO_FLUID, vsh, RHO_SHALE)
  }

  /** The PHI_T stage: a pre-calculated PHIT with any valid value is copied;
      else each row with bulk density is computed; else all missing. */
  function TotalPorosity(phit: Column, rhob: Column, nphi: Column, vsh: Column, rhoMa: seq<real>,
                         t: Transcendentals): (r: Column)
    requires |rhob| == |phit| && |nphi| == |phit| && |vsh| == |phit| && |rhoMa| == |phit|
    requires forall i :: 0 <= i < |rhoMa| ==> rhoMa[i] != RHO_FLUID
    ensures |r| == |phit|
  {
    if AnyValid(phit) then phit
    else if AnyValid(rhob) then
      seq(|phit|, i requires 0 <= i < |phit| => TotalPorosityAt(rhob[i], nphi[i], vsh[i], rhoMa[i], t))
    else AllMissing(|phit|)
  }

  /** PHIT takes precedence; otherwise PHI_T is present exactly at the rows
      with bulk density, lies in [0, 0.45], and is the neutron-density value
      where NPHI is present and the density value elsewhere. */
  lemma TotalPorositySpec(phit: Column, rhob: Column, nphi: Column, vsh: Column, rhoMa: seq<real>,
                          t: Transcendentals)
    requires |rhob| == |phit| && |nphi| == |phit| && |vsh| == |phit| && |rhoMa| == |phit|
    requires forall i :: 0 <= i < |rhoMa| ==> rhoMa[i] != RHO_FLUID
    ensures AnyValid(phit) ==> TotalPorosity(phit, rhob, nphi, vsh, rhoMa, t) == phit
    ensures !AnyValid(phit) ==>
      var r := TotalPorosity(phit, rhob, nphi, vsh, rhoMa, t);
      forall i :: 0 <= i < |phit| ==>
        && (r[i].Some? <==> rhob[i].Some?)
        && (r[i].Some? ==> 0.0 <= r[i].value <= 0.45)
        && (rhob[i].Some? && nphi[i].Some? ==> r[i] == PorosityNeutronDensity(nphi[i], rhob[i], rhoMa[i], RHO_FLUID, vsh[i], t))
        && (nphi[i].None? ==> r[i] == PorosityDensity(rhob[i], rhoMa[i], RHO_FLUID, vsh[i], RHO_SHALE))
  {
    if !AnyValid(phit) && !AnyValid(rhob) {
      forall i | 0 <= i < |phit| ensures rhob[i].None? {
        if rhob[i].Some? { assert AnyValid(rhob); }
      }
    }
  }

  /** The PHI_E loop: effective porosity where PHI_T and VSH are both present. */
  function EffectivePorosityColumn(phiT: Column, vsh: Column): (r: Column)
    requires |vsh| == |phiT|
    ensures |r| == |phiT|
  {
    seq(|phiT|, i requires 0 <= i < |phiT| =>
      if phiT[i].Some? && vsh[i].Some? then EffectivePorosity(phiT[i], vsh[i]) else None)
  }

  /** PHI_E is present exactly where PHI_T and VSH are, and then is
      PHI_T·(1 − VSH), between 0 and PHI_T for a porosity in [0, 0.45] and a
      shale volume in [0, 1]. */
  lemma EffectivePorosityRows(phiT: Column, vsh: Column, i: nat)
    requires |vsh| == |phiT| && i < |phiT|
    ensures var r := EffectivePorosityColumn(phiT, vsh);
      && (r[i].Some? <==> phiT[i].Some? && vsh[i].Some?)
      && (r[i].Some? ==> r[i].value == ShaleReduced(phiT[i].value, vsh[i].value))
      && (r[i].Some? && 0.0 <= phiT[i].value && 0.0 <= vsh[i].value <= 1.0 ==> 0.0 <= r[i].value <= phiT[i].value)
  {}

  // ------------------------------------------------------------ saturation

  /** The SW stage once the column has been cleared: computed at every row
      when some RT is present, else all missing. */
  function SaturationColumn(phiE: Column, rt: Column, a: real, m: real, n: real, rw: real,
                            t: Transcendentals): (r: Column)
    requires |rt| == |phiE| && n != 0.0
    ensures |r| == |phiE|
  {
    if AnyValid(rt) then
      seq(|phiE|, i requires 0 <= i < |phiE| => WaterSaturation(phiE[i], rt[i], a, m, n, rw, t))
    else AllMissing(|phiE|)
  }

  /** SW is present exactly where PHI_E and RT are, always in [0, 1]; a
      well without resistivity has no saturation at all. */
  lemma SaturationRows(phiE: Column, rt: Column, a: real, m: real, n: real, rw: real, t: Transcendentals)
    requires |rt| == |phiE| && n != 0.0
    ensures var r := SaturationColumn(phiE, rt, a, m, n, rw, t);
      && (!AnyValid(rt) ==> !AnyValid(r))
      && forall i :: 0 <= i < |phiE| ==>
           && (r[i].Some? <==> phiE[i].Some? && rt[i].Some?)
           && (r[i].Some? ==> 0.0 <= r[i].value <= 1.0)
  {
    if !AnyValid(rt) {
      forall i | 0 <= i < |phiE| ensures rt[i].None? {
        if rt[i].Some? { assert AnyValid(rt); }
      }
    }
  }

  // ------------------------------------------------------------ permeability

  /** The PERM loop: `calc_permeability_kozeny(PHI_E, VSH)` at every row. */
  function PermeabilityColumn(phiE: Column, vsh: Column): (r: Column)
    requires |vsh| == |phiE|
    ensures |r| == |phiE|
  {
    seq(|phiE|, i requires 0 <= i < |phiE| => PermeabilityKozeny(phiE[i], vsh[i]))
  }

  /** PERM is fed PHI_E, which is already shale-reduced, so the shale volume
      is taken out twice: permeability is positive exactly when
      PHI_T·(1 − VSH)² is in (0, 1) with PHI_T·(1 − VSH) positive. */
  lemma PermeabilityReducesShaleTwice(phiT: Column, vsh: Column, i: nat)
    requires |vsh| == |phiT| && i < |phiT| && phiT[i].Some? && vsh[i].Some?
    ensures var k := PermeabilityColumn(EffectivePorosityColumn(phiT, vsh), vsh)[i];
      var once := ShaleReduced(phiT[i].value, vsh[i].value);
      k.Some? && (0.0 < k.value <==> 0.0 < once && 0.0 < ShaleReduced(once, vsh[i].value) < 1.0)
  {
    EffectivePorosityRows(phiT, vsh, i);
  }

  /** A row with PHI_T = 0.2 and VSH = 0.5 has PHI_E = 0.1, but its
      permeability is the Kozeny value of 0.05, not of 0.1. */
  lemma DoubleReductionExample()
    ensures EffectivePorosityColumn([Some(0.2)], [Some(0.5)]) == [Some(0.1)]
    ensures PermeabilityColumn([Some(0.1)], [Some(0.5)]) == [Some(Kozeny(0.05))]
    ensures Kozeny(0.05) < Kozeny(0.1)
  {
    assert ShaleReduced(0.1, 0.5) == 0.05;
    assert Kozeny(0.05) == 100.0 * (0.05 * 0.05 * 0.05) / 0.95 / 0.95;
    assert Kozeny(0.1) == 100.0 * (0.1 * 0.1 * 0.1) / 0.9 / 0.9;
  }

  // ------------------------------------------------------------ net pay

  /** `series.fillna(d)` at one row. */
  function Filled(x: Option<real>, d: real): real {
    if x.None? then d else x.value
  }

  /** IS_PAY: porosity (missing = 0) at least the cutoff and shale volume
      (missing = 1) at most the cutoff, and, in a well with some RT, water
      saturation (missing = 1) at most the cutoff. */
  function NetPay(phiE: Column, vsh: Column, sw: Column, rt: Column,
                  phiCutoff: real, vshCutoff: real, swCutoff: real): (pay: seq<bool>)
    requires |vsh| == |phiE| && |sw| == |phiE| && |rt| == |phiE|
    ensures |pay| == |phiE|
  {
    var n := |phiE|;
    if !AnyValid(rt) then
      seq(n, i requires 0 <= i < n => Filled(phiE[i], 0.0) >= phiCutoff && Filled(vsh[i], 1.0) <= vshCutoff)
    else
      seq(n, i requires 0 <= i < n =>
        Filled(phiE[i], 0.0) >= phiCutoff && Filled(vsh[i], 1.0) <= vshCutoff && Filled(sw[i], 1.0) <= swCutoff)
  }

  /** With a positive porosity cutoff and a shale cutoff below one, a pay row
      has PHI_E and VSH present and within their cutoffs, and, in a well with
      RT and a saturation cutoff below one, SW too; conversely a row whose
      present values pass every applicable cutoff is pay. */
  lemma NetPayRows(phiE: Column, vsh: Column, sw: Column, rt: Column,
                   phiCutoff: real, vshCutoff: real, swCutoff: real, i: nat)
    requires |vsh| == |phiE| && |sw| == |phiE| && |rt| == |phiE| && i < |phiE|
    requires 0.0 < phiCutoff && vshCutoff < 1.0
    ensures var pay := NetPay(phiE, vsh, sw, rt, phiCutoff, vshCutoff, swCutoff);
      && (pay[i] ==> phiE[i].Some? && phiE[i].value >= phiCutoff && vsh[i].Some? && vsh[i].value <= vshCutoff)
      && (pay[i] && AnyValid(rt) && swCutoff < 1.0 ==> sw[i].Some? && sw[i].value <= swCutoff)
      && ((phiE[i].Some? && phiE[i].value >= phiCutoff && vsh[i].Some? && vsh[i].value <= vshCutoff &&
           (AnyValid(rt) ==> sw[i].Some? && sw[i].value <= swCutoff)) ==> pay[i])
  {}

  /** Why the saturation term is dropped: without RT the SW column is all
      missing, so with a saturation cutoff below one the three-term rule
      would find no pay at all. */
  lemma NoResistivityNoSaturationTerm(phiE: Column, rt: Column, a: real, m: real, n: real, rw: real,
                                      t: Transcendentals, swCutoff: real)
    requires |rt| == |phiE| && n != 0.0
    requires !AnyValid(rt) && swCutoff < 1.0
    ensures var sw := SaturationColumn(phiE, rt, a, m, n, rw, t);
      forall i :: 0 <= i < |phiE| ==> !(Filled(sw[i], 1.0) <= swCutoff)
  {
    SaturationRows(phiE, rt, a, m, n, rw, t);
    var sw := SaturationColumn(phiE, rt, a, m, n, rw, t);
    forall i | 0 <= i < |phiE| ensures sw[i].None? {
      if sw[i].Some? { assert AnyValid(sw); }
    }
  }

  /** `df['IS_PAY'].sum()`. */
  function PayCount(pay: seq<bool>): (k: nat)
    ensures k <= |pay|
    ensures k == 0 <==> forall i :: 0 <= i < |pay| ==> !pay[i]
    ensures k == multiset(pay)[true]
  {
    if pay == [] then 0
    else
      var rest := PayCount(pay[1..]);
      assert forall i :: 1 <= i < |pay| ==> pay[i] == pay[1..][i - 1];
      assert pay == [pay[0]] + pay[1..];
      assert multiset(pay) == multiset{pay[0]} + multiset(pay[1..]);
      (if pay[0] then 1 else 0) + rest
  }
}
