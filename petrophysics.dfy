/** The scalar formulas of `PetroPhysics` (app/modules/petrofisica.py):
    shale volume, porosity, water saturation and permeability. Each returns
    `None` (NaN) when a required input is missing and clamps its result the
    way the source's `np.clip` does. */
module PetroPhysics {
  import opened Values
  import opened Numerics
  import opened RealArith

  /** `rho_sh`, the default shale density of `calc_porosity_density`. */
  const RHO_SHALE: real := 2.7

  // ---------------------------------------------------------------- Larionov

  /** The clipped gamma-ray index `np.clip((gr - gr_min) / (gr_max - gr_min), 0, 1)`.
      numpy divides by a zero range without raising: a positive numerator
      gives +inf (clipped to 1), a negative one -inf (clipped to 0), and
      0/0 gives NaN, which the clip passes through. */
  function GammaRayIndex(gr: real, grMin: real, grMax: real): (igr: Option<real>)
    ensures igr.None? <==> grMin == grMax && gr == grMin
    ensures igr.Some? ==> 0.0 <= igr.value <= 1.0
  {
    if grMax != grMin then Some(Clip((gr - grMin) / (grMax - grMin), 0.0, 1.0))
    else if gr > grMin then Some(1.0)
    else if gr < grMin then Some(0.0)
    else None
  }

  /** `calc_vsh_larionov`: `vsh = clip(0.083 * (2^(3.7 * igr) - 1), 0, 1)`. */
  function VshLarionov(gr: Option<real>, grMin: real, grMax: real, t: Transcendentals): (vsh: Option<real>)
    ensures vsh.None? <==> gr.None? || (grMin == grMax && gr.value == grMin)
    ensures vsh.Some? ==> 0.0 <= vsh.value <= 1.0
  {
    match gr
    case None => None
    case Some(g) =>
      match GammaRayIndex(g, grMin, grMax)
      case None => None
      case Some(igr) => Some(Clip(0.083 * (t.exp2(3.7 * igr) - 1.0), 0.0, 1.0))
  }

  /** On a proper range, a reading at or below the clean-sand line gives no
      shale at all. */
  lemma VshCleanSand(g: real, grMin: real, grMax: real, t: Transcendentals)
    requires Exp2Laws(t)
    requires grMin < grMax && g <= grMin
    ensures VshLarionov(Some(g), grMin, grMax, t) == Some(0.0)
  {
    DivMono(g - grMin, 0.0, grMax - grMin);
  }

  /** With a proper range, shale volume never decreases as gamma ray rises. */
  lemma VshMonotone(g1: real, g2: real, grMin: real, grMax: real, t: Transcendentals)
    requires Exp2Laws(t)
    requires grMin < grMax && g1 <= g2
    ensures VshLarionov(Some(g1), grMin, grMax, t).value <= VshLarionov(Some(g2), grMin, grMax, t).value
  {
    var d := grMax - grMin;
    var x1, x2 := (g1 - grMin) / d, (g2 - grMin) / d;
    DivMono(g1 - grMin, g2 - grMin, d);
    ClipMonotone(x1, x2, 0.0, 1.0);
    var i1, i2 := Clip(x1, 0.0, 1.0), Clip(x2, 0.0, 1.0);
    assert t.exp2(3.7 * i1) <= t.exp2(3.7 * i2);
    ClipMonotone(0.083 * (t.exp2(3.7 * i1) - 1.0), 0.083 * (t.exp2(3.7 * i2) - 1.0), 0.0, 1.0);
  }

  // ---------------------------------------------------------------- Porosity

  /** `calc_porosity_density`: density porosity with an optional shale
      correction, clipped to [0, 0.45]. A missing shale volume counts as 0. */
  function PorosityDensity(rhob: Option<real>, rhoMa: real, rhoFl: real, vsh: Option<real>, rhoSh: real): (phi: Option<real>)
    requires rhoMa != rhoFl
    ensures phi.None? <==> rhob.None?
    ensures phi.Some? ==> 0.0 <= phi.value <= 0.45
  {
    match rhob
    case None => None
    case Some(rb) =>
      var v := if vsh.None? then 0.0 else vsh.value;
      var phiD := (rhoMa - rb) / (rhoMa - rhoFl);
      var corrected := if v > 0.0 then phiD - v * ((rhoMa - rhoSh) / (rhoMa - rhoFl)) else phiD;
      Some(Clip(corrected, 0.0, 0.45))
  }

  /** Density porosity before any shale correction. */
  function UncorrectedPorosity(rb: real, rhoMa: real, rhoFl: real): (phi: real)
    requires rhoMa != rhoFl
    ensures 0.0 <= phi <= 0.45
  {
    Clip((rhoMa - rb) / (rhoMa - rhoFl), 0.0, 0.45)
  }

  /** A missing shale volume is the same as no shale; a non-positive one,
      or a matrix as dense as shale, skips the correction. */
  lemma PorosityDensityCorrectionSkipped(rb: real, rhoMa: real, rhoFl: real, vsh: Option<real>, rhoSh: real)
    requires rhoMa != rhoFl
    requires vsh.None? || vsh.value <= 0.0 || rhoMa == rhoSh
    ensures PorosityDensity(Some(rb), rhoMa, rhoFl, vsh, rhoSh) == Some(UncorrectedPorosity(rb, rhoMa, rhoFl))
  {
    if vsh.Some? && vsh.value > 0.0 {
      assert (rhoMa - rhoSh) / (rhoMa - rhoFl) == 0.0;
    }
  }

  /** When the matrix is denser than both fluid and shale, more shale can only
      lower density porosity. */
  lemma ShaleLowersPorosity(rb: real, rhoMa: real, rhoFl: real, v1: real, v2: real, rhoSh: real)
    requires rhoFl < rhoMa && rhoSh < rhoMa
    requires 0.0 <= v1 <= v2
    ensures PorosityDensity(Some(rb), rhoMa, rhoFl, Some(v2), rhoSh).value
         <= PorosityDensity(Some(rb), rhoMa, rhoFl, Some(v1), rhoSh).value
  {
    var phiD := (rhoMa - rb) / (rhoMa - rhoFl);
    var phiSh := (rhoMa - rhoSh) / (rhoMa - rhoFl);
    DivPos(rhoMa - rhoSh, rhoMa - rhoFl);
    MulMono(v1, v2, phiSh);
    MulNonneg(v1, phiSh);
    var s1, s2 := v1 * phiSh, v2 * phiSh;
    assert 0.0 <= s1 <= s2;
    var c1 := if v1 > 0.0 then phiD - s1 else phiD;
    var c2 := if v2 > 0.0 then phiD - s2 else phiD;
    assert c2 <= c1;
    ClipMonotone(c2, c1, 0.0, 0.45);
    assert PorosityDensity(Some(rb), rhoMa, rhoFl, Some(v1), rhoSh).value == Clip(c1, 0.0, 0.45);
    assert PorosityDensity(Some(rb), rhoMa, rhoFl, Some(v2), rhoSh).value == Clip(c2, 0.0, 0.45);
  }

  /** With the matrix denser than the fluid, a denser reading never gives
      more density porosity. */
  lemma DensityLowersPorosity(rb1: real, rb2: real, rhoMa: real, rhoFl: real, vsh: Option<real>, rhoSh: real)
    requires rhoFl < rhoMa && rb1 <= rb2
    ensures PorosityDensity(Some(rb2), rhoMa, rhoFl, vsh, rhoSh).value
         <= PorosityDensity(Some(rb1), rhoMa, rhoFl, vsh, rhoSh).value
  {
    var d := rhoMa - rhoFl;
    var p1, p2 := (rhoMa - rb1) / d, (rhoMa - rb2) / d;
    DivMono(rhoMa - rb2, rhoMa - rb1, d);
    var v := if vsh.None? then 0.0 else vsh.value;
    var s := v * ((rhoMa - rhoSh) / d);
    var c1 := if v > 0.0 then p1 - s else p1;
    var c2 := if v > 0.0 then p2 - s else p2;
    ClipMonotone(c2, c1, 0.0, 0.45);
  }

  /** `np.sqrt((a**2 + b**2) / 2)`. */
  function RootMeanSquare(x: real, y: real, t: Transcendentals): real {
    t.sqrt((x * x + y * y) / 2.0)
  }

  /** The root mean square of two non-negative values lies between them. */
  lemma RootMeanSquareBetween(x: real, y: real, t: Transcendentals)
    requires SqrtLaws(t)
    requires 0.0 <= x <= y
    ensures x <= RootMeanSquare(x, y, t) <= y
  {
    var q := (x * x + y * y) / 2.0;
    SquareNonneg(x);
    SquareMono(x, y);
    var s := t.sqrt(q);
    assert 0.0 <= s && s * s == q;
    assert x * x <= q <= y * y;
    SquareMonotone(x, s);
    SquareMonotone(s, y);
  }

  /** `calc_porosity_neutron_density`: the root mean square of neutron and
      density porosity, clipped to [0, 0.45]. */
  function PorosityNeutronDensity(nphi: Option<real>, rhob: Option<real>, rhoMa: real, rhoFl: real,
                                  vsh: Option<real>, t: Transcendentals): (phi: Option<real>)
    requires rhoMa != rhoFl
    ensures phi.None? <==> nphi.None? || rhob.None?
    ensures phi.Some? ==> 0.0 <= phi.value <= 0.45
  {
    if nphi.None? || rhob.None? then None
    else
      var v := if vsh.None? then Some(0.0) else vsh;
      var phiD := PorosityDensity(rhob, rhoMa, rhoFl, v, RHO_SHALE).value;
      Some(Clip(RootMeanSquare(nphi.value, phiD, t), 0.0, 0.45))
  }

  /** For a non-negative neutron reading the result is a mean: it lies
      between the neutron and the density porosity. Equal readings therefore
      give that porosity back. */
  lemma NeutronDensityIsAMean(nphi: real, rb: real, rhoMa: real, rhoFl: real, vsh: Option<real>, t: Transcendentals)
    requires SqrtLaws(t)
    requires rhoMa != rhoFl && 0.0 <= nphi
    ensures var d := PorosityDensity(Some(rb), rhoMa, rhoFl, vsh, RHO_SHALE).value;
            var phi := PorosityNeutronDensity(Some(nphi), Some(rb), rhoMa, rhoFl, vsh, t).value;
            (if nphi <= d then nphi else d) <= phi <= (if nphi <= d then d else nphi)
  {
    var v := if vsh.None? then Some(0.0) else vsh;
    var d := PorosityDensity(Some(rb), rhoMa, rhoFl, v, RHO_SHALE).value;
    assert d == PorosityDensity(Some(rb), rhoMa, rhoFl, vsh, RHO_SHALE).value;
    var r := RootMeanSquare(nphi, d, t);
    if nphi <= d {
      RootMeanSquareBetween(nphi, d, t);
    } else {
      RootMeanSquareBetween(d, nphi, t);
      assert r == RootMeanSquare(d, nphi, t) by {
        assert nphi * nphi + d * d == d * d + nphi * nphi;
      }
    }
  }

  /** `calc_effective_porosity`: `phi_total * (1 - vsh)` when both are present. */
  function EffectivePorosity(phiTotal: Option<real>, vsh: Option<real>): (phiE: Option<real>)
    ensures phiE.Some? <==> phiTotal.Some? && vsh.Some?
    ensures phiE.Some? && 0.0 <= phiTotal.value && 0.0 <= vsh.value <= 1.0 ==>
              0.0 <= phiE.value <= phiTotal.value
    ensures phiE.Some? && vsh.value == 0.0 ==> phiE.value == phiTotal.value
    ensures phiE.Some? && vsh.value == 1.0 ==> phiE.value == 0.0
  {
    if phiTotal.None? || vsh.None? then None
    else
      var phiT, v := phiTotal.value, vsh.value;
      ShaleReductionBounds(phiT, v);
      Some(ShaleReduced(phiT, v))
  }

  /** `phi * (1 - vsh)`, the porosity left once shale is taken out. */
  function ShaleReduced(phi: real, v: real): real {
    phi * (1.0 - v)
  }

  lemma ShaleReductionBounds(phi: real, v: real)
    ensures 0.0 <= phi && 0.0 <= v <= 1.0 ==> 0.0 <= ShaleReduced(phi, v) <= phi
  {
    if 0.0 <= phi && 0.0 <= v <= 1.0 {
      MulNonneg(phi, v);
      MulNonneg(phi, 1.0 - v);
    }
  }

  // ---------------------------------------------------------------- Archie

  /** `calc_water_saturation`: Archie's `(a * rw / (phi^m * rt))^(1/n)`,
      clipped to [0, 1]. NaN is checked first; a non-positive porosity or
      resistivity then means fully water saturated. */
  function WaterSaturation(phi: Option<real>, rt: Option<real>, a: real, m: real, n: real, rw: real,
                           t: Transcendentals): (sw: Option<real>)
    requires n != 0.0
    ensures sw.None? <==> phi.None? || rt.None?
    ensures phi.Some? && rt.Some? && (phi.value <= 0.0 || rt.value <= 0.0) ==> sw == Some(1.0)
    ensures sw.Some? ==> 0.0 <= sw.value <= 1.0
  {
    if phi.None? || rt.None? then None
    else if phi.value <= 0.0 || rt.value <= 0.0 then Some(1.0)
    else
      var denom := t.pow(phi.value, m) * rt.value;
      Some(Clip(t.pow(a * rw / denom, 1.0 / n), 0.0, 1.0))
  }

  /** With positive n, a·rw and porosity, a higher deep resistivity never
      raises the computed saturation. */
  lemma SaturationFallsWithResistivity(phi: real, rt1: real, rt2: real, a: real, m: real, n: real, rw: real,
                                       t: Transcendentals)
    requires PowLaws(t)
    requires 0.0 < n && 0.0 < a * rw && 0.0 < phi && 0.0 < rt1 <= rt2
    ensures WaterSaturation(Some(phi), Some(rt2), a, m, n, rw, t).value
         <= WaterSaturation(Some(phi), Some(rt1), a, m, n, rw, t).value
  {
    var p := t.pow(phi, m);
    var k := a * rw;
    var b1, b2 := k / (p * rt1), k / (p * rt2);
    MulPos(p, rt1);
    MulMono(rt1, rt2, p);
    assert 0.0 < p * rt1 <= p * rt2;
    DivAnti(k, p * rt1, p * rt2);
    DivPos(k, p * rt2);
    assert 0.0 < 1.0 / n;
    assert t.pow(b2, 1.0 / n) <= t.pow(b1, 1.0 / n);
    ClipMonotone(t.pow(b2, 1.0 / n), t.pow(b1, 1.0 / n), 0.0, 1.0);
  }

  // ---------------------------------------------------------------- Kozeny

  /** The Kozeny-type proxy `100 * phi^3 / (1 - phi)^2` before clipping,
      with the square divided out one factor at a time. */
  function Kozeny(phiEff: real): (k: real)
    requires 0.0 < phiEff < 1.0
    ensures 0.0 < k
  {
    var c := 100.0 * (phiEff * phiEff * phiEff);
    CubePos(phiEff);
    DivPos(c, 1.0 - phiEff);
    DivPos(c / (1.0 - phiEff), 1.0 - phiEff);
    c / (1.0 - phiEff) / (1.0 - phiEff)
  }

  /** The proxy grows with porosity on (0, 1). */
  lemma KozenyMonotone(p1: real, p2: real)
    requires 0.0 < p1 <= p2 < 1.0
    ensures Kozeny(p1) <= Kozeny(p2)
  {
    var c1, c2 := 100.0 * (p1 * p1 * p1), 100.0 * (p2 * p2 * p2);
    CubeMono(p1, p2);
    CubePos(p1);
    DivMono(c1, c2, 1.0 - p1);
    DivAnti(c2, 1.0 - p2, 1.0 - p1);
    DivPos(c2, 1.0 - p2);
    DivMono(c1 / (1.0 - p1), c2 / (1.0 - p2), 1.0 - p1);
    DivAnti(c2 / (1.0 - p2), 1.0 - p2, 1.0 - p1);
  }

  /** `calc_permeability_kozeny`: the shale-reduced porosity
      `phi * (1 - vsh)` fed to the proxy and clipped to [0, 10000]; zero when
      `phi` is not positive or the reduced porosity leaves (0, 1). */
  function PermeabilityKozeny(phi: Option<real>, vsh: Option<real>): (k: Option<real>)
    ensures k.None? <==> phi.None? || vsh.None?
    ensures k.Some? ==> 0.0 <= k.value <= 10000.0
    ensures k.Some? ==> (0.0 < k.value <==> 0.0 < phi.value && 0.0 < ShaleReduced(phi.value, vsh.value) < 1.0)
  {
    if phi.None? || vsh.None? then None
    else if phi.value <= 0.0 then Some(0.0)
    else
      var phiEff := ShaleReduced(phi.value, vsh.value);
      if phiEff <= 0.0 || phiEff >= 1.0 then Some(0.0)
      else Some(Clip(Kozeny(phiEff), 0.0, 10000.0))
  }

  lemma ShaleReducedMono(p1: real, p2: real, v: real)
    requires 0.0 < p1 <= p2 && 0.0 <= v < 1.0
    ensures 0.0 < ShaleReduced(p1, v) <= ShaleReduced(p2, v)
  {
    MulPos(p1, 1.0 - v);
    MulMono(p1, p2, 1.0 - v);
  }

  /** At a fixed shale volume below 1, permeability does not fall as porosity
      rises, as long as the reduced porosity stays below 1. */
  lemma PermeabilityMonotone(phi1: real, phi2: real, vsh: real)
    requires 0.0 <= vsh < 1.0 && phi1 <= phi2 && ShaleReduced(phi2, vsh) < 1.0
    ensures PermeabilityKozeny(Some(phi1), Some(vsh)).value <= PermeabilityKozeny(Some(phi2), Some(vsh)).value
  {
    if 0.0 < phi1 {
      var e1, e2 := ShaleReduced(phi1, vsh), ShaleReduced(phi2, vsh);
      ShaleReducedMono(phi1, phi2, vsh);
      KozenyMonotone(e1, e2);
      ClipMonotone(Kozeny(e1), Kozeny(e2), 0.0, 10000.0);
    }
  }

  /** A numeric instance of the density formula: 2.66 g/cc in limestone
      (2.71) with fresh water (1.0) and 20% shale gives 0.048 / 1.71, about 0.028. */
  lemma PorosityDensityExample()
    ensures PorosityDensity(Some(2.66), 2.71, 1.0, Some(0.2), RHO_SHALE) == Some(0.048 / 1.71)
  {}
}
