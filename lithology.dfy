/** `LithoClassifier.classify_advanced` (app/modules/petrofisica.py): a
    first-match decision tree from shale volume, bulk density, neutron
    porosity, photoelectric factor and the well's dominant matrix to a
    lithology label. */
module LithoClassifier {
  import opened Values
  import opened Config

  /** Shale volume with NaN replaced by 0.5. */
  function VshOrDefault(vsh: Option<real>): real {
    if vsh.None? then 0.5 else vsh.value
  }

  /** Bulk density with NaN replaced by the dominant matrix's grain density
      (`RHO_MATRIX.get(dominant_matrix, 2.65)`). */
  function RhobOrDefault(rhob: Option<real>, dominant: Matrix): real {
    if rhob.None? then MatrixDensity(dominant) else rhob.value
  }

  /** One of the photoelectric rules decides the label. */
  predicate PefRuleFires(pef: Option<real>, v: real) {
    pef.Some? && (pef.value > 4.5 || pef.value > 2.5 || (pef.value < 2.2 && v < 0.35))
  }

  /** The labels the classifier can produce. */
  predicate IsClassifierLabel(l: Lithology) {
    l == Lutita || l == Dolomita || l == Caliza || l == Arenisca || l == AreniscaArcillosa
  }

  /** `classify_advanced(vsh, phi, rhob, nphi, pef, dominant_matrix)`. The
      porosity argument is never read by the source and is not a parameter
      here; neutron porosity is defaulted to 0.15 and then never read either. */
  function ClassifyAdvanced(vsh: Option<real>, rhob: Option<real>, nphi: Option<real>,
                            pef: Option<real>, dominant: Matrix): (l: Lithology)
    ensures IsClassifierLabel(l)
    ensures l == Lutita <==> vsh.Some? && vsh.value > 0.7
  {
    var v := VshOrDefault(vsh);
    var rb := RhobOrDefault(rhob, dominant);
    var nphi' := if nphi.None? then 0.15 else nphi.value;
    if v > 0.7 then Lutita
    else if pef.Some? && pef.value > 4.5 then (if rb > 2.80 then Dolomita else Caliza)
    else if pef.Some? && pef.value > 2.5 then Dolomita
    else if pef.Some? && pef.value < 2.2 && v < 0.35 then Arenisca
    else if v > 0.35 then (if rb > 2.68 then Caliza else AreniscaArcillosa)
    else if rb > 2.78 then Dolomita
    else if rb > 2.68 then Caliza
    else if rb > 2.60 then
      match dominant
      case Caliza => Caliza
      case Dolomita => Dolomita
      case Arenisca => Arenisca
    else Arenisca
  }

  /** Neutron porosity never influences the label. */
  lemma ClassifyIgnoresNeutron(vsh: Option<real>, rhob: Option<real>, n1: Option<real>, n2: Option<real>,
                               pef: Option<real>, dominant: Matrix)
    ensures ClassifyAdvanced(vsh, rhob, n1, pef, dominant) == ClassifyAdvanced(vsh, rhob, n2, pef, dominant)
  {}

  /** A missing density reading behaves exactly like a reading equal to the
      dominant matrix's grain density. */
  lemma MissingDensityIsMatrixDensity(vsh: Option<real>, nphi: Option<real>, pef: Option<real>, dominant: Matrix)
    ensures ClassifyAdvanced(vsh, None, nphi, pef, dominant)
         == ClassifyAdvanced(vsh, Some(MatrixDensity(dominant)), nphi, pef, dominant)
  {}

  /** The dominant matrix can only change the label when the density is
      missing, or when it lies in (2.60, 2.68] in a clean interval (shale
      volume at most 0.35) where no photoelectric rule fired. */
  lemma DominantMatrixInfluence(vsh: Option<real>, rhob: Option<real>, nphi: Option<real>,
                                pef: Option<real>, d1: Matrix, d2: Matrix)
    requires ClassifyAdvanced(vsh, rhob, nphi, pef, d1) != ClassifyAdvanced(vsh, rhob, nphi, pef, d2)
    ensures VshOrDefault(vsh) <= 0.7
    ensures rhob.None? ||
            (2.60 < rhob.value <= 2.68 && VshOrDefault(vsh) <= 0.35 && !PefRuleFires(pef, VshOrDefault(vsh)))
  {}

  /** In a clean interval with no photoelectric rule, a missing density
      reading is classified as the dominant matrix itself. */
  lemma MissingDensityGivesMatrix(vsh: Option<real>, nphi: Option<real>, pef: Option<real>, dominant: Matrix)
    requires VshOrDefault(vsh) <= 0.35 && !PefRuleFires(pef, VshOrDefault(vsh))
    ensures ClassifyAdvanced(vsh, None, nphi, pef, dominant) == dominant
  {}

  /** A photoelectric factor above 2.5 always names a carbonate. */
  lemma HighPefIsCarbonate(vsh: Option<real>, rhob: Option<real>, nphi: Option<real>, pef: real, dominant: Matrix)
    requires VshOrDefault(vsh) <= 0.7 && pef > 2.5
    ensures ClassifyAdvanced(vsh, rhob, nphi, Some(pef), dominant) in {Dolomita, Caliza}
  {}

  /** With no photoelectric data, a shaly interval (0.35, 0.7] is either
      limestone (dense) or shaly sand. */
  lemma ShalyIntervalLabels(vsh: real, rhob: Option<real>, nphi: Option<real>, dominant: Matrix)
    requires 0.35 < vsh <= 0.7
    ensures var l := ClassifyAdvanced(Some(vsh), rhob, nphi, None, dominant);
            l == (if RhobOrDefault(rhob, dominant) > 2.68 then Caliza else AreniscaArcillosa)
  {}
}
