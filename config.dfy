/** `PetroConfig` and the label vocabulary of app/modules/petrofisica.py:
    the constant tables, and the class-level parameters that app/main.py
    overwrites before and during each well. */
module Config {

  /** The lithology labels of the colour table (`LITHO_COLORS`). */
  datatype Lithology =
    | Arenisca | AreniscaArcillosa | Lutita | Caliza | Carbonato | Dolomita | Conglomerado

  /** The label as the source spells it. */
  function LabelName(l: Lithology): string {
    match l
    case Arenisca => "ARENISCA"
    case AreniscaArcillosa => "ARENISCA_ARCILLOSA"
    case Lutita => "LUTITA"
    case Caliza => "CALIZA"
    case Carbonato => "CARBONATO"
    case Dolomita => "DOLOMITA"
    case Conglomerado => "CONGLOMERADO"
  }

  /** The labels a dominant matrix can carry. */
  type Matrix = l: Lithology | l == Arenisca || l == Caliza || l == Dolomita
    witness Arenisca

  /** Grain densities in g/cc (`PetroConfig.RHO_MATRIX`). */
  const RHO_MATRIX: map<string, real> := map[
    "ARENISCA" := 2.65, "LUTITA" := 2.70, "CALIZA" := 2.71,
    "DOLOMITA" := 2.87, "ANHIDRITA" := 2.98, "SAL" := 2.03]

  const RHO_FLUID: real := 1.0
  const RHO_HC: real := 0.7

  /** Archie's tortuosity A, cementation exponent M and saturation exponent N. */
  datatype Archie = Archie(a: real, m: real, n: real)

  /** `PetroConfig.ARCHIE_PARAMS`. */
  const ARCHIE_PARAMS: map<string, Archie> := map[
    "ARENISCA" := Archie(1.0, 2.0, 2.0),
    "ARENISCA_CONSOLIDADA" := Archie(0.62, 2.15, 2.0),
    "CALIZA" := Archie(1.0, 2.0, 2.0),
    "DOLOMITA" := Archie(1.0, 2.0, 2.0),
    "CARBONATO_VUGULAR" := Archie(1.0, 1.8, 2.0)]

  /** The canonical density paired with each dominant matrix. */
  function MatrixDensity(m: Matrix): real {
    match m
    case Arenisca => 2.65
    case Caliza => 2.71
    case Dolomita => 2.87
  }

  /** The density paired with a matrix is its grain density in RHO_MATRIX. */
  lemma MatrixDensityIsTabled(m: Matrix)
    ensures LabelName(m) in RHO_MATRIX && MatrixDensity(m) == RHO_MATRIX[LabelName(m)]
  {}

  /** Every label the matrix detector can return is a key of ARCHIE_PARAMS,
      and all three carry A = 1, M = 2, N = 2. */
  lemma ArchieDefined(m: Matrix)
    ensures LabelName(m) in ARCHIE_PARAMS
    ensures ARCHIE_PARAMS[LabelName(m)] == Archie(1.0, 2.0, 2.0)
  {}

  /** The process-wide parameter holder. Its fields are class attributes in
      the source, assigned from the sidebar and after matrix detection. */
  class PetroConfig {
    var a: real
    var m: real
    var n: real
    var rw: real
    var dominantMatrix: Matrix
    var dominantRho: real
    var phiCutoff: real
    var vshCutoff: real
    var swCutoff: real

    /** The class-level defaults. */
    constructor ()
      ensures a == 1.0 && m == 2.0 && n == 2.0 && rw == 0.05
      ensures dominantMatrix == Arenisca && dominantRho == 2.65
      ensures phiCutoff == 0.06 && vshCutoff == 0.50 && swCutoff == 0.70
    {
      a, m, n, rw := 1.0, 2.0, 2.0, 0.05;
      dominantMatrix, dominantRho := Arenisca, 2.65;
      phiCutoff, vshCutoff, swCutoff := 0.06, 0.50, 0.70;
    }

    /** The sidebar writes its slider values into the global parameters. */
    method ApplySidebar(a': real, m': real, n': real, rw': real,
                        phiCutoff': real, vshCutoff': real, swCutoff': real)
      modifies this
      ensures a == a' && m == m' && n == n' && rw == rw'
      ensures phiCutoff == phiCutoff' && vshCutoff == vshCutoff' && swCutoff == swCutoff'
      ensures dominantMatrix == old(dominantMatrix) && dominantRho == old(dominantRho)
    {
      a, m, n, rw := a', m', n', rw';
      phiCutoff, vshCutoff, swCutoff := phiCutoff', vshCutoff', swCutoff';
    }

    /** After matrix detection: record the matrix, then overwrite A, M, N
        from ARCHIE_PARAMS when the label is a key (last write wins). */
    method ApplyDominantMatrix(matrix: Matrix, rho: real)
      modifies this
      ensures dominantMatrix == matrix && dominantRho == rho
      ensures a == 1.0 && m == 2.0 && n == 2.0
      ensures rw == old(rw)
      ensures phiCutoff == old(phiCutoff) && vshCutoff == old(vshCutoff) && swCutoff == old(swCutoff)
    {
      dominantMatrix := matrix;
      dominantRho := rho;
      var name := LabelName(matrix);
      ArchieDefined(matrix);
      if name in ARCHIE_PARAMS {
        var params := ARCHIE_PARAMS[name];
        a := params.a;
        m := params.m;
        n := params.n;
      }
    }
  }
}
