/** Depth and curve alias resolution of the per-well pipeline
    (app/main.py): which LAS column becomes the depth, and which LAS curve
    stands for each canonical curve name. */
module CurveMapping {
  import opened Values

  /** The depth mnemonics tried, in order. */
  const DEPTH_ALIASES: seq<string> :=
    ["DEPTH", "DEPT", "MD", "MEASURED_DEPTH", "TVD", "TVDSS", "TDEP", "MD_FT", "DEPTM", "INDEX"]

  /** The canonical curves and their mnemonics, in the order they are mapped. */
  const CURVE_ALIASES: seq<(string, seq<string>)> := [
    ("CALI", ["CALI", "CAL", "CAL1", "CALIPER"]),
    ("BS", ["BS", "BIT_SIZE"]),
    ("GR", ["GR", "GAM", "HGR", "GAMMA"]),
    ("SP", ["SP", "SSP"]),
    ("RT", ["RT", "RTRUE", "RESD", "RDEP", "ILD", "LLD", "RILD", "RD", "AT90", "AIT90", "AT60", "AIT60", "RLA4", "HRLA4"]),
    ("RM_RES", ["RESM", "LLM", "ILM", "AT30", "AIT30", "AT20", "AIT20", "RLA3", "HRLA3", "RLA2", "HRLA2"]),
    ("RXOS", ["RXOS", "RESS", "LLS", "SFL", "MSFL", "RXO", "AT10", "AIT10", "RLA1", "HRLA1"]),
    ("RMC", ["RMC", "RMCAKE", "MUDCAKE"]),
    ("RMUD", ["RMUD", "MUD_RES"]),
    ("RW", ["RW", "RWA", "WATER_RES"]),
    ("RHOB", ["RHOB", "DEN", "DENS", "RHOZ", "DENSITY"]),
    ("NPHI", ["NPHI", "NPL", "NPOS", "NEUT"]),
    ("PEF", ["PEF", "PE", "PHOTO"]),
    ("DT", ["DT", "AC", "SONIC"]),
    ("VSH", ["VSH", "VCL", "VSHALE"]),
    ("SW", ["SW", "SWE", "SWAT"]),
    ("PHIT", ["PHIT", "PHI_T", "PHIE", "PHI"])
  ]

  /** The first of `aliases`, in list order, that names a column. */
  function FirstPresent(aliases: seq<string>, names: seq<string>): (r: Option<string>)
    ensures r.Some? ==> r.value in aliases && r.value in names
    ensures r.None? <==> forall a :: a in aliases ==> a !in names
  {
    if aliases == [] then None
    else if aliases[0] in names then Some(aliases[0])
    else
      assert forall a :: a in aliases ==> a == aliases[0] || a in aliases[1..];
      FirstPresent(aliases[1..], names)
  }

  /** Every alias listed before the chosen one is absent. */
  lemma {:induction false} FirstPresentIsFirst(aliases: seq<string>, names: seq<string>)
    requires FirstPresent(aliases, names).Some?
    ensures exists k :: 0 <= k < |aliases| && aliases[k] == FirstPresent(aliases, names).value &&
                        forall j :: 0 <= j < k ==> aliases[j] !in names
  {
    if aliases[0] !in names {
      var r := FirstPresent(aliases, names);
      FirstPresentIsFirst(aliases[1..], names);
      var k :| 0 <= k < |aliases[1..]| && aliases[1..][k] == r.value &&
               forall j :: 0 <= j < k ==> aliases[1..][j] !in names;
      assert aliases[k + 1] == r.value;
      forall j | 0 <= j < k + 1 ensures aliases[j] !in names {
        if j > 0 { assert aliases[j] == aliases[1..][j - 1]; }
      }
    }
  }

  /** The depth column chosen: the first depth alias present, else the
      first column; `None` for a frame with no columns, where `df.columns[0]`
      raises and the well is abandoned. */
  function DepthColumn(names: seq<string>): (col: Option<string>)
    ensures col.None? <==> names == []
    ensures col.Some? ==> col.value in names
  {
    match FirstPresent(DEPTH_ALIASES, names)
    case Some(a) => Some(a)
    case None => if names == [] then None else Some(names[0])
  }

  /** `for alias in aliases: if alias in df.columns: ...; break`. */
  method FindFirstPresent(aliases: seq<string>, names: seq<string>) returns (found: Option<string>)
    ensures found == FirstPresent(aliases, names)
  {
    found := None;
    var i := 0;
    while i < |aliases|
      invariant 0 <= i <= |aliases|
      invariant FirstPresent(aliases, names) == FirstPresent(aliases[i..], names)
    {
      assert aliases[i..] == [aliases[i]] + aliases[i + 1..];
      if aliases[i] in names {
        found := Some(aliases[i]);
        return;
      }
      i := i + 1;
    }
  }

  /** The loop over `depth_aliases`, then the first-column fallback. */
  method ResolveDepthColumn(names: seq<string>) returns (col: Option<string>)
    ensures col == DepthColumn(names)
  {
    col := FindFirstPresent(DEPTH_ALIASES, names);
    if col.None? && names != [] {
      col := Some(names[0]);
    }
  }

  /** `df.rename(columns={depth_col: 'DEPTH_FT'})`. */
  function RenameDepth(names: seq<string>, depthCol: string): (renamed: seq<string>)
    ensures |renamed| == |names|
    ensures forall i :: 0 <= i < |names| ==> renamed[i] == (if names[i] == depthCol then "DEPTH_FT" else names[i])
  {
    seq(|names|, i requires 0 <= i < |names| => if names[i] == depthCol then "DEPTH_FT" else names[i])
  }

  /** The canonical names of the table, in order. */
  function Canonicals(table: seq<(string, seq<string>)>): seq<string> {
    seq(|table|, k requires 0 <= k < |table| => table[k].0)
  }

  /** `available_curves`: each canonical name whose alias list has a
      column present, mapped to the first such alias. */
  function AvailableCurves(table: seq<(string, seq<string>)>, names: seq<string>): (m: map<string, string>)
    ensures forall c :: c in m ==> c in Canonicals(table) && m[c] in names
  {
    if table == [] then map[]
    else
      var last := table[|table| - 1];
      var m := AvailableCurves(table[..|table| - 1], names);
      assert forall c :: c in Canonicals(table[..|table| - 1]) ==> c in Canonicals(table) by {
        forall c | c in Canonicals(table[..|table| - 1]) ensures c in Canonicals(table) {
          var k :| 0 <= k < |table| - 1 && Canonicals(table[..|table| - 1])[k] == c;
          assert Canonicals(table)[k] == c;
        }
      }
      assert Canonicals(table)[|table| - 1] == last.0;
      match FirstPresent(last.1, names)
      case Some(a) => m[last.0 := a]
      case None => m
  }

  /** No canonical name is listed twice. */
  predicate DistinctCanonicals(table: seq<(string, seq<string>)>) {
    forall i, j :: 0 <= i < j < |table| ==> table[i].0 != table[j].0
  }

  /** The canonical names are all different. */
  lemma CanonicalsDistinct()
    ensures DistinctCanonicals(CURVE_ALIASES)
  {}

  /** With distinct canonical names, a canonical name is mapped exactly when
      one of its aliases is present, and to the first present one. */
  lemma {:induction false} AvailableCurvesSpec(table: seq<(string, seq<string>)>, names: seq<string>, k: nat)
    requires DistinctCanonicals(table)
    requires k < |table|
    ensures var m := AvailableCurves(table, names);
      (table[k].0 in m <==> FirstPresent(table[k].1, names).Some?) &&
      (table[k].0 in m ==> m[table[k].0] == FirstPresent(table[k].1, names).value)
  {
    if k < |table| - 1 {
      AvailableCurvesSpec(table[..|table| - 1], names, k);
    }
  }

  /** The two loops of the curve mapping: for each canonical name, the aliases
      are tried in order and the first present one is recorded. */
  method MapCurves(names: seq<string>) returns (available: map<string, string>)
    ensures available == AvailableCurves(CURVE_ALIASES, names)
  {
    available := map[];
    var k := 0;
    while k < |CURVE_ALIASES|
      invariant 0 <= k <= |CURVE_ALIASES|
      invariant available == AvailableCurves(CURVE_ALIASES[..k], names)
    {
      var (canonical, aliases) := CURVE_ALIASES[k];
      var found := FindFirstPresent(aliases, names);
      if found.Some? {
        available := available[canonical := found.value];
      }
      assert CURVE_ALIASES[..k + 1][..k] == CURVE_ALIASES[..k];
      k := k + 1;
    }
    assert CURVE_ALIASES[..k] == CURVE_ALIASES;
  }
}
