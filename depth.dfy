/** `clean_depth_data` (app/modules/petrofisica.py): rows without a depth
    are dropped, then rows repeating an earlier depth, and the frame is
    sorted by depth when any step goes upwards. Positions in the result are
    its new 0..n-1 index. */
module DepthCleaning {
  import opened Values

  /** A frame row as read: its depth may be missing. */
  datatype Sample<T> = Sample(depth: Option<real>, data: T)

  /** A row once its depth is known to be present. */
  datatype Row<T> = Row(depth: real, data: T)

  /** The depths that occur in a frame. */
  function DepthSet<T(==)>(r: seq<Row<T>>): set<real> {
    set x | x in r :: x.depth
  }

  /** The depths present in a raw frame. */
  function PresentDepths<T(==)>(s: seq<Sample<T>>): set<real> {
    set x | x in s && x.depth.Some? :: x.depth.value
  }

  predicate Ascending<T>(r: seq<Row<T>>) {
    forall i, j :: 0 <= i < j < |r| ==> r[i].depth <= r[j].depth
  }

  predicate StrictlyAscending<T>(r: seq<Row<T>>) {
    forall i, j :: 0 <= i < j < |r| ==> r[i].depth < r[j].depth
  }

  /** No two rows share a depth. */
  predicate DistinctDepths<T>(r: seq<Row<T>>) {
    forall i, j :: 0 <= i < j < |r| ==> r[i].depth != r[j].depth
  }

  /** Row `i` is the first with its depth. */
  predicate FirstOfItsDepth<T>(s: seq<Sample<T>>, i: int)
    requires 0 <= i < |s|
  {
    forall j :: 0 <= j < i ==> s[j].depth != s[i].depth
  }

  // ------------------------------------------------------------ step 1

  /** `df[~df['DEPTH_FT'].isna()]`, in row order. */
  function DropMissingDepth<T(==)>(s: seq<Sample<T>>): (r: seq<Row<T>>)
    ensures |r| <= |s|
    ensures DepthSet(r) == PresentDepths(s)
    ensures forall y :: y in r ==> Sample(Some(y.depth), y.data) in s
  {
    if s == [] then []
    else
      var init := DropMissingDepth(s[..|s| - 1]);
      var last := s[|s| - 1];
      assert s == s[..|s| - 1] + [last];
      assert PresentDepths(s) == PresentDepths(s[..|s| - 1]) + (if last.depth.Some? then {last.depth.value} else {});
      if last.depth.None? then init
      else
        assert DepthSet(init + [Row(last.depth.value, last.data)]) == DepthSet(init) + {last.depth.value};
        init + [Row(last.depth.value, last.data)]
  }

  // ------------------------------------------------------------ step 2

  /** `df[~df.duplicated(subset=['DEPTH_FT'], keep='first')]`. */
  function DropDuplicateDepths<T(==)>(r: seq<Row<T>>): (u: seq<Row<T>>)
    ensures |u| <= |r|
    ensures DistinctDepths(u)
    ensures DepthSet(u) == DepthSet(r)
    ensures forall y :: y in u ==> y in r
  {
    if r == [] then []
    else
      var init := DropDuplicateDepths(r[..|r| - 1]);
      var last := r[|r| - 1];
      assert r == r[..|r| - 1] + [last];
      assert DepthSet(r) == DepthSet(r[..|r| - 1]) + {last.depth};
      if last.depth in DepthSet(r[..|r| - 1]) then init
      else
        assert DepthSet(init + [last]) == DepthSet(init) + {last.depth};
        assert forall i :: 0 <= i < |init| ==> init[i].depth in DepthSet(init);
        init + [last]
  }

  // ------------------------------------------------------------ step 3

  /** `(df['DEPTH_FT'].diff() < 0).sum() > 0`. The first difference is
      NaN and never negative. */
  predicate HasNegativeStep<T>(r: seq<Row<T>>) {
    exists i :: 0 < i < |r| && r[i].depth < r[i - 1].depth
  }

  /** A row no deeper than every row of an ascending frame can lead it. */
  lemma AscendingCons<T>(h: Row<T>, t: seq<Row<T>>)
    ensures Ascending(t) && (forall k :: 0 <= k < |t| ==> h.depth <= t[k].depth) ==> Ascending([h] + t)
    ensures StrictlyAscending(t) && (forall k :: 0 <= k < |t| ==> h.depth < t[k].depth) ==> StrictlyAscending([h] + t)
  {
    var u := [h] + t;
    assert forall k :: 0 < k < |u| ==> u[k] == t[k - 1];
  }

  /** No row of the frame lies at depth `d`. */
  predicate NoRowAt<T>(r: seq<Row<T>>, d: real) {
    forall k :: 0 <= k < |r| ==> r[k].depth != d
  }

  /** Inserts a row before the first row at least as deep. */
  function Insert<T(==)>(x: Row<T>, r: seq<Row<T>>): (u: seq<Row<T>>)
    ensures multiset(u) == multiset(r) + multiset{x}
  {
    if r == [] then [x]
    else if x.depth <= r[0].depth then [x] + r
    else
      assert r == [r[0]] + r[1..];
      [r[0]] + Insert(x, r[1..])
  }

  /** Inserting keeps a frame ascending, and strictly so when the new depth
      is not already there. */
  lemma {:induction false} InsertOrdered<T>(x: Row<T>, r: seq<Row<T>>)
    ensures Ascending(r) ==> Ascending(Insert(x, r))
    ensures StrictlyAscending(r) && NoRowAt(r, x.depth) ==> StrictlyAscending(Insert(x, r))
  {
    if r == [] {
    } else if x.depth <= r[0].depth {
      assert r[0] in r;
      AscendingCons(x, r);
    } else {
      var rest := Insert(x, r[1..]);
      assert Insert(x, r) == [r[0]] + rest;
      InsertOrdered(x, r[1..]);
      InsertHead(x, r, rest);
      AscendingCons(r[0], rest);
    }
  }

  /** The first row of an ascending frame stays no deeper than every row
      left after inserting a deeper row into the rest. */
  lemma InsertHead<T>(x: Row<T>, r: seq<Row<T>>, rest: seq<Row<T>>)
    requires r != [] && r[0].depth < x.depth
    requires multiset(rest) == multiset(r[1..]) + multiset{x}
    ensures Ascending(r) ==> forall k :: 0 <= k < |rest| ==> r[0].depth <= rest[k].depth
    ensures StrictlyAscending(r) ==> forall k :: 0 <= k < |rest| ==> r[0].depth < rest[k].depth
  {
    forall k | 0 <= k < |rest|
      ensures rest[k] == x || rest[k] in r[1..]
    {
      assert rest[k] in multiset(rest);
    }
    forall k | 0 <= k < |rest| && rest[k] != x
      ensures exists m :: 1 <= m < |r| && r[m] == rest[k]
    {
      var m :| 0 <= m < |r[1..]| && r[1..][m] == rest[k];
      assert r[m + 1] == rest[k];
    }
  }

  /** `df.sort_values('DEPTH_FT')`, as an insertion sort. */
  function SortByDepth<T(==)>(r: seq<Row<T>>): (u: seq<Row<T>>)
    ensures multiset(u) == multiset(r)
    ensures Ascending(u)
    ensures DistinctDepths(r) ==> StrictlyAscending(u)
  {
    if r == [] then []
    else
      var rest := SortByDepth(r[1..]);
      assert r == [r[0]] + r[1..];
      HeadDepthNotInRest(r, rest);
      InsertOrdered(r[0], rest);
      Insert(r[0], rest)
  }

  lemma HeadDepthNotInRest<T>(r: seq<Row<T>>, rest: seq<Row<T>>)
    requires r != [] && multiset(rest) == multiset(r[1..])
    ensures DistinctDepths(r) ==> NoRowAt(rest, r[0].depth) && DistinctDepths(r[1..])
  {
    if DistinctDepths(r) {
      forall k | 0 <= k < |rest| ensures rest[k].depth != r[0].depth {
        assert rest[k] in multiset(r[1..]);
        var m :| 0 <= m < |r[1..]| && r[1..][m] == rest[k];
        assert r[m + 1] == rest[k];
      }
    }
  }

  // ------------------------------------------------------------ clean_depth_data

  /** `clean_depth_data(df)`. */
  function CleanDepthData<T(==)>(s: seq<Sample<T>>): seq<Row<T>> {
    var r := DropDuplicateDepths(DropMissingDepth(s));
    if |r| > 1 && HasNegativeStep(r) then SortByDepth(r) else r
  }

  /** A frame whose consecutive steps never go up is ascending throughout. */
  lemma {:induction false} NoNegativeStepAscending<T>(r: seq<Row<T>>)
    requires !HasNegativeStep(r)
    ensures Ascending(r)
  {
    if |r| > 1 {
      var init := r[..|r| - 1];
      assert !HasNegativeStep(init) by {
        forall i | 0 < i < |init| ensures init[i].depth >= init[i - 1].depth {
          assert r[i].depth >= r[i - 1].depth;
        }
      }
      NoNegativeStepAscending(init);
      forall i, j | 0 <= i < j < |r| ensures r[i].depth <= r[j].depth {
        if j < |r| - 1 {
          assert init[i].depth <= init[j].depth;
        } else if i < j - 1 {
          assert init[i].depth <= init[j - 1].depth;
          assert r[j - 1].depth <= r[j].depth;
        } else {
          assert r[j - 1].depth <= r[j].depth;
        }
      }
    }
  }

  /** Row `y` is, unchanged, the first row of `s` at its depth. */
  ghost predicate FirstOccurrence<T>(s: seq<Sample<T>>, y: Row<T>) {
    exists i :: 0 <= i < |s| && s[i] == Sample(Some(y.depth), y.data) && FirstOfItsDepth(s, i)
  }

  lemma FirstOccurrenceExtends<T>(s: seq<Sample<T>>, y: Row<T>)
    requires s != [] && FirstOccurrence(s[..|s| - 1], y)
    ensures FirstOccurrence(s, y)
  {
    var init := s[..|s| - 1];
    var i :| 0 <= i < |init| && init[i] == Sample(Some(y.depth), y.data) && FirstOfItsDepth(init, i);
    assert s[i] == init[i];
    assert FirstOfItsDepth(s, i);
  }

  lemma FirstOccurrenceLast<T>(s: seq<Sample<T>>)
    requires s != [] && s[|s| - 1].depth.Some?
    requires s[|s| - 1].depth.value !in PresentDepths(s[..|s| - 1])
    ensures FirstOccurrence(s, Row(s[|s| - 1].depth.value, s[|s| - 1].data))
  {
    var init := s[..|s| - 1];
    var last := s[|s| - 1];
    forall j | 0 <= j < |s| - 1 ensures s[j].depth != last.depth {
      assert s[j] == init[j] && init[j] in init;
    }
    assert FirstOfItsDepth(s, |s| - 1);
  }

  /** How the first two steps extend when one raw row is appended. */
  lemma KeptSnoc<T>(s: seq<Sample<T>>)
    requires s != []
    ensures var init, last := s[..|s| - 1], s[|s| - 1];
      var u0 := DropDuplicateDepths(DropMissingDepth(init));
      var u := DropDuplicateDepths(DropMissingDepth(s));
      if last.depth.Some? && last.depth.value !in PresentDepths(init)
      then u == u0 + [Row(last.depth.value, last.data)]
      else u == u0
  {
    var init, last := s[..|s| - 1], s[|s| - 1];
    var r0 := DropMissingDepth(init);
    var r := DropMissingDepth(s);
    if last.depth.Some? {
      assert r == r0 + [Row(last.depth.value, last.data)];
      assert r[..|r| - 1] == r0;
    }
  }

  /** Every row kept by the first two steps is the first occurrence of its
      depth in the raw frame. */
  lemma {:induction false} KeptRowsAreFirstOccurrences<T>(s: seq<Sample<T>>)
    ensures forall y :: y in DropDuplicateDepths(DropMissingDepth(s)) ==> FirstOccurrence(s, y)
  {
    if s != [] {
      var init, last := s[..|s| - 1], s[|s| - 1];
      KeptRowsAreFirstOccurrences(init);
      KeptSnoc(s);
      var u0 := DropDuplicateDepths(DropMissingDepth(init));
      forall y | y in DropDuplicateDepths(DropMissingDepth(s)) ensures FirstOccurrence(s, y) {
        if y in u0 {
          FirstOccurrenceExtends(s, y);
        } else {
          FirstOccurrenceLast(s);
        }
      }
    }
  }

  /** What `clean_depth_data` guarantees: strictly ascending depths (so no
      depth twice), every present depth of the input kept, each kept row the
      first input row with its depth, and nothing for an empty input. */
  lemma CleanDepthDataSpec<T>(s: seq<Sample<T>>)
    ensures var out := CleanDepthData(s);
      && StrictlyAscending(out)
      && |out| <= |s|
      && DepthSet(out) == PresentDepths(s)
      && (forall y :: y in out ==> FirstOccurrence(s, y))
      && (s == [] ==> out == [])
  {
    var r := DropDuplicateDepths(DropMissingDepth(s));
    KeptRowsAreFirstOccurrences(s);
    var out := CleanDepthData(s);
    if |r| > 1 && HasNegativeStep(r) {
      assert out == SortByDepth(r);
      assert forall y :: y in out <==> y in r by {
        forall y ensures y in out <==> y in r {
          assert y in out <==> y in multiset(out);
          assert y in r <==> y in multiset(r);
        }
      }
      assert |out| == |multiset(out)| == |multiset(r)| == |r|;
      assert DepthSet(out) == DepthSet(r);
    } else {
      NoNegativeStepAscending(r);
    }
  }
}
