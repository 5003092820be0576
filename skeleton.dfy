/**
 * Skeleton bookkeeping of the ridge-detection pipeline: which skan branches survive
 * pruning and the mask painted from their paths, ordered coordinate extraction, and
 * the window loop of the curvature measure.
 */
module SkeletonFilter {
  import opened Wrappers
  import opened Grids
  import opened Seqs

  /** A pixel position `(row, column)`, i.e. `(y, x)`. */
  type Coord = (int, int)

  /** One row of skan's branch summary: `branch_type`, `branch_distance` and the branch's `path_coordinates`. */
  datatype Branch = Branch(btype: int, dist: real, path: seq<Coord>)

  predicate InBounds(p: Coord, h: nat, w: nat)
  {
    0 <= p.0 < h && 0 <= p.1 < w
  }

  /** Every path coordinate of the summary lies inside the `h` by `w` skeleton it was computed from. */
  predicate PathsInBounds(bs: seq<Branch>, h: nat, w: nat)
  {
    forall i, k :: 0 <= i < |bs| && 0 <= k < |bs[i].path| ==> InBounds(bs[i].path[k], h, w)
  }

  // ---------------------------------------------------------------------------
  // Branch filtering (remove_short_components)
  // ---------------------------------------------------------------------------

  /**
   * The survival rule: junction-to-junction branches (type 2) are always kept; end-point
   * branches (types 0 and 1) and isolated cycles (type 3) only when their length reaches
   * `minLen`; any other type is dropped.
   */
  predicate Kept(b: Branch, minLen: real)
  {
    b.btype == 2 || ((b.btype == 0 || b.btype == 1 || b.btype == 3) && b.dist >= minLen)
  }

  /**
   * The concatenation the source paints: the long enough end-point branches, then all
   * junction-to-junction branches, then the long enough cycles. A branch is in it exactly
   * when the survival rule keeps it.
   */
  function SelectBranches(bs: seq<Branch>, minLen: real): (r: seq<Branch>)
    ensures forall b :: b in r <==> b in bs && Kept(b, minLen)
  {
    Filter(bs, (b: Branch) => (b.btype == 0 || b.btype == 1) && b.dist >= minLen)
    + Filter(bs, (b: Branch) => b.btype == 2)
    + Filter(bs, (b: Branch) => b.btype == 3 && b.dist >= minLen)
  }

  /** The pixels lying on some branch of `bs`. */
  function CellsOf(bs: seq<Branch>): set<Coord>
  {
    set b, p | b in bs && p in b.path :: p
  }

  /** The pixels lying on some kept branch. */
  function KeptCells(bs: seq<Branch>, minLen: real): set<Coord>
  {
    set b, p | b in bs && Kept(b, minLen) && p in b.path :: p
  }

  lemma CellsOfSnoc(bs: seq<Branch>, b: Branch)
    ensures CellsOf(bs + [b]) == CellsOf(bs) + set p | p in b.path
  {
    var l := CellsOf(bs + [b]);
    var r := CellsOf(bs) + set p | p in b.path;
    forall p | p in l ensures p in r {
      var c :| c in bs + [b] && p in c.path;
      if c != b { assert c in bs; }
    }
    forall p | p in r ensures p in l {
      if p !in CellsOf(bs) {
        assert p in b.path && b in bs + [b];
      } else {
        var c :| c in bs && p in c.path;
        assert c in bs + [b];
      }
    }
  }

  lemma SelectedCells(bs: seq<Branch>, minLen: real)
    ensures CellsOf(SelectBranches(bs, minLen)) == KeptCells(bs, minLen)
  {
    var sel := SelectBranches(bs, minLen);
    forall p | p in CellsOf(sel) ensures p in KeptCells(bs, minLen) {
      var c :| c in sel && p in c.path;
      assert c in bs && Kept(c, minLen);
    }
    forall p | p in KeptCells(bs, minLen) ensures p in CellsOf(sel) {
      var c :| c in bs && Kept(c, minLen) && p in c.path;
      assert c in sel;
    }
  }

  /**
   * `remove_short_components` on a skeleton that is not empty: the pixels of the kept branches.
   * An absent or all-false skeleton is returned as it is.
   */
  function Pruned(skel: Option<Grid<bool>>, summary: seq<Branch>, minLen: real, h: nat, w: nat): (r: Option<Grid<bool>>)
    requires skel.Some? ==> IsGrid(skel.value, h, w)
    ensures skel.None? || CountTrue(skel.value) == 0 ==> r == skel
    ensures skel.Some? && CountTrue(skel.value) != 0 ==>
      r.Some? && IsGrid(r.value, h, w) &&
      forall y, x :: 0 <= y < h && 0 <= x < w ==> (r.value[y][x] <==> (y, x) in KeptCells(summary, minLen))
  {
    if skel.None? || CountTrue(skel.value) == 0 then skel
    else
      var cells := KeptCells(summary, minLen);
      Some(seq(h, y => seq(w, x => (y, x) in cells)))
  }

  /** Set one pixel of a grid. */
  function Paint(g: Grid<bool>, p: Coord, h: nat, w: nat): (r: Grid<bool>)
    requires IsGrid(g, h, w) && InBounds(p, h, w)
    ensures IsGrid(r, h, w)
    ensures forall y, x :: 0 <= y < h && 0 <= x < w ==> r[y][x] == (g[y][x] || (y, x) == p)
  {
    g[p.0 := g[p.0][p.1 := true]]
  }

  /** Paints every point of one branch path into the mask. */
  method PaintPath(grid: Grid<bool>, coords: seq<Coord>, h: nat, w: nat) returns (r: Grid<bool>)
    requires IsGrid(grid, h, w)
    requires forall j :: 0 <= j < |coords| ==> InBounds(coords[j], h, w)
    ensures IsGrid(r, h, w)
    ensures forall y, x :: 0 <= y < h && 0 <= x < w ==> (r[y][x] <==> grid[y][x] || (y, x) in coords)
  {
    r := grid;
    for j := 0 to |coords|
      invariant IsGrid(r, h, w)
      invariant forall y, x :: 0 <= y < h && 0 <= x < w ==> (r[y][x] <==> grid[y][x] || (y, x) in coords[..j])
    {
      r := Paint(r, coords[j], h, w);
      TakeNext(coords, j);
    }
    assert coords[..|coords|] == coords;
  }

  /**
   * `remove_short_components`: an absent or empty skeleton comes back unchanged; otherwise a
   * fresh all-false mask is painted along the path of every kept branch, so a pixel ends up
   * true exactly when it lies on a kept branch.
   */
  method RemoveShortComponents(skel: Option<Grid<bool>>, summary: seq<Branch>, minLen: real, h: nat, w: nat)
    returns (out: Option<Grid<bool>>)
    requires skel.Some? ==> IsGrid(skel.value, h, w)
    requires PathsInBounds(summary, h, w)
    ensures skel.None? || CountTrue(skel.value) == 0 ==> out == skel
    ensures skel.Some? && CountTrue(skel.value) != 0 ==>
      out.Some? && IsGrid(out.value, h, w) &&
      forall y, x :: 0 <= y < h && 0 <= x < w ==> (out.value[y][x] <==> (y, x) in KeptCells(summary, minLen))
    ensures out == Pruned(skel, summary, minLen, h, w)
  {
    if skel.None? || CountTrue(skel.value) == 0 {
      return skel;
    }
    var concat := SelectBranches(summary, minLen);
    var grid := Filled(h, w, false);
    for i := 0 to |concat|
      invariant IsGrid(grid, h, w)
      invariant forall y, x :: 0 <= y < h && 0 <= x < w ==> (grid[y][x] <==> (y, x) in CellsOf(concat[..i]))
    {
      assert concat[i] in summary;
      ghost var idx :| 0 <= idx < |summary| && summary[idx] == concat[i];
      assert forall j :: 0 <= j < |concat[i].path| ==> InBounds(summary[idx].path[j], h, w);
      grid := PaintPath(grid, concat[i].path, h, w);
      TakeNext(concat, i);
      CellsOfSnoc(concat[..i], concat[i]);
    }
    assert concat[..|concat|] == concat;
    SelectedCells(summary, minLen);
    out := Some(grid);
    SameCells(grid, Pruned(skel, summary, minLen, h, w).value, h, w);
  }

  // ---------------------------------------------------------------------------
  // Ordered coordinates (get_component_coords)
  // ---------------------------------------------------------------------------

  /** Row-major order: `a` comes before `b` when its row is smaller, or the rows agree and its column is. */
  predicate LexLess(a: Coord, b: Coord)
  {
    a.0 < b.0 || (a.0 == b.0 && a.1 < b.1)
  }

  /** The cells true in both grids, scanned in row-major order from `(y, x)` on. */
  function CoordsFrom(skel: Grid<bool>, comp: Grid<bool>, h: nat, w: nat, y: nat, x: nat): (r: seq<Coord>)
    requires IsGrid(skel, h, w) && IsGrid(comp, h, w) && x <= w
    ensures forall k :: 0 <= k < |r| ==>
      InBounds(r[k], h, w) && skel[r[k].0][r[k].1] && comp[r[k].0][r[k].1] && !LexLess(r[k], (y, x))
    ensures forall p :: InBounds(p, h, w) && skel[p.0][p.1] && comp[p.0][p.1] && !LexLess(p, (y, x)) ==> p in r
    ensures forall i, j :: 0 <= i < j < |r| ==> LexLess(r[i], r[j])
    decreases h - y, w - x
  {
    if y >= h then []
    else if x == w then CoordsFrom(skel, comp, h, w, y + 1, 0)
    else
      var rest := CoordsFrom(skel, comp, h, w, y, x + 1);
      if skel[y][x] && comp[y][x] then
        assert forall k :: 0 <= k < |rest| ==> LexLess((y, x), rest[k]);
        [(y, x)] + rest
      else rest
  }

  /**
   * `get_component_coords`: exactly the cells true in both `skel` and `compMask`, in strictly
   * increasing row-major order (so without duplicates).
   */
  function GetComponentCoords(skel: Grid<bool>, compMask: Grid<bool>, h: nat, w: nat): (r: seq<Coord>)
    requires IsGrid(skel, h, w) && IsGrid(compMask, h, w)
    ensures forall p :: p in r <==> InBounds(p, h, w) && skel[p.0][p.1] && compMask[p.0][p.1]
    ensures forall i, j :: 0 <= i < j < |r| ==> LexLess(r[i], r[j])
  {
    CoordsFrom(skel, compMask, h, w, 0, 0)
  }

  // ---------------------------------------------------------------------------
  // Curvature windows (curvature)
  // ---------------------------------------------------------------------------

  /**
   * The per-window values the loop collects from window start `i` on: window starts run over
   * `range(0, len(coords) - window)`, a window whose first and last points coincide (chord of
   * length zero) is skipped, and any other contributes `perpMean(seg)`.
   */
  function CurveValues(coords: seq<Coord>, window: nat, perpMean: seq<Coord> -> real, i: nat): seq<real>
    requires window >= 1
    decreases |coords| - i
  {
    if i + window >= |coords| then []
    else
      var seg := coords[i..i + window];
      (if seg[0] == seg[window - 1] then [] else [perpMean(seg)]) + CurveValues(coords, window, perpMean, i + 1)
  }

  /**
   * No value is collected from start `i` on exactly when every examined window has its first
   * point equal to its last one.
   */
  lemma {:induction false} CurveValuesEmpty(coords: seq<Coord>, window: nat, perpMean: seq<Coord> -> real, i: nat)
    requires window >= 1
    ensures CurveValues(coords, window, perpMean, i) == [] <==>
      forall j :: i <= j && j + window < |coords| ==> coords[j] == coords[j + window - 1]
    decreases |coords| - i
  {
    if i + window < |coords| {
      CurveValuesEmpty(coords, window, perpMean, i + 1);
      assert coords[i..i + window][0] == coords[i];
      assert coords[i..i + window][window - 1] == coords[i + window - 1];
    }
  }

  /** One examined window: its value, if any, moves from the values still to collect to those collected. */
  lemma CurveValuesStep(before: seq<real>, coords: seq<Coord>, window: nat, perpMean: seq<Coord> -> real, i: nat)
    requires window >= 1 && i + window < |coords|
    ensures var seg := coords[i..i + window];
      before + CurveValues(coords, window, perpMean, i) ==
      (if seg[0] == seg[window - 1] then before else before + [perpMean(seg)]) + CurveValues(coords, window, perpMean, i + 1)
  {
  }

  /**
   * `curvature`: `None` (NaN) when the path is shorter than the window or no examined window
   * has distinct end points; otherwise the mean of the collected window values.
   */
  method Curvature(coords: seq<Coord>, window: nat, perpMean: seq<Coord> -> real) returns (c: Option<real>)
    requires window >= 1
    ensures |coords| < window ==> c == None
    ensures |coords| >= window ==>
      c == (var curves := CurveValues(coords, window, perpMean, 0);
            if curves == [] then None else Some(Mean(curves)))
  {
    if |coords| < window {
      return None;
    }
    var curves: seq<real> := [];
    ghost var all := CurveValues(coords, window, perpMean, 0);
    for i := 0 to |coords| - window
      invariant curves + CurveValues(coords, window, perpMean, i) == all
    {
      var seg := coords[i..i + window];
      CurveValuesStep(curves, coords, window, perpMean, i);
      if seg[0] != seg[window - 1] {
        curves := curves + [perpMean(seg)];
      }
    }
    assert CurveValues(coords, window, perpMean, |coords| - window) == [];
    assert curves == all;
    if curves == [] {
      c := None;
    } else {
      c := Some(Mean(curves));
    }
  }

  /**
   * The last window, the one ending at the final point, is never examined: a path exactly one
   * window long passes the length guard and still yields `None`.
   */
  lemma PathOfWindowLengthHasNoCurvature(coords: seq<Coord>, window: nat, perpMean: seq<Coord> -> real)
    requires window >= 1 && |coords| == window
    ensures CurveValues(coords, window, perpMean, 0) == []
  {
  }
}
