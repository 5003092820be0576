/**
 * The multi-linewidth ridge detector around the Hessian eigenvalues: per-pixel ordering of
 * the two eigenvalues by magnitude, the clamped and min-max scaled response, the band
 * threshold with background exclusion, and the OR-combination over line widths followed by
 * the optional skeleton stage.
 */
module RidgeDetection {
  import opened Wrappers
  import opened Grids
  import opened SkeletonFilter

  function Abs(v: real): real
  {
    if v < 0.0 then -v else v
  }

  // ---------------------------------------------------------------------------
  // Eigenvalue swap (hessian_ridge_response)
  // ---------------------------------------------------------------------------

  /**
   * One pixel of the masked swap: the eigenvalues are exchanged when the second has the
   * strictly larger magnitude. The first result then has the larger magnitude and the pair
   * is the same pair of values.
   */
  function SwapCell(l1: real, l2: real): (r: (real, real))
    ensures Abs(r.0) >= Abs(r.1)
    ensures (r.0 == l1 && r.1 == l2) || (r.0 == l2 && r.1 == l1)
    ensures Abs(l1) == Abs(l2) ==> r == (l1, l2)
  {
    if Abs(l2) > Abs(l1) then (l2, l1) else (l1, l2)
  }

  /**
   * `l1_swapped[swap], l2_swapped[swap] = l2[swap], l1[swap]` on copies of the eigenvalue
   * grids: afterwards every pixel holds its pair ordered by magnitude.
   */
  method SwapByMagnitude(l1: Grid<real>, l2: Grid<real>, h: nat, w: nat) returns (s1: Grid<real>, s2: Grid<real>)
    requires IsGrid(l1, h, w) && IsGrid(l2, h, w)
    ensures IsGrid(s1, h, w) && IsGrid(s2, h, w)
    ensures forall y, x :: 0 <= y < h && 0 <= x < w ==> (s1[y][x], s2[y][x]) == SwapCell(l1[y][x], l2[y][x])
    ensures forall y, x :: 0 <= y < h && 0 <= x < w ==> Abs(s1[y][x]) >= Abs(s2[y][x])
  {
    s1, s2 := l1, l2;
    for y := 0 to h
      invariant IsGrid(s1, h, w) && IsGrid(s2, h, w)
      invariant forall yy, xx :: 0 <= yy < y && 0 <= xx < w ==> (s1[yy][xx], s2[yy][xx]) == SwapCell(l1[yy][xx], l2[yy][xx])
      invariant forall yy :: y <= yy < h ==> s1[yy] == l1[yy] && s2[yy] == l2[yy]
    {
      var r1, r2 := s1[y], s2[y];
      for x := 0 to w
        invariant |r1| == w && |r2| == w
        invariant forall xx :: 0 <= xx < x ==> (r1[xx], r2[xx]) == SwapCell(l1[y][xx], l2[y][xx])
        invariant forall xx :: x <= xx < w ==> r1[xx] == l1[y][xx] && r2[xx] == l2[y][xx]
      {
        if Abs(l2[y][x]) > Abs(l1[y][x]) {
          r1, r2 := r1[x := l2[y][x]], r2[x := l1[y][x]];
        }
      }
      s1, s2 := s1[y := r1], s2[y := r2];
    }
  }

  // ---------------------------------------------------------------------------
  // Clamped, min-max scaled response
  // ---------------------------------------------------------------------------

  /**
   * `np.maximum(0, -l1)` for dark lines and `np.maximum(0, l1)` for bright lines: the larger
   * of zero and the signed eigenvalue.
   */
  function Clamp(v: real, darkline: bool): (r: real)
    ensures r >= 0.0
    ensures r >= (if darkline then -v else v)
    ensures r == 0.0 || r == (if darkline then -v else v)
  {
    var s := if darkline then -v else v;
    if s > 0.0 then s else 0.0
  }

  /** Largest element of a non-empty sequence. */
  function SeqMax(s: seq<real>): (m: real)
    requires |s| > 0
    ensures forall i :: 0 <= i < |s| ==> s[i] <= m
    ensures exists i :: 0 <= i < |s| && s[i] == m
  {
    if |s| == 1 then s[0]
    else
      var t := SeqMax(s[1..]);
      assert forall i :: 1 <= i < |s| ==> s[i] == s[1..][i - 1];
      if s[0] >= t then s[0] else t
  }

  /** Smallest element of a non-empty sequence. */
  function SeqMin(s: seq<real>): (m: real)
    requires |s| > 0
    ensures forall i :: 0 <= i < |s| ==> m <= s[i]
    ensures exists i :: 0 <= i < |s| && s[i] == m
  {
    if |s| == 1 then s[0]
    else
      var t := SeqMin(s[1..]);
      assert forall i :: 1 <= i < |s| ==> s[i] == s[1..][i - 1];
      if s[0] <= t then s[0] else t
  }

  /** `g.max()` of a grid with at least one row, all rows non-empty. */
  function GridMax(g: Grid<real>): (m: real)
    requires |g| > 0 && forall y :: 0 <= y < |g| ==> |g[y]| > 0
    ensures forall y, x :: 0 <= y < |g| && 0 <= x < |g[y]| ==> g[y][x] <= m
    ensures exists y, x :: 0 <= y < |g| && 0 <= x < |g[y]| && g[y][x] == m
  {
    var here := SeqMax(g[0]);
    if |g| == 1 then here
    else
      var t := GridMax(g[1..]);
      assert forall y :: 1 <= y < |g| ==> g[y] == g[1..][y - 1];
      if here >= t then here else t
  }

  /** `g.min()` of a grid with at least one row, all rows non-empty. */
  function GridMin(g: Grid<real>): (m: real)
    requires |g| > 0 && forall y :: 0 <= y < |g| ==> |g[y]| > 0
    ensures forall y, x :: 0 <= y < |g| && 0 <= x < |g[y]| ==> m <= g[y][x]
    ensures exists y, x :: 0 <= y < |g| && 0 <= x < |g[y]| && g[y][x] == m
  {
    var here := SeqMin(g[0]);
    if |g| == 1 then here
    else
      var t := GridMin(g[1..]);
      assert forall y :: 1 <= y < |g| ==> g[y] == g[1..][y - 1];
      if here <= t then here else t
  }

  /** `response - response.min()`. */
  function Shifted(g: Grid<real>, lo: real, h: nat, w: nat): (s: Grid<real>)
    requires IsGrid(g, h, w)
    ensures IsGrid(s, h, w)
    ensures forall y, x :: 0 <= y < h && 0 <= x < w ==> s[y][x] == g[y][x] - lo
  {
    seq(h, y requires 0 <= y < h => seq(w, x requires 0 <= x < w => g[y][x] - lo))
  }

  /** `resp / maxv` when the largest shifted value is positive, then `* 255`. */
  function Scaled(s: Grid<real>, maxv: real, h: nat, w: nat): (n: Grid<real>)
    requires IsGrid(s, h, w)
    ensures IsGrid(n, h, w)
    ensures forall y, x :: 0 <= y < h && 0 <= x < w ==> n[y][x] == ScaleValue(s[y][x], maxv)
  {
    seq(h, y requires 0 <= y < h => seq(w, x requires 0 <= x < w => ScaleValue(s[y][x], maxv)))
  }

  /** One pixel of the scaling. */
  function ScaleValue(v: real, maxv: real): real
  {
    (if maxv > 0.0 then v / maxv else v) * 255.0
  }

  /** A shifted value between 0 and the maximum scales into `[0, 255]`; 0 goes to 0 and the maximum to 255. */
  lemma ScaledCellBounds(v: real, maxv: real)
    requires 0.0 <= v <= maxv
    ensures 0.0 <= ScaleValue(v, maxv) <= 255.0
    ensures maxv > 0.0 && v == maxv ==> ScaleValue(v, maxv) == 255.0
    ensures v == 0.0 ==> ScaleValue(v, maxv) == 0.0
  {
    if maxv > 0.0 {
      assert v / maxv <= 1.0;
    }
  }

  /** The min-max normalisation to `[0, 255]`: subtract the minimum, divide by the new maximum when positive, scale by 255. */
  function Normalise(resp: Grid<real>, h: nat, w: nat): (n: Grid<real>)
    requires h > 0 && w > 0 && IsGrid(resp, h, w)
    ensures IsGrid(n, h, w)
  {
    var s := Shifted(resp, GridMin(resp), h, w);
    Scaled(s, GridMax(s), h, w)
  }

  /**
   * Every normalised value lies in `[0, 255]`, some pixel (one holding the minimum) is 0,
   * and when the response is not constant some pixel (one holding the maximum) is 255.
   */
  lemma NormaliseRange(resp: Grid<real>, h: nat, w: nat)
    requires h > 0 && w > 0 && IsGrid(resp, h, w)
    ensures forall y, x :: 0 <= y < h && 0 <= x < w ==> 0.0 <= Normalise(resp, h, w)[y][x] <= 255.0
    ensures exists y, x :: 0 <= y < h && 0 <= x < w && Normalise(resp, h, w)[y][x] == 0.0
    ensures (exists y, x :: 0 <= y < h && 0 <= x < w && resp[y][x] > GridMin(resp)) ==>
      exists y, x :: 0 <= y < h && 0 <= x < w && Normalise(resp, h, w)[y][x] == 255.0
  {
    var lo := GridMin(resp);
    var s := Shifted(resp, lo, h, w);
    var maxv := GridMax(s);
    var n := Normalise(resp, h, w);
    assert n == Scaled(s, maxv, h, w);
    assert forall y, x :: 0 <= y < h && 0 <= x < w ==> 0.0 <= s[y][x] <= maxv;
    forall y, x | 0 <= y < h && 0 <= x < w ensures 0.0 <= n[y][x] <= 255.0 {
      ScaledCellBounds(s[y][x], maxv);
    }
    var y0, x0 :| 0 <= y0 < h && 0 <= x0 < w && resp[y0][x0] == lo;
    ScaledCellBounds(s[y0][x0], maxv);
    assert n[y0][x0] == 0.0;
    if exists y, x :: 0 <= y < h && 0 <= x < w && resp[y][x] > lo {
      var y1, x1 :| 0 <= y1 < h && 0 <= x1 < w && resp[y1][x1] > lo;
      assert s[y1][x1] > 0.0;
      var y2, x2 :| 0 <= y2 < h && 0 <= x2 < w && s[y2][x2] == maxv;
      ScaledCellBounds(s[y2][x2], maxv);
      assert n[y2][x2] == 255.0;
    }
  }

  /** With every response equal, the normalised response is 0 everywhere. */
  lemma ConstantResponseNormalisesToZero(resp: Grid<real>, h: nat, w: nat)
    requires h > 0 && w > 0 && IsGrid(resp, h, w)
    requires forall y, x :: 0 <= y < h && 0 <= x < w ==> resp[y][x] == resp[0][0]
    ensures forall y, x :: 0 <= y < h && 0 <= x < w ==> Normalise(resp, h, w)[y][x] == 0.0
  {
    var lo := GridMin(resp);
    var s := Shifted(resp, lo, h, w);
    assert lo == resp[0][0];
    assert forall y, x :: 0 <= y < h && 0 <= x < w ==> s[y][x] == 0.0;
    var maxv := GridMax(s);
    assert maxv == 0.0;
  }

  /** The clamped response before scaling: `max(0, +-l1')` with `l1'` the larger-magnitude eigenvalue. */
  function RawResponse(l1: Grid<real>, l2: Grid<real>, h: nat, w: nat, darkline: bool): (r: Grid<real>)
    requires IsGrid(l1, h, w) && IsGrid(l2, h, w)
    ensures IsGrid(r, h, w)
    ensures forall y, x :: 0 <= y < h && 0 <= x < w ==> r[y][x] == Clamp(SwapCell(l1[y][x], l2[y][x]).0, darkline)
  {
    seq(h, y requires 0 <= y < h => seq(w, x requires 0 <= x < w => Clamp(SwapCell(l1[y][x], l2[y][x]).0, darkline)))
  }

  /** What `hessian_ridge_response` returns for the given eigenvalue grids. */
  function Response(l1: Grid<real>, l2: Grid<real>, h: nat, w: nat, darkline: bool): (r: Grid<real>)
    requires h > 0 && w > 0 && IsGrid(l1, h, w) && IsGrid(l2, h, w)
    ensures IsGrid(r, h, w)
  {
    Normalise(RawResponse(l1, l2, h, w, darkline), h, w)
  }

  /**
   * `hessian_ridge_response` from the eigenvalue grids `l1`, `l2` of the Hessian: swap by
   * magnitude, clamp, and scale to `[0, 255]`.
   */
  method HessianRidgeResponse(l1: Grid<real>, l2: Grid<real>, h: nat, w: nat, darkline: bool) returns (resp: Grid<real>)
    requires h > 0 && w > 0 && IsGrid(l1, h, w) && IsGrid(l2, h, w)
    ensures resp == Response(l1, l2, h, w, darkline)
    ensures IsGrid(resp, h, w)
    ensures forall y, x :: 0 <= y < h && 0 <= x < w ==> 0.0 <= resp[y][x] <= 255.0
  {
    var s1, s2 := SwapByMagnitude(l1, l2, h, w);
    var response := seq(h, y requires 0 <= y < h => seq(w, x requires 0 <= x < w => Clamp(s1[y][x], darkline)));
    SameCells(response, RawResponse(l1, l2, h, w, darkline), h, w);
    resp := Normalise(response, h, w);
    NormaliseRange(response, h, w);
  }

  // ---------------------------------------------------------------------------
  // Band threshold with background exclusion (ridge_mask_for_linewidth)
  // ---------------------------------------------------------------------------

  /** A response value after background exclusion: background pixels are set to `-inf`. */
  datatype Level = NegInf | Finite(v: real)

  /** `level >= t` for a finite threshold `t`; `-inf` is below every threshold. */
  predicate AtLeast(l: Level, t: real)
  {
    l.Finite? && l.v >= t
  }

  /** `level <= t` for a finite threshold `t`; `-inf` is below every threshold. */
  predicate AtMost(l: Level, t: real)
  {
    l.NegInf? || l.v <= t
  }

  /** Whether the optional image mask marks `(y, x)`. */
  predicate Marked(imMask: Option<Grid<bool>>, y: nat, x: nat)
    requires imMask.Some? ==> |imMask.value| > y && |imMask.value[y]| > x
  {
    imMask.Some? && imMask.value[y][x]
  }

  /** `response[im_mask] = -np.inf` (no change when there is no mask). */
  function Exclude(resp: Grid<real>, imMask: Option<Grid<bool>>, h: nat, w: nat): (r: Grid<Level>)
    requires IsGrid(resp, h, w) && (imMask.Some? ==> IsGrid(imMask.value, h, w))
    ensures IsGrid(r, h, w)
    ensures forall y, x :: 0 <= y < h && 0 <= x < w ==>
      r[y][x] == if Marked(imMask, y, x) then NegInf else Finite(resp[y][x])
  {
    seq(h, y requires 0 <= y < h => seq(w, x requires 0 <= x < w =>
      if Marked(imMask, y, x) then NegInf else Finite(resp[y][x])))
  }

  /** `(response >= lower) & (response <= upper)`. */
  function Band(levels: Grid<Level>, lower: real, upper: real, h: nat, w: nat): (m: Grid<bool>)
    requires IsGrid(levels, h, w)
    ensures IsGrid(m, h, w)
    ensures forall y, x :: 0 <= y < h && 0 <= x < w ==> m[y][x] == (AtLeast(levels[y][x], lower) && AtMost(levels[y][x], upper))
  {
    seq(h, y requires 0 <= y < h => seq(w, x requires 0 <= x < w => AtLeast(levels[y][x], lower) && AtMost(levels[y][x], upper)))
  }

  /**
   * The library results for one line width: the two Hessian eigenvalue grids at that width's
   * sigma, and that width's lower and upper thresholds.
   */
  datatype WidthInput = WidthInput(l1: Grid<real>, l2: Grid<real>, lower: real, upper: real)

  predicate Fits(inp: WidthInput, h: nat, w: nat)
  {
    IsGrid(inp.l1, h, w) && IsGrid(inp.l2, h, w)
  }

  /** The ridge mask of one line width. */
  function WidthMask(inp: WidthInput, imMask: Option<Grid<bool>>, h: nat, w: nat, darkline: bool): (m: Grid<bool>)
    requires h > 0 && w > 0 && Fits(inp, h, w) && (imMask.Some? ==> IsGrid(imMask.value, h, w))
    ensures IsGrid(m, h, w)
  {
    Band(Exclude(Response(inp.l1, inp.l2, h, w, darkline), imMask, h, w), inp.lower, inp.upper, h, w)
  }

  /**
   * A pixel is in a width's mask exactly when it is not marked as background and its response
   * lies in `[lower, upper]`; in particular a background pixel never is.
   */
  lemma WidthMaskBand(inp: WidthInput, imMask: Option<Grid<bool>>, h: nat, w: nat, darkline: bool, y: nat, x: nat)
    requires h > 0 && w > 0 && Fits(inp, h, w) && (imMask.Some? ==> IsGrid(imMask.value, h, w))
    requires y < h && x < w
    ensures WidthMask(inp, imMask, h, w, darkline)[y][x] <==>
      !Marked(imMask, y, x) &&
      inp.lower <= Response(inp.l1, inp.l2, h, w, darkline)[y][x] <= inp.upper
    ensures Marked(imMask, y, x) ==> !WidthMask(inp, imMask, h, w, darkline)[y][x]
  {
    var levels := Exclude(Response(inp.l1, inp.l2, h, w, darkline), imMask, h, w);
    assert WidthMask(inp, imMask, h, w, darkline)[y][x] == (AtLeast(levels[y][x], inp.lower) && AtMost(levels[y][x], inp.upper));
  }

  /**
   * `ridge_mask_for_linewidth`: the band mask, the response with background pixels set to
   * `-inf`, and the two thresholds.
   */
  method RidgeMaskForLineWidth(inp: WidthInput, imMask: Option<Grid<bool>>, h: nat, w: nat, darkline: bool)
    returns (mask: Grid<bool>, response: Grid<Level>, lower: real, upper: real)
    requires h > 0 && w > 0 && Fits(inp, h, w) && (imMask.Some? ==> IsGrid(imMask.value, h, w))
    ensures mask == WidthMask(inp, imMask, h, w, darkline)
    ensures IsGrid(response, h, w)
    ensures forall y, x :: 0 <= y < h && 0 <= x < w ==>
      response[y][x] == if Marked(imMask, y, x) then NegInf else Finite(Response(inp.l1, inp.l2, h, w, darkline)[y][x])
    ensures lower == inp.lower && upper == inp.upper
  {
    lower, upper := inp.lower, inp.upper;
    var resp := HessianRidgeResponse(inp.l1, inp.l2, h, w, darkline);
    response := Exclude(resp, imMask, h, w);
    mask := Band(response, lower, upper, h, w);
  }

  // ---------------------------------------------------------------------------
  // Combination over line widths (run_multiscale_ridge_detection)
  // ---------------------------------------------------------------------------

  /** The widths whose masks are combined: `minLineWidth` and `minLineWidth+1 .. maxLineWidth`. */
  predicate Contributes(minLineWidth: int, maxLineWidth: int, lw: int)
  {
    lw == minLineWidth || minLineWidth < lw <= maxLineWidth
  }

  /** `a | b` pixel by pixel. */
  function Or(a: Grid<bool>, b: Grid<bool>, h: nat, w: nat): (r: Grid<bool>)
    requires IsGrid(a, h, w) && IsGrid(b, h, w)
    ensures IsGrid(r, h, w)
    ensures forall y, x :: 0 <= y < h && 0 <= x < w ==> r[y][x] == (a[y][x] || b[y][x])
  {
    seq(h, y requires 0 <= y < h => seq(w, x requires 0 <= x < w => a[y][x] || b[y][x]))
  }

  /** The OR of the masks of `minLineWidth` and of every width from `minLineWidth + 1` to `upto`. */
  function CombinedUpTo(scales: int -> WidthInput, imMask: Option<Grid<bool>>, h: nat, w: nat,
                        minLineWidth: int, upto: int, darkline: bool): (m: Grid<bool>)
    requires h > 0 && w > 0 && (imMask.Some? ==> IsGrid(imMask.value, h, w))
    requires forall lw :: Fits(scales(lw), h, w)
    ensures IsGrid(m, h, w)
    decreases upto - minLineWidth
  {
    if upto <= minLineWidth then WidthMask(scales(minLineWidth), imMask, h, w, darkline)
    else Or(CombinedUpTo(scales, imMask, h, w, minLineWidth, upto - 1, darkline),
            WidthMask(scales(upto), imMask, h, w, darkline), h, w)
  }

  /**
   * A pixel of the combined mask is set exactly when the mask of some contributing width
   * sets it.
   */
  lemma {:induction false} CombinedUpToMeaning(scales: int -> WidthInput, imMask: Option<Grid<bool>>, h: nat, w: nat,
                                               minLineWidth: int, upto: int, darkline: bool, y: nat, x: nat)
    requires h > 0 && w > 0 && (imMask.Some? ==> IsGrid(imMask.value, h, w))
    requires forall lw :: Fits(scales(lw), h, w)
    requires y < h && x < w
    ensures CombinedUpTo(scales, imMask, h, w, minLineWidth, upto, darkline)[y][x] <==>
      exists lw :: Contributes(minLineWidth, upto, lw) && WidthMask(scales(lw), imMask, h, w, darkline)[y][x]
    decreases upto - minLineWidth
  {
    if upto > minLineWidth {
      CombinedUpToMeaning(scales, imMask, h, w, minLineWidth, upto - 1, darkline, y, x);
      assert forall lw :: Contributes(minLineWidth, upto, lw) <==> Contributes(minLineWidth, upto - 1, lw) || lw == upto;
    }
  }

  /**
   * The loop over line widths: the mask of `minLineWidth`, OR-ed with the mask of each width
   * up to `maxLineWidth`. A pixel is set exactly when the mask of some contributing width
   * sets it, and when `maxLineWidth <= minLineWidth` the result is the mask of
   * `minLineWidth` alone.
   */
  method CombineLineWidths(scales: int -> WidthInput, imMask: Option<Grid<bool>>, h: nat, w: nat,
                           minLineWidth: int, maxLineWidth: int, darkline: bool)
    returns (combined: Grid<bool>)
    requires h > 0 && w > 0 && (imMask.Some? ==> IsGrid(imMask.value, h, w))
    requires forall lw :: Fits(scales(lw), h, w)
    ensures combined == CombinedUpTo(scales, imMask, h, w, minLineWidth, maxLineWidth, darkline)
    ensures IsGrid(combined, h, w)
    ensures forall y, x :: 0 <= y < h && 0 <= x < w ==>
      (combined[y][x] <==> exists lw :: Contributes(minLineWidth, maxLineWidth, lw) && WidthMask(scales(lw), imMask, h, w, darkline)[y][x])
    ensures maxLineWidth <= minLineWidth ==> combined == WidthMask(scales(minLineWidth), imMask, h, w, darkline)
  {
    var mask, response, lower, upper := RidgeMaskForLineWidth(scales(minLineWidth), imMask, h, w, darkline);
    combined := mask;
    var lw := minLineWidth + 1;
    while lw <= maxLineWidth
      invariant minLineWidth < lw
      invariant lw <= maxLineWidth + 1 || lw == minLineWidth + 1
      invariant combined == CombinedUpTo(scales, imMask, h, w, minLineWidth, lw - 1, darkline)
      decreases maxLineWidth - lw
    {
      mask, response, lower, upper := RidgeMaskForLineWidth(scales(lw), imMask, h, w, darkline);
      combined := Or(combined, mask, h, w);
      lw := lw + 1;
    }
    if maxLineWidth <= minLineWidth {
      assert lw - 1 == minLineWidth;
      assert CombinedUpTo(scales, imMask, h, w, minLineWidth, maxLineWidth, darkline) == WidthMask(scales(minLineWidth), imMask, h, w, darkline);
    } else {
      assert lw - 1 == maxLineWidth;
    }
    forall y, x | 0 <= y < h && 0 <= x < w
      ensures combined[y][x] <==> exists l :: Contributes(minLineWidth, maxLineWidth, l) && WidthMask(scales(l), imMask, h, w, darkline)[y][x]
    {
      CombinedUpToMeaning(scales, imMask, h, w, minLineWidth, maxLineWidth, darkline, y, x);
    }
  }

  /**
   * The skeleton stage: `None` without `do_skeleton`; otherwise the skeleton of the combined
   * mask, pruned when asked, and `None` when it has no pixel left.
   */
  function SkeletonStage(combined: Grid<bool>, h: nat, w: nat, doSkeleton: bool, pruneShort: bool, minimumBranchLength: real,
                         skeletonize: Grid<bool> -> Grid<bool>, summarize: Grid<bool> -> seq<Branch>): (skel: Option<Grid<bool>>)
    requires IsGrid(combined, h, w) && IsGrid(skeletonize(combined), h, w)
    ensures skel.Some? ==> doSkeleton && IsGrid(skel.value, h, w) && CountTrue(skel.value) > 0
    ensures doSkeleton && !pruneShort && CountTrue(skeletonize(combined)) > 0 ==> skel == Some(skeletonize(combined))
    ensures doSkeleton && pruneShort && CountTrue(skeletonize(combined)) > 0 ==>
      forall y, x :: 0 <= y < h && 0 <= x < w ==>
        ((skel.Some? && skel.value[y][x]) <==> (y, x) in KeptCells(summarize(skeletonize(combined)), minimumBranchLength))
  {
    if !doSkeleton then None
    else
      var sk := skeletonize(combined);
      var pruned := if pruneShort then Pruned(Some(sk), summarize(sk), minimumBranchLength, h, w) else Some(sk);
      CountTrueZero(pruned.value);
      if CountTrue(pruned.value) == 0 then None else pruned
  }

  /** A skeleton with no pixel, pruned or not, is reported as `None`. */
  lemma EmptySkeletonIsNone(combined: Grid<bool>, h: nat, w: nat, doSkeleton: bool, pruneShort: bool, minimumBranchLength: real,
                            skeletonize: Grid<bool> -> Grid<bool>, summarize: Grid<bool> -> seq<Branch>)
    requires IsGrid(combined, h, w) && IsGrid(skeletonize(combined), h, w)
    requires CountTrue(skeletonize(combined)) == 0
    ensures SkeletonStage(combined, h, w, doSkeleton, pruneShort, minimumBranchLength, skeletonize, summarize).None?
  {
  }

  /**
   * `run_multiscale_ridge_detection` from the per-width library results: the combined mask and
   * the optional skeleton. `skeletonize` and `summarize` stand for skimage's `skeletonize` and
   * skan's branch summary (with path coordinates).
   */
  method RunMultiscaleRidgeDetection(scales: int -> WidthInput, imMask: Option<Grid<bool>>, h: nat, w: nat,
                                     minLineWidth: int, maxLineWidth: int, minimumBranchLength: real,
                                     doSkeleton: bool, pruneShort: bool, darkline: bool,
                                     skeletonize: Grid<bool> -> Grid<bool>, summarize: Grid<bool> -> seq<Branch>)
    returns (combined: Grid<bool>, skel: Option<Grid<bool>>)
    requires h > 0 && w > 0 && (imMask.Some? ==> IsGrid(imMask.value, h, w))
    requires forall lw :: Fits(scales(lw), h, w)
    requires forall g :: IsGrid(g, h, w) ==> IsGrid(skeletonize(g), h, w)
    requires forall g :: PathsInBounds(summarize(g), h, w)
    ensures IsGrid(combined, h, w)
    ensures forall y, x :: 0 <= y < h && 0 <= x < w ==>
      (combined[y][x] <==> exists lw :: Contributes(minLineWidth, maxLineWidth, lw) && WidthMask(scales(lw), imMask, h, w, darkline)[y][x])
    ensures combined == CombinedUpTo(scales, imMask, h, w, minLineWidth, maxLineWidth, darkline)
    ensures skel == SkeletonStage(combined, h, w, doSkeleton, pruneShort, minimumBranchLength, skeletonize, summarize)
  {
    combined := CombineLineWidths(scales, imMask, h, w, minLineWidth, maxLineWidth, darkline);
    if doSkeleton {
      var sk := skeletonize(combined);
      var s := Some(sk);
      if pruneShort {
        s := RemoveShortComponents(s, summarize(sk), minimumBranchLength, h, w);
      }
      if CountTrue(s.value) == 0 {
        skel := None;
      } else {
        skel := s;
      }
    } else {
      skel := None;
    }
  }
}
