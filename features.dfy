/**
 * Per-patch skeleton features of `segmentation_features`: for every AFT patch centre the
 * square window around it is cut out of the skeleton and the ridge mask, and a record holds
 * the ridge density (HDM), the endpoint and branch-point counts of the patch's skeleton graph
 * and their values per unit of branch length. The skeleton graph itself (skan's `summarize`
 * and the node degrees of `skeleton_to_nx`) is a library result given as a function.
 */
module SegmentationFeatures {
  import opened Wrappers
  import opened Grids
  import opened Seqs
  import opened Strings
  import opened SkeletonFilter
  import opened RidgeDetection

  /** `int(v)` for a float: truncation toward zero. */
  function Trunc(v: real): (r: int)
    ensures v >= 0.0 ==> r as real <= v < r as real + 1.0
    ensures v < 0.0 ==> r as real - 1.0 < v <= r as real
  {
    if v >= 0.0 then v.Floor else -((-v).Floor)
  }

  /** The image label: `os.path.splitext(os.path.basename(path))[0]`. */
  function FeatureLabel(path: string): string
  {
    SplitExtRoot(Basename(path))
  }

  /** The window `[y1, y2) x [x1, x2)` of a patch numpy slices out of an image. */
  function SubGrid<T>(g: Grid<T>, y1: nat, y2: nat, x1: nat, x2: nat, h: nat, w: nat): (p: Grid<T>)
    requires IsGrid(g, h, w) && y1 <= y2 <= h && x1 <= x2 <= w
    ensures IsGrid(p, y2 - y1, x2 - x1)
    ensures forall i, j :: 0 <= i < y2 - y1 && 0 <= j < x2 - x1 ==> p[i][j] == g[y1 + i][x1 + j]
  {
    seq(y2 - y1, i requires 0 <= i < y2 - y1 => g[y1 + i][x1..x2])
  }

  // ---------------------------------------------------------------------------
  // Counts on the skeleton graph of one patch
  // ---------------------------------------------------------------------------

  /**
   * One row of skan's `summarize` table for a patch skeleton, with every column the table
   * carries: the skeleton and its two end nodes, the branch length and type, the pixel
   * statistics along the branch, the end coordinates (in pixels and in spacing units) and
   * the straight-line distance. Paths are not part of the table.
   */
  datatype SummaryRow = SummaryRow(skeletonId: int, nodeSrc: int, nodeDst: int, dist: real, btype: int,
                                   meanPixel: real, stdevPixel: real,
                                   imageSrc: (real, real), imageDst: (real, real),
                                   coordSrc: (real, real), coordDst: (real, real), euclidean: real)

  function BranchTypes(bs: seq<SummaryRow>): (t: seq<int>)
    ensures |t| == |bs| && forall i :: 0 <= i < |bs| ==> t[i] == bs[i].btype
  {
    seq(|bs|, i requires 0 <= i < |bs| => bs[i].btype)
  }

  /** `value_counts` of the branch types: twice the type-0 count plus the type-1 count. */
  function Endpoints(bs: seq<SummaryRow>): nat
  {
    var counts := multiset(BranchTypes(bs));
    2 * counts[0] + counts[1]
  }

  /** Endpoints contributed by one branch: an isolated branch has two, a junction-to-end branch one. */
  function EndsOf(b: SummaryRow): nat
  {
    if b.btype == 0 then 2 else if b.btype == 1 then 1 else 0
  }

  function EndsSum(bs: seq<SummaryRow>): nat
  {
    if bs == [] then 0 else EndsOf(bs[0]) + EndsSum(bs[1..])
  }

  /** The count from the type histogram is the sum over branches of each branch's own endpoints. */
  lemma {:induction false} EndpointsPerBranch(bs: seq<SummaryRow>)
    ensures Endpoints(bs) == EndsSum(bs)
  {
    if bs != [] {
      EndpointsPerBranch(bs[1..]);
      var m := BranchTypesCons(bs);
      var rest := multiset(BranchTypes(bs[1..]));
      assert m[0] == rest[0] + if bs[0].btype == 0 then 1 else 0;
      assert m[1] == rest[1] + if bs[0].btype == 1 then 1 else 0;
    }
  }

  lemma BranchTypesCons(bs: seq<SummaryRow>) returns (m: multiset<int>)
    requires bs != []
    ensures m == multiset(BranchTypes(bs)) == multiset{bs[0].btype} + multiset(BranchTypes(bs[1..]))
  {
    assert BranchTypes(bs) == [bs[0].btype] + BranchTypes(bs[1..]);
    m := multiset(BranchTypes(bs));
  }

  /** `branch_point.count(True)`: the nodes of degree exactly three. */
  function BranchPoints(degrees: seq<nat>): nat
  {
    CountIf(degrees, d => d == 3)
  }

  /** The branch-point count is the multiplicity of degree three among the node degrees. */
  lemma {:induction false} BranchPointsAreDegreeThree(degrees: seq<nat>)
    ensures BranchPoints(degrees) == multiset(degrees)[3]
  {
    if degrees != [] {
      BranchPointsAreDegreeThree(degrees[1..]);
      assert degrees == [degrees[0]] + degrees[1..];
    }
  }

  function Distances(bs: seq<SummaryRow>): (d: seq<real>)
    ensures |d| == |bs| && forall i :: 0 <= i < |bs| ==> d[i] == bs[i].dist
  {
    seq(|bs|, i requires 0 <= i < |bs| => bs[i].dist)
  }

  /** A count per unit of total branch length; `NaN` unless the total length is positive. */
  function PerLength(count: nat, total: real): (r: Option<real>)
    ensures r.Some? <==> total > 0.0
    ensures r.Some? ==> r.value * total == count as real && r.value >= 0.0
  {
    if total > 0.0 then Some(count as real / total) else None
  }

  /** HDM: the fraction of the patch's pixels set in the ridge mask. */
  function Hdm(maskPatch: Grid<bool>, size: nat): real
    requires size > 0
  {
    CountTrue(maskPatch) as real / size as real
  }

  lemma FractionInUnitRange(c: nat, n: nat)
    requires 0 < n && c <= n
    ensures 0.0 <= c as real / n as real <= 1.0
    ensures c as real / n as real == 0.0 <==> c == 0
  {
  }

  /** HDM lies in [0,1], and is zero exactly when the mask patch has no pixel set. */
  lemma HdmInUnitRange(maskPatch: Grid<bool>, h: nat, w: nat)
    requires h * w > 0 && IsGrid(maskPatch, h, w)
    ensures 0.0 <= Hdm(maskPatch, h * w) <= 1.0
    ensures Hdm(maskPatch, h * w) == 0.0 <==> CountTrue(maskPatch) == 0
  {
    CountTrueAtMost(maskPatch, h, w);
    FractionInUnitRange(CountTrue(maskPatch), h * w);
  }

  // ---------------------------------------------------------------------------
  // One patch
  // ---------------------------------------------------------------------------

  datatype FeatureRecord = FeatureRecord(
    imageName: string, ecmX: int, ecmY: int, hdm: real,
    endpoints: nat, normEndpoints: Option<real>, normBranch: Option<real>, branchPoints: nat)

  /**
   * The skeleton-graph results the patch features use: skan's branch table of a patch
   * (`None` when skan raises `ValueError`) and the node degrees of its graph.
   */
  datatype PatchGraph = PatchGraph(summarize: Grid<bool> -> Option<seq<SummaryRow>>, degrees: Grid<bool> -> seq<nat>)

  /** The window of side `2 * half` centred on `(xi, yi)` lies inside an `h` by `w` image. */
  predicate Inside(xi: int, yi: int, half: nat, h: nat, w: nat)
  {
    xi - half >= 0 && yi - half >= 0 && xi + half <= w && yi + half <= h
  }

  /** The `2 * half` square window of `g` centred on `(xi, yi)`. */
  function Window<T>(g: Grid<T>, xi: int, yi: int, half: nat, h: nat, w: nat): (p: Grid<T>)
    requires IsGrid(g, h, w) && Inside(xi, yi, half, h, w)
    ensures IsGrid(p, 2 * half, 2 * half)
  {
    SubGrid(g, yi - half, yi + half, xi - half, xi + half, h, w)
  }

  /** The record of a patch that skan accepted, from its branch table and node degrees. */
  function RecordOf(name: string, xi: int, yi: int, rows: seq<SummaryRow>, degrees: seq<nat>,
                    maskPatch: Grid<bool>, size: nat): FeatureRecord
    requires size > 0
  {
    var bs := Unique(rows);
    var m := Endpoints(bs);
    var nb := BranchPoints(degrees);
    var total := Sum(Distances(bs));
    FeatureRecord(name, xi, yi, Hdm(maskPatch, size), m, PerLength(m, total), PerLength(nb, total), nb)
  }

  /**
   * A patch record: HDM lies in [0,1]; the de-duplicated table holds every distinct summary
   * row exactly once, and the endpoints are counted per row of it;
   * the branch points are the degree-three nodes; and the normalised counts exist exactly when
   * the total length of the de-duplicated branches is positive.
   */
  lemma RecordOfMeaning(name: string, xi: int, yi: int, rows: seq<SummaryRow>, degrees: seq<nat>,
                        maskPatch: Grid<bool>, side: nat)
    requires side > 0 && IsGrid(maskPatch, side, side)
    ensures var r := RecordOf(name, xi, yi, rows, degrees, maskPatch, side * side);
      r.imageName == name && r.ecmX == xi && r.ecmY == yi &&
      0.0 <= r.hdm <= 1.0 &&
      (forall v :: multiset(Unique(rows))[v] == if v in rows then 1 else 0) &&
      r.endpoints == EndsSum(Unique(rows)) &&
      r.branchPoints == multiset(degrees)[3] &&
      (r.normEndpoints.Some? <==> Sum(Distances(Unique(rows))) > 0.0) &&
      (r.normBranch.Some? <==> Sum(Distances(Unique(rows))) > 0.0)
  {
    HdmInUnitRange(maskPatch, side, side);
    UniqueOnce(rows);
    EndpointsPerBranch(Unique(rows));
    BranchPointsAreDegreeThree(degrees);
  }

  /**
   * Two branches whose summary rows agree in every column (two arcs of equal length joining
   * the same two junctions) are one row after `drop_duplicates`: their endpoints and their
   * length are counted once.
   */
  lemma IdenticalRowsCountOnce(a: SummaryRow, b: SummaryRow)
    requires a == b
    ensures Unique([a, b]) == [a]
    ensures EndsSum(Unique([a, b])) == EndsOf(a)
    ensures Sum(Distances(Unique([a, b]))) == a.dist
  {
    assert [a, b][..1] == [a];
  }

  /**
   * The record of the patch centred on `(xx, yy)`, or `None` when the patch is skipped:
   * its window leaves the image, its skeleton is empty, or skan rejects it.
   */
  function PatchFeatures(name: string, skel: Grid<bool>, mask: Grid<bool>, h: nat, w: nat,
                         xx: real, yy: real, windowSize: nat, graph: PatchGraph): Option<FeatureRecord>
    requires IsGrid(skel, h, w) && IsGrid(mask, h, w)
  {
    var xi := Trunc(xx);
    var yi := Trunc(yy);
    var half := windowSize / 2;
    if !Inside(xi, yi, half, h, w) then None
    else
      var patch := Window(skel, xi, yi, half, h, w);
      if CountTrue(patch) == 0 then None
      else
        match graph.summarize(patch)
        case None => None
        case Some(rows) =>
          assert half > 0;
          Some(RecordOf(name, xi, yi, rows, graph.degrees(patch), Window(mask, xi, yi, half, h, w), (2 * half) * (2 * half)))
  }

  /**
   * A patch whose window leaves the image, or whose skeleton window is empty, is skipped; a
   * record comes only from a window of positive side inside the image, centred on the
   * truncated coordinates, and its HDM lies in [0,1].
   */
  lemma PatchFeaturesBounds(name: string, skel: Grid<bool>, mask: Grid<bool>, h: nat, w: nat,
                            xx: real, yy: real, windowSize: nat, graph: PatchGraph)
    requires IsGrid(skel, h, w) && IsGrid(mask, h, w)
    ensures var xi, yi, half := Trunc(xx), Trunc(yy), windowSize / 2;
      var r := PatchFeatures(name, skel, mask, h, w, xx, yy, windowSize, graph);
      (!Inside(xi, yi, half, h, w) ==> r.None?) &&
      (Inside(xi, yi, half, h, w) && CountTrue(Window(skel, xi, yi, half, h, w)) == 0 ==> r.None?) &&
      (r.Some? ==>
         Inside(xi, yi, half, h, w) && half > 0 &&
         r.value.imageName == name && r.value.ecmX == xi && r.value.ecmY == yi &&
         0.0 <= r.value.hdm <= 1.0)
  {
    var xi, yi, half := Trunc(xx), Trunc(yy), windowSize / 2;
    var r := PatchFeatures(name, skel, mask, h, w, xx, yy, windowSize, graph);
    if r.Some? {
      var patch := Window(skel, xi, yi, half, h, w);
      RecordOfMeaning(name, xi, yi, graph.summarize(patch).value, graph.degrees(patch), Window(mask, xi, yi, half, h, w), 2 * half);
    }
  }

  // ---------------------------------------------------------------------------
  // One image and the image list
  // ---------------------------------------------------------------------------

  function AsList<T>(o: Option<T>): (l: seq<T>)
    ensures |l| <= 1
  {
    if o.Some? then [o.value] else []
  }

  /** The records of the first `n` patch centres (`zip` stops at the shorter list). */
  function ImageRecords(name: string, skel: Grid<bool>, mask: Grid<bool>, h: nat, w: nat,
                        xs: seq<real>, ys: seq<real>, n: nat, windowSize: nat, graph: PatchGraph): (r: seq<FeatureRecord>)
    requires IsGrid(skel, h, w) && IsGrid(mask, h, w) && n <= |xs| && n <= |ys|
    ensures |r| <= n
  {
    if n == 0 then []
    else ImageRecords(name, skel, mask, h, w, xs, ys, n - 1, windowSize, graph) +
         AsList(PatchFeatures(name, skel, mask, h, w, xs[n - 1], ys[n - 1], windowSize, graph))
  }

  lemma ImageRecordsNext(name: string, skel: Grid<bool>, mask: Grid<bool>, h: nat, w: nat,
                         xs: seq<real>, ys: seq<real>, n: nat, windowSize: nat, graph: PatchGraph)
    requires IsGrid(skel, h, w) && IsGrid(mask, h, w) && n < |xs| && n < |ys|
    ensures ImageRecords(name, skel, mask, h, w, xs, ys, n + 1, windowSize, graph) ==
      ImageRecords(name, skel, mask, h, w, xs, ys, n, windowSize, graph) +
      AsList(PatchFeatures(name, skel, mask, h, w, xs[n], ys[n], windowSize, graph))
  {
  }

  function Min(a: nat, b: nat): nat { if a <= b then a else b }

  /** The loop over the patch centres of one image, appending a record for every patch kept. */
  method ImageFeatures(name: string, skel: Grid<bool>, mask: Grid<bool>, h: nat, w: nat,
                       xs: seq<real>, ys: seq<real>, windowSize: nat, graph: PatchGraph)
    returns (records: seq<FeatureRecord>)
    requires IsGrid(skel, h, w) && IsGrid(mask, h, w)
    ensures records == ImageRecords(name, skel, mask, h, w, xs, ys, Min(|xs|, |ys|), windowSize, graph)
    ensures |records| <= |xs| && |records| <= |ys|
  {
    records := [];
    var k := 0;
    while k < Min(|xs|, |ys|)
      invariant k <= Min(|xs|, |ys|)
      invariant records == ImageRecords(name, skel, mask, h, w, xs, ys, k, windowSize, graph)
    {
      var rec := PatchFeatures(name, skel, mask, h, w, xs[k], ys[k], windowSize, graph);
      ImageRecordsNext(name, skel, mask, h, w, xs, ys, k, windowSize, graph);
      if rec.Some? {
        records := records + [rec.value];
      }
      k := k + 1;
    }
  }

  /** One input image: its path, the per-width eigenvalue grids and thresholds, and the AFT patch centres. */
  datatype FeatureImage = FeatureImage(path: string, scales: int -> WidthInput, xs: seq<real>, ys: seq<real>)

  /** The parameters of `segmentation_features` the model uses. */
  datatype Config = Config(windowSize: nat, minLineWidth: int, maxLineWidth: int, minimumBranchLength: real,
                           doSkeleton: bool, pruneShort: bool, darkline: bool)

  /** The whole-image library results: `skeletonize` and skan's branch table used for pruning. */
  datatype Skeletoniser = Skeletoniser(skeletonize: Grid<bool> -> Grid<bool>, summarize: Grid<bool> -> seq<Branch>)

  /** The image's eigenvalue grids all have the common shape. */
  ghost predicate ImageFits(img: FeatureImage, h: nat, w: nat)
  {
    forall lw :: Fits(img.scales(lw), h, w)
  }

  /** Skeletonising keeps the shape, and the branch paths stay inside the image. */
  ghost predicate ShapeKept(sk: Skeletoniser, h: nat, w: nat)
  {
    (forall g {:trigger sk.skeletonize(g)} :: IsGrid(g, h, w) ==> IsGrid(sk.skeletonize(g), h, w)) &&
    (forall g :: PathsInBounds(sk.summarize(g), h, w))
  }

  /** Every image has the common shape of the image mask, and the library keeps that shape. */
  ghost predicate Fitting(images: seq<FeatureImage>, imMask: Option<Grid<bool>>, h: nat, w: nat, sk: Skeletoniser)
  {
    h > 0 && w > 0 && (imMask.Some? ==> IsGrid(imMask.value, h, w)) &&
    (forall i :: 0 <= i < |images| ==> ImageFits(images[i], h, w)) &&
    ShapeKept(sk, h, w)
  }

  /** The combined ridge mask of one image (`run_multiscale_ridge_detection`'s first result). */
  function RidgeMaskOf(img: FeatureImage, imMask: Option<Grid<bool>>, h: nat, w: nat, cfg: Config): (m: Grid<bool>)
    requires h > 0 && w > 0 && (imMask.Some? ==> IsGrid(imMask.value, h, w)) && ImageFits(img, h, w)
    ensures IsGrid(m, h, w)
  {
    CombinedUpTo(img.scales, imMask, h, w, cfg.minLineWidth, cfg.maxLineWidth, cfg.darkline)
  }

  /** The skeleton of one image (`run_multiscale_ridge_detection`'s second result). */
  function SkeletonOf(img: FeatureImage, imMask: Option<Grid<bool>>, h: nat, w: nat, cfg: Config, sk: Skeletoniser): Option<Grid<bool>>
    requires h > 0 && w > 0 && (imMask.Some? ==> IsGrid(imMask.value, h, w)) && ImageFits(img, h, w) && ShapeKept(sk, h, w)
  {
    SkeletonStage(RidgeMaskOf(img, imMask, h, w, cfg), h, w, cfg.doSkeleton, cfg.pruneShort, cfg.minimumBranchLength,
                  sk.skeletonize, sk.summarize)
  }

  /** The records of one image: none when it has no skeleton, else one per patch kept. */
  function ImageFeatureRecords(img: FeatureImage, imMask: Option<Grid<bool>>, h: nat, w: nat,
                               cfg: Config, sk: Skeletoniser, graph: PatchGraph): seq<FeatureRecord>
    requires h > 0 && w > 0 && (imMask.Some? ==> IsGrid(imMask.value, h, w)) && ImageFits(img, h, w) && ShapeKept(sk, h, w)
  {
    var skel := SkeletonOf(img, imMask, h, w, cfg, sk);
    if skel.None? then []
    else ImageRecords(FeatureLabel(img.path), skel.value, RidgeMaskOf(img, imMask, h, w, cfg), h, w,
                      img.xs, img.ys, Min(|img.xs|, |img.ys|), cfg.windowSize, graph)
  }

  /** The records of each image, in image order. */
  function FeatureParts(images: seq<FeatureImage>, imMask: Option<Grid<bool>>, h: nat, w: nat,
                        cfg: Config, sk: Skeletoniser, graph: PatchGraph): (parts: seq<seq<FeatureRecord>>)
    requires Fitting(images, imMask, h, w, sk)
    ensures |parts| == |images|
  {
    seq(|images|, i requires 0 <= i < |images| => ImageFeatureRecords(images[i], imMask, h, w, cfg, sk, graph))
  }

  /** The records of all images, in image order. */
  function FeatureRecords(images: seq<FeatureImage>, imMask: Option<Grid<bool>>, h: nat, w: nat,
                          cfg: Config, sk: Skeletoniser, graph: PatchGraph): seq<FeatureRecord>
    requires Fitting(images, imMask, h, w, sk)
  {
    Concat(FeatureParts(images, imMask, h, w, cfg, sk, graph))
  }

  /** The body of the image loop: the label, the ridge detection and, given a skeleton, the patch records. */
  method ImageFeaturesOf(img: FeatureImage, imMask: Option<Grid<bool>>, h: nat, w: nat,
                         cfg: Config, sk: Skeletoniser, graph: PatchGraph)
    returns (recs: seq<FeatureRecord>)
    requires h > 0 && w > 0 && (imMask.Some? ==> IsGrid(imMask.value, h, w)) && ImageFits(img, h, w) && ShapeKept(sk, h, w)
    ensures recs == ImageFeatureRecords(img, imMask, h, w, cfg, sk, graph)
  {
    var name := FeatureLabel(img.path);
    var mask, skel := RunMultiscaleRidgeDetection(img.scales, imMask, h, w, cfg.minLineWidth, cfg.maxLineWidth,
                                                  cfg.minimumBranchLength, cfg.doSkeleton, cfg.pruneShort, cfg.darkline,
                                                  sk.skeletonize, sk.summarize);
    if skel.None? {
      recs := [];
    } else {
      recs := ImageFeatures(name, skel.value, mask, h, w, img.xs, img.ys, cfg.windowSize, graph);
    }
  }

  /**
   * `segmentation_features` with the image mask passed on to the ridge detector as given:
   * the records of every image, in image order.
   */
  method Features(images: seq<FeatureImage>, imMask: Option<Grid<bool>>, h: nat, w: nat,
                  cfg: Config, sk: Skeletoniser, graph: PatchGraph)
    returns (records: seq<FeatureRecord>)
    requires Fitting(images, imMask, h, w, sk)
    ensures records == FeatureRecords(images, imMask, h, w, cfg, sk, graph)
  {
    ghost var parts := FeatureParts(images, imMask, h, w, cfg, sk, graph);
    records := [];
    for i := 0 to |images|
      invariant records == Concat(parts[..i])
    {
      var recs := ImageFeaturesOf(images[i], imMask, h, w, cfg, sk, graph);
      ConcatNext(parts, i);
      records := records + recs;
    }
    assert parts[..|images|] == parts;
  }

  /**
   * `segmentation_features` as the code is written: before the ridge detector runs, a missing
   * image mask is replaced by an all-true grid of the image's shape.
   */
  method FeaturesAsWritten(images: seq<FeatureImage>, imMask: Option<Grid<bool>>, h: nat, w: nat,
                           cfg: Config, sk: Skeletoniser, graph: PatchGraph)
    returns (records: seq<FeatureRecord>)
    requires Fitting(images, MaskAsWritten(imMask, h, w), h, w, sk)
    ensures records == FeatureRecords(images, MaskAsWritten(imMask, h, w), h, w, cfg, sk, graph)
  {
    var m := if imMask.None? then Some(Filled(h, w, true)) else imMask;
    records := Features(images, m, h, w, cfg, sk, graph);
  }

  // ---------------------------------------------------------------------------
  // The missing image mask
  // ---------------------------------------------------------------------------

  /**
   * The mask the ridge detector receives as the code is written: without an image mask an
   * all-true grid is used, although the detector treats true pixels as background.
   */
  function MaskAsWritten(imMask: Option<Grid<bool>>, h: nat, w: nat): (m: Option<Grid<bool>>)
    ensures m.Some? && IsGrid(m.value, h, w) <==> imMask.None? || IsGrid(imMask.value, h, w)
    ensures imMask.None? ==> forall y, x :: 0 <= y < h && 0 <= x < w ==> m.value[y][x]
    ensures imMask.Some? ==> m == imMask
  {
    if imMask.None? then Some(Filled(h, w, true)) else imMask
  }

  /** With every pixel marked as background, no width's mask, and so no combined mask, has a pixel. */
  lemma AllBackgroundMaskIsEmpty(scales: int -> WidthInput, h: nat, w: nat, cfg: Config)
    requires h > 0 && w > 0 && forall lw :: Fits(scales(lw), h, w)
    ensures CountTrue(CombinedUpTo(scales, Some(Filled(h, w, true)), h, w, cfg.minLineWidth, cfg.maxLineWidth, cfg.darkline)) == 0
  {
    var imMask := Some(Filled(h, w, true));
    var c := CombinedUpTo(scales, imMask, h, w, cfg.minLineWidth, cfg.maxLineWidth, cfg.darkline);
    forall y, x | 0 <= y < |c| && 0 <= x < |c[y]| ensures !c[y][x] {
      CombinedUpToMeaning(scales, imMask, h, w, cfg.minLineWidth, cfg.maxLineWidth, cfg.darkline, y, x);
      forall lw ensures !WidthMask(scales(lw), imMask, h, w, cfg.darkline)[y][x] {
        WidthMaskBand(scales(lw), imMask, h, w, cfg.darkline, y, x);
      }
    }
    CountTrueZero(c);
  }

  /** As written, an image processed without an image mask contributes no record. */
  lemma MissingMaskImageHasNoRecords(img: FeatureImage, h: nat, w: nat, cfg: Config, sk: Skeletoniser, graph: PatchGraph)
    requires h > 0 && w > 0 && ImageFits(img, h, w) && ShapeKept(sk, h, w)
    requires forall g {:trigger sk.skeletonize(g)} :: IsGrid(g, h, w) && CountTrue(g) == 0 ==> CountTrue(sk.skeletonize(g)) == 0
    ensures ImageFeatureRecords(img, MaskAsWritten(None, h, w), h, w, cfg, sk, graph) == []
  {
    var mask := RidgeMaskOf(img, MaskAsWritten(None, h, w), h, w, cfg);
    AllBackgroundMaskIsEmpty(img.scales, h, w, cfg);
    EmptySkeletonIsNone(mask, h, w, cfg.doSkeleton, cfg.pruneShort, cfg.minimumBranchLength, sk.skeletonize, sk.summarize);
  }

  /**
   * As written, calling `segmentation_features` without an image mask yields no record at all
   * whenever skeletonising an empty mask gives an empty skeleton.
   */
  lemma MissingMaskYieldsNoRecords(images: seq<FeatureImage>, h: nat, w: nat,
                                   cfg: Config, sk: Skeletoniser, graph: PatchGraph)
    requires Fitting(images, MaskAsWritten(None, h, w), h, w, sk)
    requires forall g {:trigger sk.skeletonize(g)} :: IsGrid(g, h, w) && CountTrue(g) == 0 ==> CountTrue(sk.skeletonize(g)) == 0
    ensures FeatureRecords(images, MaskAsWritten(None, h, w), h, w, cfg, sk, graph) == []
  {
    var parts := FeatureParts(images, MaskAsWritten(None, h, w), h, w, cfg, sk, graph);
    forall i | 0 <= i < |parts| ensures parts[i] == [] {
      MissingMaskImageHasNoRecords(images[i], h, w, cfg, sk, graph);
    }
    ConcatOfEmpty(parts);
  }

  /**
   * Without an image mask no pixel is background: a pixel of an image's ridge mask is set
   * exactly when some contributing width's response lies within that width's thresholds.
   */
  lemma NoMaskKeepsEveryPixel(img: FeatureImage, h: nat, w: nat, cfg: Config, y: nat, x: nat)
    requires h > 0 && w > 0 && ImageFits(img, h, w)
    requires y < h && x < w
    ensures RidgeMaskOf(img, None, h, w, cfg)[y][x] <==>
      exists lw :: Contributes(cfg.minLineWidth, cfg.maxLineWidth, lw) &&
        img.scales(lw).lower <= Response(img.scales(lw).l1, img.scales(lw).l2, h, w, cfg.darkline)[y][x] <= img.scales(lw).upper
  {
    CombinedUpToMeaning(img.scales, None, h, w, cfg.minLineWidth, cfg.maxLineWidth, cfg.darkline, y, x);
    forall lw ensures WidthMask(img.scales(lw), None, h, w, cfg.darkline)[y][x] <==>
      img.scales(lw).lower <= Response(img.scales(lw).l1, img.scales(lw).l2, h, w, cfg.darkline)[y][x] <= img.scales(lw).upper
    {
      WidthMaskBand(img.scales(lw), None, h, w, cfg.darkline, y, x);
    }
  }
}
