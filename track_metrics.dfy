/**
 * Track displacement metrics of `AFT_additional_parameters`: a spot table sorted by track and
 * frame, per-track step differences, net and total distance, the consistency index, the
 * per-step contributions to the forward migration index (FMI) split by sign, and the
 * normalised fibre angle. The Euclidean length of a step (`np.sqrt(dx**2 + dy**2)`) is a
 * parameter `norm`; where a metric needs it to behave like a length the lemma says so with
 * `NormLike`.
 */
module TrackMetrics {
  import opened Wrappers
  import opened Seqs
  import opened Sorting
  import opened Strings

  /** One spot row: `TRACK_ID`, `FRAME`, `ECM_ID`, `POSITION_X`, `POSITION_Y`. */
  datatype Row = Row(trackId: int, frame: int, ecmId: string, x: real, y: real)

  /**
   * The Euclidean length `np.sqrt(dx**2 + dy**2)` of a step is non-negative, and positive for
   * a step that moves along x or y.
   */
  ghost predicate NormLike(norm: (real, real) -> real)
  {
    forall a, b :: 0.0 <= norm(a, b) && (a != 0.0 || b != 0.0 ==> 0.0 < norm(a, b))
  }

  // ---------------------------------------------------------------------------
  // Sorting and grouping
  // ---------------------------------------------------------------------------

  /** Order by (`TRACK_ID`, `FRAME`). */
  predicate TrackFrameLe(a: Row, b: Row)
  {
    a.trackId < b.trackId || (a.trackId == b.trackId && a.frame <= b.frame)
  }

  /** Order by (`TRACK_ID`, `FRAME`, `ECM_ID`). */
  predicate TrackFrameEcmLe(a: Row, b: Row)
  {
    a.trackId < b.trackId ||
    (a.trackId == b.trackId && (a.frame < b.frame || (a.frame == b.frame && StrLe(a.ecmId, b.ecmId))))
  }

  lemma TrackFrameLeTotalPreorder()
    ensures TotalPreorder(TrackFrameLe)
  {
  }

  lemma TrackFrameEcmLeTotalPreorder()
    ensures TotalPreorder(TrackFrameEcmLe)
  {
    forall a, b ensures TrackFrameEcmLe(a, b) || TrackFrameEcmLe(b, a) {
      StrLeTotal(a.ecmId, b.ecmId);
    }
    forall a, b, c | TrackFrameEcmLe(a, b) && TrackFrameEcmLe(b, c) ensures TrackFrameEcmLe(a, c) {
      if a.trackId == b.trackId == c.trackId && a.frame == b.frame == c.frame {
        StrLeTransitive(a.ecmId, b.ecmId, c.ecmId);
      }
    }
  }

  /** `df.sort_values(by=['TRACK_ID', 'FRAME'])`, rows with equal keys kept in input order. */
  function SortByTrackFrame(df: seq<Row>): seq<Row>
  {
    SortBy(df, TrackFrameLe)
  }

  /** The sorted table is ordered by track and frame and holds exactly the input rows. */
  lemma SortByTrackFrameSorts(df: seq<Row>)
    ensures SortedBy(SortByTrackFrame(df), TrackFrameLe)
    ensures multiset(SortByTrackFrame(df)) == multiset(df)
  {
    TrackFrameLeTotalPreorder();
    SortBySorts(df, TrackFrameLe);
  }

  function TrackIds(rows: seq<Row>): (ids: seq<int>)
    ensures |ids| == |rows| && forall k :: 0 <= k < |rows| ==> ids[k] == rows[k].trackId
  {
    seq(|rows|, k requires 0 <= k < |rows| => rows[k].trackId)
  }

  function EcmIdsOf(rows: seq<Row>): (ids: seq<string>)
    ensures |ids| == |rows| && forall k :: 0 <= k < |rows| ==> ids[k] == rows[k].ecmId
  {
    seq(|rows|, k requires 0 <= k < |rows| => rows[k].ecmId)
  }

  /** `df.loc[df['TRACK_ID'] == i]`. */
  function TrackRows(rows: seq<Row>, i: int): seq<Row>
  {
    Filter(rows, (r: Row) => r.trackId == i)
  }

  /** A track that occurs in the table has at least one row. */
  lemma TrackRowsOfPresentTrack(rows: seq<Row>, i: int)
    requires i in TrackIds(rows)
    ensures |TrackRows(rows, i)| > 0
  {
    var k :| 0 <= k < |rows| && TrackIds(rows)[k] == i;
    assert rows[k] in TrackRows(rows, i);
  }

  // ---------------------------------------------------------------------------
  // Steps, sums and means with missing values
  // ---------------------------------------------------------------------------

  function Xs(rows: seq<Row>): (xs: seq<real>)
    ensures |xs| == |rows| && forall k :: 0 <= k < |rows| ==> xs[k] == rows[k].x
  {
    seq(|rows|, k requires 0 <= k < |rows| => rows[k].x)
  }

  function Ys(rows: seq<Row>): (ys: seq<real>)
    ensures |ys| == |rows| && forall k :: 0 <= k < |rows| ==> ys[k] == rows[k].y
  {
    seq(|rows|, k requires 0 <= k < |rows| => rows[k].y)
  }

  function FramesOf(rows: seq<Row>): (fs: seq<int>)
    ensures |fs| == |rows|
  {
    seq(|rows|, k requires 0 <= k < |rows| => rows[k].frame)
  }

  /** `s.shift(-1) - s`: the step to the next position; the last one is missing. */
  function ForwardSteps(xs: seq<real>): (d: seq<Option<real>>)
    ensures |d| == |xs|
  {
    seq(|xs|, k requires 0 <= k < |xs| => if k + 1 < |xs| then Some(xs[k + 1] - xs[k]) else None)
  }

  /** `s - s.shift()`: the step from the previous position; the first one is missing. */
  function BackwardSteps(xs: seq<real>): (d: seq<Option<real>>)
    ensures |d| == |xs|
  {
    seq(|xs|, k requires 0 <= k < |xs| => if k > 0 then Some(xs[k] - xs[k - 1]) else None)
  }

  /** A backward step is the forward step one place earlier. */
  lemma BackwardIsShiftedForward(xs: seq<real>)
    requires |xs| > 0
    ensures BackwardSteps(xs) == [None] + ForwardSteps(xs)[..|xs| - 1]
    ensures ForwardSteps(xs)[|xs| - 1] == None
  {
  }

  /** `Series.sum()`: the sum of the present values (0 when none is present). */
  function NanSum(s: seq<Option<real>>): real
  {
    if s == [] then 0.0 else (if s[0].Some? then s[0].value else 0.0) + NanSum(s[1..])
  }

  /** Number of present values. */
  function Present(s: seq<Option<real>>): (n: nat)
    ensures n <= |s|
  {
    CountIf(s, (o: Option<real>) => o.Some?)
  }

  /** `Series.mean()`: the mean of the present values, `NaN` when none is present. */
  function NanMean(s: seq<Option<real>>): (m: Option<real>)
    ensures m.Some? <==> Present(s) > 0
  {
    if Present(s) > 0 then Some(NanSum(s) / Present(s) as real) else None
  }

  lemma {:induction false} NanSumAppend(a: seq<Option<real>>, b: seq<Option<real>>)
    ensures NanSum(a + b) == NanSum(a) + NanSum(b)
  {
    if a == [] {
      assert a + b == b;
    } else {
      assert (a + b)[1..] == a[1..] + b;
      NanSumAppend(a[1..], b);
    }
  }

  /** With no present value the sum is zero. */
  lemma {:induction false} NanSumOfNone(s: seq<Option<real>>)
    requires forall k :: 0 <= k < |s| ==> s[k].None?
    ensures NanSum(s) == 0.0 && Present(s) == 0
  {
    if s != [] {
      NanSumOfNone(s[1..]);
    }
  }

  /** A sum of non-negative present values is non-negative, and positive once one of them is. */
  lemma {:induction false} NanSumNonNegative(s: seq<Option<real>>)
    requires forall k :: 0 <= k < |s| && s[k].Some? ==> s[k].value >= 0.0
    ensures NanSum(s) >= 0.0
    ensures (exists k :: 0 <= k < |s| && s[k].Some? && s[k].value > 0.0) ==> NanSum(s) > 0.0
  {
    if s != [] {
      NanSumNonNegative(s[1..]);
      if exists k :: 0 <= k < |s| && s[k].Some? && s[k].value > 0.0 {
        var k :| 0 <= k < |s| && s[k].Some? && s[k].value > 0.0;
        if k > 0 {
          assert s[1..][k - 1] == s[k];
        }
      }
    }
  }

  /** The forward steps of a track add up to its displacement from the first to the last position. */
  lemma {:induction false} ForwardStepsTelescope(xs: seq<real>)
    requires |xs| > 0
    ensures NanSum(ForwardSteps(xs)) == xs[|xs| - 1] - xs[0]
  {
    if |xs| > 1 {
      ForwardStepsTelescope(xs[1..]);
      assert ForwardSteps(xs) == [Some(xs[1] - xs[0])] + ForwardSteps(xs[1..]);
    }
  }

  /** So do the backward steps. */
  lemma BackwardStepsTelescope(xs: seq<real>)
    requires |xs| > 0
    ensures NanSum(BackwardSteps(xs)) == xs[|xs| - 1] - xs[0]
  {
    var f := ForwardSteps(xs);
    BackwardIsShiftedForward(xs);
    ForwardStepsTelescope(xs);
    NanSumAppend([None], f[..|xs| - 1]);
    assert f == f[..|xs| - 1] + [f[|xs| - 1]];
    NanSumAppend(f[..|xs| - 1], [f[|xs| - 1]]);
  }

  /** `np.sqrt(dx**2 + dy**2)` step by step; missing where either step is missing. */
  function StepLengths(dx: seq<Option<real>>, dy: seq<Option<real>>, norm: (real, real) -> real): (d: seq<Option<real>>)
    requires |dx| == |dy|
    ensures |d| == |dx|
  {
    seq(|dx|, k requires 0 <= k < |dx| =>
      if dx[k].Some? && dy[k].Some? then Some(norm(dx[k].value, dy[k].value)) else None)
  }

  /** Step lengths are non-negative. */
  lemma StepLengthsNonNegative(dx: seq<Option<real>>, dy: seq<Option<real>>, norm: (real, real) -> real)
    requires |dx| == |dy| && NormLike(norm)
    ensures forall k :: 0 <= k < |dx| && StepLengths(dx, dy, norm)[k].Some? ==> StepLengths(dx, dy, norm)[k].value >= 0.0
  {
    var d := StepLengths(dx, dy, norm);
    forall k | 0 <= k < |dx| && d[k].Some? ensures d[k].value >= 0.0 {
      assert d[k] == Some(norm(dx[k].value, dy[k].value));
      var a, b := dx[k].value, dy[k].value;
      assert 0.0 <= norm(a, b) && (a != 0.0 || b != 0.0 ==> 0.0 < norm(a, b));
    }
  }

  // ---------------------------------------------------------------------------
  // Track metrics
  // ---------------------------------------------------------------------------

  /** The metrics of one track (or of one track within one patch). */
  datatype TrackRecord = TrackRecord(
    trackId: int, frames: seq<int>, dx: seq<Option<real>>, dy: seq<Option<real>>, dR: seq<Option<real>>,
    averageDistance: Option<real>, netDistance: real, totalDistance: real, consistencyIndex: Option<real>)

  /** `net_distance / total_distance_travelled`, `NaN` when the total is zero. */
  function ConsistencyIndex(net: real, total: real): (ci: Option<real>)
    ensures ci.None? <==> total == 0.0
    ensures ci.Some? ==> ci.value * total == net
  {
    if total != 0.0 then Some(net / total) else None
  }

  /** The straight-line distance between the first and the last position. */
  function NetDistance(rows: seq<Row>, norm: (real, real) -> real): real
    requires |rows| > 0
  {
    var ex := rows[|rows| - 1].x - rows[0].x;
    var ey := rows[|rows| - 1].y - rows[0].y;
    norm(ex, ey)
  }

  /** The metrics of the rows of one track, in frame order (`rows` non-empty). */
  function TrackMetricsOf(trackId: int, rows: seq<Row>, norm: (real, real) -> real): TrackRecord
    requires |rows| > 0
  {
    var dx := ForwardSteps(Xs(rows));
    var dy := ForwardSteps(Ys(rows));
    var dR := StepLengths(dx, dy, norm);
    var net := NetDistance(rows, norm);
    var total := NanSum(dR);
    TrackRecord(trackId, FramesOf(rows), dx, dy, dR, NanMean(dR), net, total, ConsistencyIndex(net, total))
  }

  /**
   * Of a track's metrics: the x and y steps add up to the displacement between the first and
   * last positions, so the net distance is the length of the summed steps.
   */
  lemma TrackStepSums(trackId: int, rows: seq<Row>, norm: (real, real) -> real)
    requires |rows| > 0
    ensures var r := TrackMetricsOf(trackId, rows, norm);
      NanSum(r.dx) == rows[|rows| - 1].x - rows[0].x &&
      NanSum(r.dy) == rows[|rows| - 1].y - rows[0].y &&
      r.netDistance == norm(NanSum(r.dx), NanSum(r.dy))
  {
    var xs, ys := Xs(rows), Ys(rows);
    ForwardStepsTelescope(xs);
    ForwardStepsTelescope(ys);
    var r := TrackMetricsOf(trackId, rows, norm);
    assert r.dx == ForwardSteps(xs) && r.dy == ForwardSteps(ys);
  }

  /**
   * Of a track's metrics: the total distance is non-negative, and the consistency index is
   * `ConsistencyIndex` of the net and total distances (net over total, missing exactly when
   * the total is zero).
   */
  lemma TrackDistances(trackId: int, rows: seq<Row>, norm: (real, real) -> real)
    requires |rows| > 0 && NormLike(norm)
    ensures var r := TrackMetricsOf(trackId, rows, norm);
      r.totalDistance >= 0.0 &&
      (r.consistencyIndex.None? <==> r.totalDistance == 0.0) &&
      r.consistencyIndex == ConsistencyIndex(r.netDistance, r.totalDistance)
  {
    var r := TrackMetricsOf(trackId, rows, norm);
    StepLengthsNonNegative(r.dx, r.dy, norm);
    NanSumNonNegative(r.dR);
  }

  /** Both of the above together. */
  lemma TrackMetricsMeaning(trackId: int, rows: seq<Row>, norm: (real, real) -> real)
    requires |rows| > 0 && NormLike(norm)
    ensures var r := TrackMetricsOf(trackId, rows, norm);
      NanSum(r.dx) == rows[|rows| - 1].x - rows[0].x &&
      NanSum(r.dy) == rows[|rows| - 1].y - rows[0].y &&
      r.netDistance == norm(NanSum(r.dx), NanSum(r.dy)) &&
      r.totalDistance >= 0.0 &&
      (r.consistencyIndex.None? <==> r.totalDistance == 0.0) &&
      r.consistencyIndex == ConsistencyIndex(r.netDistance, r.totalDistance)
  {
    TrackStepSums(trackId, rows, norm);
    TrackDistances(trackId, rows, norm);
  }

  /** A track seen in a single frame has no step, a zero total and no consistency index. */
  lemma SingleFrameTrack(trackId: int, row: Row, norm: (real, real) -> real)
    ensures var r := TrackMetricsOf(trackId, [row], norm);
      r.totalDistance == 0.0 && r.averageDistance.None? && r.consistencyIndex.None?
  {
    var r := TrackMetricsOf(trackId, [row], norm);
    NanSumOfNone(r.dR);
  }

  /**
   * `track_additional_metrics` as written: the `return` sits inside the track loop, so only
   * the first track in sorted order is reported, and an empty table returns `None`.
   */
  function TrackAdditionalMetricsAsWritten(df: seq<Row>, norm: (real, real) -> real): Option<seq<TrackRecord>>
  {
    var sorted := SortByTrackFrame(df);
    var ids := Unique(TrackIds(sorted));
    if ids == [] then None
    else
      TrackRowsOfPresentTrack(sorted, ids[0]);
      Some([TrackMetricsOf(ids[0], TrackRows(sorted, ids[0]), norm)])
  }

  /** The loop of `track_additional_metrics`, returning from within its first pass. */
  method TrackAdditionalMetrics(df: seq<Row>, norm: (real, real) -> real) returns (res: Option<seq<TrackRecord>>)
    ensures res == TrackAdditionalMetricsAsWritten(df, norm)
  {
    var sorted := SortByTrackFrame(df);
    var ids := Unique(TrackIds(sorted));
    var records: seq<TrackRecord> := [];
    for k := 0 to |ids|
      invariant k == 0 && records == []
    {
      var group := TrackRows(sorted, ids[k]);
      TrackRowsOfPresentTrack(sorted, ids[k]);
      records := records + [TrackMetricsOf(ids[k], group, norm)];
      assert records == [TrackMetricsOf(ids[0], TrackRows(sorted, ids[0]), norm)];
      return Some(records);
    }
    return None;
  }

  /** Reordering the rows keeps the set of track ids and of patch ids. */
  lemma SameIds(df: seq<Row>, sorted: seq<Row>)
    requires multiset(sorted) == multiset(df)
    ensures forall i :: i in TrackIds(df) <==> i in TrackIds(sorted)
    ensures forall e :: e in EcmIdsOf(df) <==> e in EcmIdsOf(sorted)
  {
    forall r | r in df ensures r in sorted {
      assert r in multiset(sorted);
    }
    forall r | r in sorted ensures r in df {
      assert r in multiset(df);
    }
    forall i ensures i in TrackIds(df) <==> i in TrackIds(sorted) {
      if i in TrackIds(df) {
        var k :| 0 <= k < |df| && TrackIds(df)[k] == i;
        assert df[k] in df;
        var l :| 0 <= l < |sorted| && sorted[l] == df[k];
        assert TrackIds(sorted)[l] == i;
      }
      if i in TrackIds(sorted) {
        var l :| 0 <= l < |sorted| && TrackIds(sorted)[l] == i;
        assert sorted[l] in sorted;
        var k :| 0 <= k < |df| && df[k] == sorted[l];
        assert TrackIds(df)[k] == i;
      }
    }
    forall e ensures e in EcmIdsOf(df) <==> e in EcmIdsOf(sorted) {
      if e in EcmIdsOf(df) {
        var k :| 0 <= k < |df| && EcmIdsOf(df)[k] == e;
        assert df[k] in df;
        var l :| 0 <= l < |sorted| && sorted[l] == df[k];
        assert EcmIdsOf(sorted)[l] == e;
      }
      if e in EcmIdsOf(sorted) {
        var l :| 0 <= l < |sorted| && EcmIdsOf(sorted)[l] == e;
        assert sorted[l] in sorted;
        var k :| 0 <= k < |df| && df[k] == sorted[l];
        assert EcmIdsOf(df)[k] == e;
      }
    }
  }

  /**
   * When the rows are sorted by an order that puts smaller track ids first, the first distinct
   * track id is the smallest track id of the table.
   */
  lemma FirstTrackIsSmallest(df: seq<Row>, sorted: seq<Row>, le: (Row, Row) -> bool)
    requires multiset(sorted) == multiset(df) && SortedBy(sorted, le) && df != []
    requires forall a, b :: le(a, b) ==> a.trackId <= b.trackId
    ensures |Unique(TrackIds(sorted))| > 0
    ensures Unique(TrackIds(sorted))[0] in TrackIds(df)
    ensures forall r :: r in df ==> Unique(TrackIds(sorted))[0] <= r.trackId
  {
    assert |sorted| == |multiset(sorted)| == |df|;
    SameIds(df, sorted);
    assert TrackIds(sorted)[0] == sorted[0].trackId;
    forall r | r in df ensures sorted[0].trackId <= r.trackId {
      assert r in multiset(sorted);
      var k :| 0 <= k < |sorted| && sorted[k] == r;
      if k > 0 {
        assert le(sorted[0], sorted[k]);
      }
    }
  }

  /**
   * As written, the result is `None` exactly for an empty table; otherwise it holds a single
   * record, for the smallest track id.
   */
  lemma TrackAdditionalMetricsFirstTrackOnly(df: seq<Row>, norm: (real, real) -> real)
    ensures TrackAdditionalMetricsAsWritten(df, norm).None? <==> df == []
    ensures var res := TrackAdditionalMetricsAsWritten(df, norm);
      res.Some? ==> |res.value| == 1 && res.value[0].trackId in TrackIds(df) &&
                    forall r :: r in df ==> res.value[0].trackId <= r.trackId
  {
    var sorted := SortByTrackFrame(df);
    SortByTrackFrameSorts(df);
    assert |sorted| == |multiset(sorted)| == |df|;
    if df != [] {
      FirstTrackIsSmallest(df, sorted, TrackFrameLe);
    }
  }

  /** The evidently intended result: one record per distinct track, in track order. */
  function AllTrackMetrics(df: seq<Row>, norm: (real, real) -> real): (res: seq<TrackRecord>)
  {
    var sorted := SortByTrackFrame(df);
    var ids := Unique(TrackIds(sorted));
    seq(|ids|, k requires 0 <= k < |ids| =>
      TrackRowsOfPresentTrack(sorted, ids[k]);
      TrackMetricsOf(ids[k], TrackRows(sorted, ids[k]), norm))
  }

  /** The intended result has one record per distinct track id of the table, none twice. */
  lemma AllTrackMetricsOnePerTrack(df: seq<Row>, norm: (real, real) -> real)
    ensures var res := AllTrackMetrics(df, norm);
      (forall i :: i in TrackIds(df) <==> exists k :: 0 <= k < |res| && res[k].trackId == i) &&
      (forall k, l :: 0 <= k < l < |res| ==> res[k].trackId != res[l].trackId)
  {
    var sorted := SortByTrackFrame(df);
    SortByTrackFrameSorts(df);
    SameIds(df, sorted);
    var ids := Unique(TrackIds(sorted));
    var res := AllTrackMetrics(df, norm);
    assert forall k :: 0 <= k < |res| ==> res[k].trackId == ids[k];
  }

  /** The rows handed to the metrics of one track are that track's rows, in frame order. */
  lemma TrackRowsInFrameOrder(df: seq<Row>, i: int)
    ensures var g := TrackRows(SortByTrackFrame(df), i);
      (forall r :: r in g <==> r in df && r.trackId == i) &&
      (forall a, b :: 0 <= a < b < |g| ==> g[a].frame <= g[b].frame)
  {
    var sorted := SortByTrackFrame(df);
    SortByTrackFrameSorts(df);
    FilterSorted(sorted, (r: Row) => r.trackId == i, TrackFrameLe);
    var g := TrackRows(sorted, i);
    forall a, b | 0 <= a < b < |g| ensures g[a].frame <= g[b].frame {
      assert TrackFrameLe(g[a], g[b]);
    }
    forall r ensures r in sorted <==> r in df {
      assert r in sorted <==> r in multiset(sorted);
    }
  }

  /** The loop the code evidently intends: a record for every track, returning after the loop. */
  method AllTrackAdditionalMetrics(df: seq<Row>, norm: (real, real) -> real) returns (records: seq<TrackRecord>)
    ensures records == AllTrackMetrics(df, norm)
  {
    var sorted := SortByTrackFrame(df);
    var ids := Unique(TrackIds(sorted));
    records := [];
    for k := 0 to |ids|
      invariant records == AllTrackMetrics(df, norm)[..k]
    {
      TrackRowsOfPresentTrack(sorted, ids[k]);
      records := records + [TrackMetricsOf(ids[k], TrackRows(sorted, ids[k]), norm)];
    }
  }

  /** Any table with two different track ids: as written one record is reported, as intended more. */
  lemma EarlyReturnDropsTracks(df: seq<Row>, norm: (real, real) -> real)
    requires exists a, b :: a in df && b in df && a.trackId != b.trackId
    ensures TrackAdditionalMetricsAsWritten(df, norm).Some?
    ensures |TrackAdditionalMetricsAsWritten(df, norm).value| == 1 < |AllTrackMetrics(df, norm)|
  {
    var a, b :| a in df && b in df && a.trackId != b.trackId;
    TrackAdditionalMetricsFirstTrackOnly(df, norm);
    AllTrackMetricsOnePerTrack(df, norm);
    var res := AllTrackMetrics(df, norm);
    var ka :| 0 <= ka < |df| && df[ka] == a;
    var kb :| 0 <= kb < |df| && df[kb] == b;
    assert TrackIds(df)[ka] == a.trackId && TrackIds(df)[kb] == b.trackId;
    assert a.trackId in TrackIds(df) && b.trackId in TrackIds(df);
    var k1 :| 0 <= k1 < |res| && res[k1].trackId == a.trackId;
    var k2 :| 0 <= k2 < |res| && res[k2].trackId == b.trackId;
    assert k1 != k2;
  }

  // ---------------------------------------------------------------------------
  // Per patch
  // ---------------------------------------------------------------------------

  /** The metrics of one track restricted to the rows of one patch. */
  datatype EcmRecord = EcmRecord(ecmId: string, metrics: TrackRecord)

  /** `df.loc[(df['TRACK_ID'] == i) & (df['ECM_ID'] == j)]`. */
  function TrackEcmRows(rows: seq<Row>, i: int, j: string): seq<Row>
  {
    Filter(rows, (r: Row) => r.trackId == i && r.ecmId == j)
  }

  /** Track `i` has a row in each of the first `n` patches of `ecms`. */
  predicate InAllEcms(sorted: seq<Row>, i: int, ecms: seq<string>, n: nat)
    requires n <= |ecms|
  {
    forall k :: 0 <= k < n ==> TrackEcmRows(sorted, i, ecms[k]) != []
  }

  /** The records of track `i` in the first `n` patches (each holding a row of the track). */
  function EcmRecords(sorted: seq<Row>, i: int, ecms: seq<string>, n: nat, norm: (real, real) -> real): (r: seq<EcmRecord>)
    requires n <= |ecms| && InAllEcms(sorted, i, ecms, n)
    ensures |r| == n
  {
    seq(n, k requires 0 <= k < n => EcmRecord(ecms[k], TrackMetricsOf(i, TrackEcmRows(sorted, i, ecms[k]), norm)))
  }

  lemma EcmRecordsNext(sorted: seq<Row>, i: int, ecms: seq<string>, j: nat, norm: (real, real) -> real)
    requires j < |ecms| && InAllEcms(sorted, i, ecms, j + 1)
    ensures EcmRecords(sorted, i, ecms, j + 1, norm) ==
      EcmRecords(sorted, i, ecms, j, norm) + [EcmRecord(ecms[j], TrackMetricsOf(i, TrackEcmRows(sorted, i, ecms[j]), norm))]
  {
  }

  /**
   * The inner loop for track `i`: a record for every patch of `ecms`, unless some patch has no
   * row of the track, where `iloc[-1]` raises `IndexError`.
   */
  function TrackEcmResult(sorted: seq<Row>, i: int, ecms: seq<string>, norm: (real, real) -> real): Result<seq<EcmRecord>>
  {
    if InAllEcms(sorted, i, ecms, |ecms|) then Success(EcmRecords(sorted, i, ecms, |ecms|, norm))
    else Failure("IndexError")
  }

  /** The inner loop over the patch ids, leaving at the first patch without a row of track `i`. */
  method TrackEcmLoop(sorted: seq<Row>, i: int, ecms: seq<string>, norm: (real, real) -> real) returns (res: Result<seq<EcmRecord>>)
    ensures res == TrackEcmResult(sorted, i, ecms, norm)
  {
    var records: seq<EcmRecord> := [];
    for j := 0 to |ecms|
      invariant InAllEcms(sorted, i, ecms, j)
      invariant records == EcmRecords(sorted, i, ecms, j, norm)
    {
      var group := TrackEcmRows(sorted, i, ecms[j]);
      if group == [] {
        return Failure("IndexError");
      }
      assert forall m :: 0 <= m < j + 1 ==> TrackEcmRows(sorted, i, ecms[m]) != [] by {
        assert forall m :: 0 <= m < j ==> TrackEcmRows(sorted, i, ecms[m]) != [];
      }
      EcmRecordsNext(sorted, i, ecms, j, norm);
      records := records + [EcmRecord(ecms[j], TrackMetricsOf(i, group, norm))];
    }
    return Success(records);
  }

  /** `df.sort_values(by=['TRACK_ID', 'FRAME', 'ECM_ID'])`: a reordering of the rows. */
  function SortByTrackFrameEcm(df: seq<Row>): (sorted: seq<Row>)
    ensures multiset(sorted) == multiset(df) && |sorted| == |df|
  {
    var sorted := SortBy(df, TrackFrameEcmLe);
    assert |sorted| == |multiset(sorted)| == |df|;
    sorted
  }

  /** The smallest track id of a non-empty table, the first one after sorting. */
  function FirstTrack(df: seq<Row>): int
    requires df != []
  {
    Unique(TrackIds(SortByTrackFrameEcm(df)))[0]
  }

  /**
   * `track_additional_metrics_per_ECM` as written: after sorting by track, frame and patch id,
   * only the first track is processed (the `return` is inside the track loop), once for every
   * patch id of the whole table; an empty table returns `None`.
   */
  function PerEcmAsWritten(df: seq<Row>, norm: (real, real) -> real): Result<Option<seq<EcmRecord>>>
  {
    var sorted := SortByTrackFrameEcm(df);
    if df == [] then Success(None)
    else
      match TrackEcmResult(sorted, FirstTrack(df), Unique(EcmIdsOf(sorted)), norm)
      case Failure(e) => Failure(e)
      case Success(recs) => Success(Some(recs))
  }

  /** The track loop of `track_additional_metrics_per_ECM`, returning from its first pass. */
  method TrackAdditionalMetricsPerEcm(df: seq<Row>, norm: (real, real) -> real) returns (res: Result<Option<seq<EcmRecord>>>)
    ensures res == PerEcmAsWritten(df, norm)
  {
    var sorted := SortByTrackFrameEcm(df);
    var ids := Unique(TrackIds(sorted));
    var ecms := Unique(EcmIdsOf(sorted));
    for k := 0 to |ids|
      invariant k == 0
    {
      var r := TrackEcmLoop(sorted, ids[k], ecms, norm);
      match r
      case Failure(e) => return Failure(e);
      case Success(records) => return Success(Some(records));
    }
    return Success(None);
  }

  lemma MissingEcm(sorted: seq<Row>, i: int, ecms: seq<string>, e: string)
    requires e in ecms && TrackEcmRows(sorted, i, e) == []
    ensures !InAllEcms(sorted, i, ecms, |ecms|)
  {
    var k :| 0 <= k < |ecms| && ecms[k] == e;
  }

  /** A track has no row in a patch of the sorted table exactly when it has none in the table. */
  lemma NoRowsInEcm(df: seq<Row>, i: int, e: string)
    ensures TrackEcmRows(SortByTrackFrameEcm(df), i, e) == [] <==> forall r :: r in df ==> !(r.trackId == i && r.ecmId == e)
  {
    var sorted := SortByTrackFrameEcm(df);
    forall r ensures r in sorted <==> r in df {
      assert r in sorted <==> r in multiset(sorted);
    }
    if TrackEcmRows(sorted, i, e) != [] {
      assert TrackEcmRows(sorted, i, e)[0] in TrackEcmRows(sorted, i, e);
    }
  }

  /** The first track is the smallest track id of the table. */
  lemma FirstTrackSmallest(df: seq<Row>)
    requires df != []
    ensures FirstTrack(df) in TrackIds(df) && forall r :: r in df ==> FirstTrack(df) <= r.trackId
  {
    TrackFrameEcmLeTotalPreorder();
    SortBySorts(df, TrackFrameEcmLe);
    FirstTrackIsSmallest(df, SortByTrackFrameEcm(df), TrackFrameEcmLe);
  }

  /** As written, the per-patch result is `None` exactly for an empty table. */
  lemma PerEcmNoneIffEmpty(df: seq<Row>, norm: (real, real) -> real)
    ensures PerEcmAsWritten(df, norm) == Success(None) <==> df == []
  {
  }

  /**
   * As written, the per-patch call fails exactly when some patch id of the table holds no row
   * of the smallest track.
   */
  lemma PerEcmFailsIffPatchMissing(df: seq<Row>, norm: (real, real) -> real)
    requires df != []
    ensures PerEcmAsWritten(df, norm).Failure? <==>
      exists e :: e in EcmIdsOf(df) && forall r :: r in df ==> !(r.trackId == FirstTrack(df) && r.ecmId == e)
  {
    var sorted := SortByTrackFrameEcm(df);
    var i := FirstTrack(df);
    var ecms := Unique(EcmIdsOf(sorted));
    SameIds(df, sorted);
    ghost var missing := exists e :: e in EcmIdsOf(df) && forall r :: r in df ==> !(r.trackId == i && r.ecmId == e);
    if !InAllEcms(sorted, i, ecms, |ecms|) {
      var k :| 0 <= k < |ecms| && TrackEcmRows(sorted, i, ecms[k]) == [];
      NoRowsInEcm(df, i, ecms[k]);
      assert ecms[k] in EcmIdsOf(df);
    }
    if missing {
      var e :| e in EcmIdsOf(df) && forall r :: r in df ==> !(r.trackId == i && r.ecmId == e);
      NoRowsInEcm(df, i, e);
      MissingEcm(sorted, i, ecms, e);
    }
  }

  /**
   * When the per-patch call succeeds it gives one record per distinct patch id of the table,
   * every patch id of the table among them, each for the smallest track.
   */
  lemma PerEcmRecordsPerPatch(df: seq<Row>, norm: (real, real) -> real)
    requires df != [] && PerEcmAsWritten(df, norm).Success?
    ensures var recs := PerEcmAsWritten(df, norm).value;
      recs.Some? && Distinct(recs.value) &&
      (forall e :: e in EcmIdsOf(df) <==> exists k :: 0 <= k < |recs.value| && recs.value[k].ecmId == e) &&
      (forall k :: 0 <= k < |recs.value| ==> recs.value[k].metrics.trackId == FirstTrack(df))
  {
    var sorted := SortByTrackFrameEcm(df);
    var ecms := Unique(EcmIdsOf(sorted));
    var i := FirstTrack(df);
    SameIds(df, sorted);
    PerEcmSuccessValue(df, norm);
    EcmRecordsMeaning(sorted, i, ecms, norm);
  }

  /** A successful per-patch call holds the records of the first track in every patch id. */
  lemma PerEcmSuccessValue(df: seq<Row>, norm: (real, real) -> real)
    requires df != [] && PerEcmAsWritten(df, norm).Success?
    ensures var sorted := SortByTrackFrameEcm(df);
      var ecms := Unique(EcmIdsOf(sorted));
      InAllEcms(sorted, FirstTrack(df), ecms, |ecms|) &&
      PerEcmAsWritten(df, norm) == Success(Some(EcmRecords(sorted, FirstTrack(df), ecms, |ecms|, norm)))
  {
  }

  /** The records of track `i` over distinct patch ids: one per id, in order, all for track `i`. */
  lemma EcmRecordsMeaning(sorted: seq<Row>, i: int, ecms: seq<string>, norm: (real, real) -> real)
    requires Distinct(ecms) && InAllEcms(sorted, i, ecms, |ecms|)
    ensures var recs := EcmRecords(sorted, i, ecms, |ecms|, norm);
      Distinct(recs) &&
      (forall e :: e in ecms <==> exists k :: 0 <= k < |recs| && recs[k].ecmId == e) &&
      (forall k :: 0 <= k < |recs| ==> recs[k].metrics.trackId == i)
  {
    var recs := EcmRecords(sorted, i, ecms, |ecms|, norm);
    assert forall k :: 0 <= k < |recs| ==> recs[k].ecmId == ecms[k];
  }

  // ---------------------------------------------------------------------------
  // Line metrics
  // ---------------------------------------------------------------------------

  /** The positive steps (`dx[dx > 0]`). */
  function PositiveSteps(d: seq<Option<real>>): seq<real>
  {
    if d == [] then []
    else (if d[0].Some? && d[0].value > 0.0 then [d[0].value] else []) + PositiveSteps(d[1..])
  }

  /** The magnitudes of the negative steps (`abs(dx[dx < 0])`). */
  function NegativeMagnitudes(d: seq<Option<real>>): seq<real>
  {
    if d == [] then []
    else (if d[0].Some? && d[0].value < 0.0 then [-d[0].value] else []) + NegativeMagnitudes(d[1..])
  }

  /** The positive part holds exactly the positive steps. */
  lemma {:induction false} PositiveStepsMembers(d: seq<Option<real>>)
    ensures forall v :: v in PositiveSteps(d) <==> v > 0.0 && Some(v) in d
  {
    if d != [] {
      PositiveStepsMembers(d[1..]);
      assert d == [d[0]] + d[1..];
    }
  }

  /** The negative part holds exactly the magnitudes of the negative steps. */
  lemma {:induction false} NegativeMagnitudesMembers(d: seq<Option<real>>)
    ensures forall v :: v in NegativeMagnitudes(d) <==> v > 0.0 && Some(-v) in d
  {
    if d != [] {
      NegativeMagnitudesMembers(d[1..]);
      assert d == [d[0]] + d[1..];
    }
  }

  /** Each positive step is kept once per step that has it; nothing else is kept. */
  lemma {:induction false} PositiveStepsMultiset(d: seq<Option<real>>)
    ensures forall v :: multiset(PositiveSteps(d))[v] == if v > 0.0 then multiset(d)[Some(v)] else 0
  {
    if d != [] {
      PositiveStepsMultiset(d[1..]);
      assert d == [d[0]] + d[1..];
    }
  }

  /** Each negative step's magnitude is kept once per step that has it; nothing else is kept. */
  lemma {:induction false} NegativeMagnitudesMultiset(d: seq<Option<real>>)
    ensures forall v :: multiset(NegativeMagnitudes(d))[v] == if v > 0.0 then multiset(d)[Some(-v)] else 0
  {
    if d != [] {
      NegativeMagnitudesMultiset(d[1..]);
      assert d == [d[0]] + d[1..];
    }
  }

  /** Step `o` has the sign asked for: positive, or negative. */
  predicate HasSign(o: Option<real>, positive: bool)
  {
    o.Some? && (if positive then o.value > 0.0 else o.value < 0.0)
  }

  /** The indices, from `i` on and in increasing order, of the steps of the given sign (the index labels pandas keeps). */
  function SignedStepIndices(d: seq<Option<real>>, i: nat, positive: bool): seq<nat>
    requires i <= |d|
    decreases |d| - i
  {
    if i == |d| then [] else (if HasSign(d[i], positive) then [i] else []) + SignedStepIndices(d, i + 1, positive)
  }

  /**
   * The positive part of the steps from `i` on is, value for value, the sequence of the
   * positive steps at strictly increasing step indices, and every positive step is among them.
   */
  lemma {:induction false} PositiveStepsOrigin(d: seq<Option<real>>, i: nat)
    requires i <= |d|
    decreases |d| - i
    ensures var ix := SignedStepIndices(d, i, true);
      |ix| == |PositiveSteps(d[i..])| &&
      (forall k :: 0 <= k < |ix| ==> i <= ix[k] < |d| && d[ix[k]] == Some(PositiveSteps(d[i..])[k])) &&
      (forall k, l :: 0 <= k < l < |ix| ==> ix[k] < ix[l]) &&
      (forall j :: i <= j < |d| && HasSign(d[j], true) ==> j in ix)
  {
    if i < |d| {
      PositiveStepsOrigin(d, i + 1);
      assert d[i..][1..] == d[i + 1..];
    }
  }

  /**
   * The negative part of the steps from `i` on is, value for value, the sequence of the
   * magnitudes of the negative steps at strictly increasing step indices, and every negative
   * step is among them.
   */
  lemma {:induction false} NegativeMagnitudesOrigin(d: seq<Option<real>>, i: nat)
    requires i <= |d|
    decreases |d| - i
    ensures var ix := SignedStepIndices(d, i, false);
      |ix| == |NegativeMagnitudes(d[i..])| &&
      (forall k :: 0 <= k < |ix| ==> i <= ix[k] < |d| && d[ix[k]] == Some(-NegativeMagnitudes(d[i..])[k])) &&
      (forall k, l :: 0 <= k < l < |ix| ==> ix[k] < ix[l]) &&
      (forall j :: i <= j < |d| && HasSign(d[j], false) ==> j in ix)
  {
    if i < |d| {
      NegativeMagnitudesOrigin(d, i + 1);
      assert d[i..][1..] == d[i + 1..];
    }
  }

  /** The two parts differ in sum by the sum of all steps. */
  lemma {:induction false} SignSplitSum(d: seq<Option<real>>)
    ensures Sum(PositiveSteps(d)) - Sum(NegativeMagnitudes(d)) == NanSum(d)
  {
    if d != [] {
      SignSplitSum(d[1..]);
      var p := if d[0].Some? && d[0].value > 0.0 then [d[0].value] else [];
      var m := if d[0].Some? && d[0].value < 0.0 then [-d[0].value] else [];
      SumAppend(p, PositiveSteps(d[1..]));
      SumAppend(m, NegativeMagnitudes(d[1..]));
    }
  }

  /**
   * The positive part holds exactly the positive steps and the negative part exactly the
   * magnitudes of the negative steps, so zero and missing steps are in neither; and the two
   * parts differ in sum by the sum of all steps.
   */
  lemma SignSplit(d: seq<Option<real>>)
    ensures forall v :: v in PositiveSteps(d) <==> v > 0.0 && Some(v) in d
    ensures forall v :: v in NegativeMagnitudes(d) <==> v > 0.0 && Some(-v) in d
    ensures forall v :: multiset(PositiveSteps(d))[v] == if v > 0.0 then multiset(d)[Some(v)] else 0
    ensures forall v :: multiset(NegativeMagnitudes(d))[v] == if v > 0.0 then multiset(d)[Some(-v)] else 0
    ensures var ix := SignedStepIndices(d, 0, true);
      |ix| == |PositiveSteps(d)| && forall k :: 0 <= k < |ix| ==> ix[k] < |d| && d[ix[k]] == Some(PositiveSteps(d)[k])
    ensures var ix := SignedStepIndices(d, 0, false);
      |ix| == |NegativeMagnitudes(d)| && forall k :: 0 <= k < |ix| ==> ix[k] < |d| && d[ix[k]] == Some(-NegativeMagnitudes(d)[k])
    ensures Sum(PositiveSteps(d)) - Sum(NegativeMagnitudes(d)) == NanSum(d)
  {
    PositiveStepsMembers(d);
    NegativeMagnitudesMembers(d);
    PositiveStepsMultiset(d);
    NegativeMagnitudesMultiset(d);
    PositiveStepsOrigin(d, 0);
    NegativeMagnitudesOrigin(d, 0);
    assert d[0..] == d;
    SignSplitSum(d);
  }

  /** A contribution `value / total_path_length`; undefined (infinite or `NaN`) when the total is zero. */
  function Ratio(v: real, total: real): Option<real>
  {
    if total != 0.0 then Some(v / total) else None
  }

  function Contributions(vs: seq<real>, total: real): (c: seq<Option<real>>)
    ensures |c| == |vs|
    ensures total != 0.0 ==> forall k :: 0 <= k < |vs| ==> c[k] == Some(vs[k] / total)
  {
    seq(|vs|, k requires 0 <= k < |vs| => Ratio(vs[k], total))
  }

  datatype LineRecord = LineRecord(
    trackId: int, frames: seq<int>, dx: seq<Option<real>>, dy: seq<Option<real>>, dR: seq<Option<real>>,
    totalPathLength: real, xPlus: seq<Option<real>>, xMinus: seq<Option<real>>,
    yPlus: seq<Option<real>>, yMinus: seq<Option<real>>)

  /** The line metrics of the rows of one track, in frame order (`rows` non-empty). */
  function LineMetricsOf(trackId: int, rows: seq<Row>, norm: (real, real) -> real): LineRecord
    requires |rows| > 0
  {
    var dx := BackwardSteps(Xs(rows));
    var dy := BackwardSteps(Ys(rows));
    var dR := StepLengths(dx, dy, norm);
    var total := NanSum(dR);
    LineRecord(trackId, FramesOf(rows), dx, dy, dR, total,
               Contributions(PositiveSteps(dx), total), Contributions(NegativeMagnitudes(dx), total),
               Contributions(PositiveSteps(dy), total), Contributions(NegativeMagnitudes(dy), total))
  }

  /** Contribution `k` of the positive part comes from the `k`-th positive step, at its step index. */
  lemma PositiveContributions(d: seq<Option<real>>, total: real)
    ensures var ix := SignedStepIndices(d, 0, true); var c := Contributions(PositiveSteps(d), total);
      |c| == |ix| &&
      (total != 0.0 ==> forall k :: 0 <= k < |ix| ==> ix[k] < |d| && d[ix[k]].Some? && c[k] == Some(d[ix[k]].value / total))
  {
    PositiveStepsOrigin(d, 0);
    assert d[0..] == d;
  }

  /** Contribution `k` of the negative part comes from the `k`-th negative step, at its step index. */
  lemma NegativeContributions(d: seq<Option<real>>, total: real)
    ensures var ix := SignedStepIndices(d, 0, false); var c := Contributions(NegativeMagnitudes(d), total);
      |c| == |ix| &&
      (total != 0.0 ==> forall k :: 0 <= k < |ix| ==> ix[k] < |d| && d[ix[k]].Some? && c[k] == Some(-d[ix[k]].value / total))
  {
    NegativeMagnitudesOrigin(d, 0);
    assert d[0..] == d;
  }

  /** A track with a step that moves has a positive path length. */
  lemma PositivePathLength(dx: seq<Option<real>>, dy: seq<Option<real>>, norm: (real, real) -> real, k: nat)
    requires |dx| == |dy| && NormLike(norm) && k < |dx|
    requires dx[k].Some? && dy[k].Some? && (dx[k].value != 0.0 || dy[k].value != 0.0)
    ensures NanSum(StepLengths(dx, dy, norm)) > 0.0
  {
    var d := StepLengths(dx, dy, norm);
    var a, b := dx[k].value, dy[k].value;
    assert 0.0 <= norm(a, b) && (a != 0.0 || b != 0.0 ==> 0.0 < norm(a, b));
    assert d[k] == Some(norm(a, b));
    StepLengthsNonNegative(dx, dy, norm);
    NanSumNonNegative(d);
  }

  /**
   * Of one track's line metrics: the backward x steps add up to the x displacement; the
   * x-plus and x-minus parts hold exactly the positive steps and the magnitudes of the
   * negative ones; and when there is any non-zero x step the path length is positive, so every
   * contribution is defined and the signed contributions add up to the x displacement over the
   * path length.
   */
  lemma LineMetricsMeaning(trackId: int, rows: seq<Row>, norm: (real, real) -> real)
    requires |rows| > 0 && NormLike(norm)
    ensures var r := LineMetricsOf(trackId, rows, norm);
      NanSum(r.dx) == rows[|rows| - 1].x - rows[0].x &&
      (forall v :: v in PositiveSteps(r.dx) <==> v > 0.0 && Some(v) in r.dx) &&
      (forall v :: v in NegativeMagnitudes(r.dx) <==> v > 0.0 && Some(-v) in r.dx) &&
      (PositiveSteps(r.dx) != [] || NegativeMagnitudes(r.dx) != [] ==>
        r.totalPathLength > 0.0 &&
        Sum(PositiveSteps(r.dx)) - Sum(NegativeMagnitudes(r.dx)) == rows[|rows| - 1].x - rows[0].x)
    ensures var r := LineMetricsOf(trackId, rows, norm);
      (forall v :: multiset(PositiveSteps(r.dx))[v] == if v > 0.0 then multiset(r.dx)[Some(v)] else 0) &&
      (forall v :: multiset(NegativeMagnitudes(r.dx))[v] == if v > 0.0 then multiset(r.dx)[Some(-v)] else 0)
  {
    var r := LineMetricsOf(trackId, rows, norm);
    BackwardStepsTelescope(Xs(rows));
    SignSplit(r.dx);
    if PositiveSteps(r.dx) != [] || NegativeMagnitudes(r.dx) != [] {
      SignedStepPositiveLength(r.dx, r.dy, norm);
    }
  }

  /** When x steps and y steps are present at the same places, a non-zero x step makes the path length positive. */
  lemma SignedStepPositiveLength(dx: seq<Option<real>>, dy: seq<Option<real>>, norm: (real, real) -> real)
    requires |dx| == |dy| && NormLike(norm)
    requires forall k :: 0 <= k < |dx| ==> (dx[k].Some? <==> dy[k].Some?)
    requires PositiveSteps(dx) != [] || NegativeMagnitudes(dx) != []
    ensures NanSum(StepLengths(dx, dy, norm)) > 0.0
  {
    PositiveStepsMembers(dx);
    NegativeMagnitudesMembers(dx);
    var v: real;
    if PositiveSteps(dx) != [] {
      assert PositiveSteps(dx)[0] in PositiveSteps(dx);
      v := PositiveSteps(dx)[0];
    } else {
      var w := NegativeMagnitudes(dx)[0];
      assert w in NegativeMagnitudes(dx);
      v := -w;
    }
    assert v != 0.0 && Some(v) in dx;
    var k :| 0 <= k < |dx| && dx[k] == Some(v);
    PositivePathLength(dx, dy, norm, k);
  }

  /** `line_metrics`'s records: one per distinct track, in track order. */
  function LineMetricsRecords(df: seq<Row>, norm: (real, real) -> real): seq<LineRecord>
  {
    var sorted := SortByTrackFrame(df);
    var ids := Unique(TrackIds(sorted));
    seq(|ids|, k requires 0 <= k < |ids| =>
      TrackRowsOfPresentTrack(sorted, ids[k]);
      LineMetricsOf(ids[k], TrackRows(sorted, ids[k]), norm))
  }

  /** The track loop of `line_metrics`. */
  method LineMetrics(df: seq<Row>, norm: (real, real) -> real) returns (records: seq<LineRecord>)
    ensures records == LineMetricsRecords(df, norm)
    ensures |records| == |Unique(TrackIds(SortByTrackFrame(df)))|
  {
    var sorted := SortByTrackFrame(df);
    var ids := Unique(TrackIds(sorted));
    records := [];
    for k := 0 to |ids|
      invariant records == LineMetricsRecords(df, norm)[..k]
    {
      TrackRowsOfPresentTrack(sorted, ids[k]);
      records := records + [LineMetricsOf(ids[k], TrackRows(sorted, ids[k]), norm)];
    }
  }

  // ---------------------------------------------------------------------------
  // Fibre orientation
  // ---------------------------------------------------------------------------

  /** `np.pi` as a double. */
  const Pi: real := 3.141592653589793

  function AbsR(v: real): real { if v < 0.0 then -v else v }

  /**
   * `calculate_fiber_orientation`: `|theta| / (pi / 2)` for every angle. Missing angles are
   * dropped before the assignment back into the table, so any missing angle makes the
   * lengths differ and pandas raises `ValueError`.
   */
  function FiberOrientation(angles: seq<Option<real>>): (r: Result<seq<real>>)
    ensures r.Success? <==> forall k :: 0 <= k < |angles| ==> angles[k].Some?
    ensures r.Success? ==> |r.value| == |angles|
  {
    if exists k :: 0 <= k < |angles| && angles[k].None? then Failure("ValueError")
    else Success(seq(|angles|, k requires 0 <= k < |angles| => AbsR(angles[k].value) / (Pi / 2.0)))
  }

  /** The normalised angle is 0 along the vertical axis, 1 along the horizontal one, and in [0,1] in between. */
  lemma FiberOrientationRange(angles: seq<Option<real>>)
    requires forall k :: 0 <= k < |angles| ==> angles[k].Some?
    ensures var n := FiberOrientation(angles).value;
      forall k :: 0 <= k < |angles| ==>
        (AbsR(angles[k].value) <= Pi / 2.0 ==> 0.0 <= n[k] <= 1.0) &&
        (angles[k].value == 0.0 ==> n[k] == 0.0) &&
        (AbsR(angles[k].value) == Pi / 2.0 ==> n[k] == 1.0)
  {
  }
}
