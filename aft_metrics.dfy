/**
 * Bookkeeping around the AFT (alignment by Fourier transform) results: image labels and patch
 * ids, per-track frame ordering and step pairing, nearest-patch lookup and the choice of the
 * angle frame in the track alignment metric, and the index and border logic of the local
 * order parameter. The AFT analysis itself is an input: per image, the patch coordinates and
 * the raveled angle and eccentricity grids (a missing value is `None`).
 */
module AftMetrics {
  import opened Wrappers
  import opened Grids
  import opened Seqs
  import opened Strings

  // ---------------------------------------------------------------------------
  // Labels and patch ids
  // ---------------------------------------------------------------------------

  /**
   * The image label matched against the spot table: the basename with every occurrence of
   * `.tif` removed (not only a final extension), i.e. the pieces between occurrences joined.
   */
  function ImageLabel(path: string): string
  {
    Replace(Basename(path), ".tif", "")
  }

  /**
   * The label is the basename cut at every leftmost non-overlapping `.tif`, the pieces joined
   * with nothing between them; a basename without `.tif` is kept whole.
   */
  lemma ImageLabelRemovesEvery(path: string)
    ensures ImageLabel(path) == Join(Split(Basename(path), ".tif"), "")
    ensures NoOccurrence(Basename(path), ".tif") ==> ImageLabel(path) == Basename(path)
  {
    ReplaceIsJoinOfSplit(Basename(path), ".tif", "");
    if NoOccurrence(Basename(path), ".tif") {
      ReplaceWithoutOccurrence(Basename(path), ".tif", "");
    }
  }

  /** The id of the patch at position `i` (counting from 0): `ECM_1`, `ECM_2`, .... */
  function EcmId(i: nat): (id: string)
    ensures |id| > 4 && id[..4] == "ECM_"
    ensures forall k :: 4 <= k < |id| ==> IsDigit(id[k])
    ensures StringToNat(id[4..]) == i + 1
  {
    NatStringRoundTrip(i + 1);
    assert ("ECM_" + NatToString(i + 1))[4..] == NatToString(i + 1);
    "ECM_" + NatToString(i + 1)
  }

  /** The ids of `n` patches, in coordinate order. */
  function EcmIds(n: nat): (ids: seq<string>)
    ensures |ids| == n && forall i :: 0 <= i < n ==> ids[i] == EcmId(i)
  {
    seq(n, i requires 0 <= i < n => EcmId(i))
  }

  /** Different patch positions get different ids. */
  lemma EcmIdInjective(i: nat, j: nat)
    ensures EcmId(i) == EcmId(j) ==> i == j
  {
    if EcmId(i) == EcmId(j) {
      assert NatToString(i + 1) == EcmId(i)[4..];
      assert NatToString(j + 1) == EcmId(j)[4..];
      NatToStringInjective(i + 1, j + 1);
    }
  }

  /** The patch ids of one image are pairwise distinct. */
  lemma EcmIdsDistinct(n: nat)
    ensures Distinct(EcmIds(n))
  {
    forall i, j | 0 <= i < j < n ensures EcmIds(n)[i] != EcmIds(n)[j] {
      EcmIdInjective(i, j);
    }
  }

  // ---------------------------------------------------------------------------
  // Spot table and per-track ordering
  // ---------------------------------------------------------------------------

  /** One row of the spot table. */
  datatype Spot = Spot(fileName: string, trackId: int, frame: int, x: real, y: real)

  predicate StrictlyByFrame(s: seq<Spot>)
  {
    forall i, j :: 0 <= i < j < |s| ==> s[i].frame < s[j].frame
  }

  /** The set of frames occurring in `s`. */
  function Frames(s: seq<Spot>): (fs: set<int>)
    ensures forall v :: v in s ==> v.frame in fs
    ensures forall f :: f in fs ==> exists v :: v in s && v.frame == f
  {
    if s == [] then {} else {s[0].frame} + Frames(s[1..])
  }

  lemma FramesCons(a: Spot, s: seq<Spot>)
    ensures Frames([a] + s) == {a.frame} + Frames(s)
  {
    assert ([a] + s)[1..] == s;
  }

  lemma StrictCons(a: Spot, s: seq<Spot>)
    requires StrictlyByFrame(s) && forall v :: v in s ==> a.frame < v.frame
    ensures StrictlyByFrame([a] + s)
  {
    var r := [a] + s;
    forall i, j | 0 <= i < j < |r| ensures r[i].frame < r[j].frame {
      assert r[j] == s[j - 1];
      if i > 0 {
        assert r[i] == s[i - 1];
      }
    }
  }

  /**
   * Insertion of a row into rows ordered by frame; a row whose frame is already present is
   * dropped (the earlier row is kept).
   */
  function InsertByFrame(sorted: seq<Spot>, s: Spot): seq<Spot>
  {
    if sorted == [] then [s]
    else if sorted[0].frame == s.frame then sorted
    else if s.frame < sorted[0].frame then [s] + sorted
    else [sorted[0]] + InsertByFrame(sorted[1..], s)
  }

  /** Insertion adds the row's frame to the frames present. */
  lemma {:induction false} InsertByFrameFrames(sorted: seq<Spot>, s: Spot)
    ensures Frames(InsertByFrame(sorted, s)) == Frames(sorted) + {s.frame}
  {
    if sorted == [] {
      FramesCons(s, []);
      assert [s] + [] == [s];
    } else {
      assert sorted == [sorted[0]] + sorted[1..];
      FramesCons(sorted[0], sorted[1..]);
      if sorted[0].frame == s.frame {
      } else if s.frame < sorted[0].frame {
        FramesCons(s, sorted);
      } else {
        InsertByFrameFrames(sorted[1..], s);
        FramesCons(sorted[0], InsertByFrame(sorted[1..], s));
      }
    }
  }

  /** Insertion keeps every earlier row and adds no row other than the inserted one. */
  lemma {:induction false} InsertByFrameMembers(sorted: seq<Spot>, s: Spot)
    ensures forall v :: v in InsertByFrame(sorted, s) ==> v in sorted || v == s
    ensures forall v :: v in sorted ==> v in InsertByFrame(sorted, s)
  {
    if sorted != [] && sorted[0].frame != s.frame && s.frame >= sorted[0].frame {
      InsertByFrameMembers(sorted[1..], s);
      assert sorted == [sorted[0]] + sorted[1..];
    }
  }

  /** Inserting into strictly ordered rows keeps them strictly ordered. */
  lemma {:induction false} InsertByFrameStrict(sorted: seq<Spot>, s: Spot)
    requires StrictlyByFrame(sorted)
    ensures StrictlyByFrame(InsertByFrame(sorted, s))
  {
    if sorted != [] && sorted[0].frame != s.frame {
      if s.frame < sorted[0].frame {
        forall v | v in sorted ensures s.frame < v.frame {
          var j :| 0 <= j < |sorted| && sorted[j] == v;
          assert sorted[0].frame <= sorted[j].frame;
        }
        StrictCons(s, sorted);
      } else {
        var rest := InsertByFrame(sorted[1..], s);
        InsertByFrameStrict(sorted[1..], s);
        InsertByFrameMembers(sorted[1..], s);
        forall v | v in rest ensures sorted[0].frame < v.frame {
          if v != s {
            var j :| 0 <= j < |sorted[1..]| && sorted[1..][j] == v;
            assert sorted[j + 1] == v;
          }
        }
        StrictCons(sorted[0], rest);
      }
    }
  }

  /** `sort_values('FRAME').drop_duplicates(subset=['FRAME'])`, rows inserted in input order. */
  function SortDedupByFrame(rows: seq<Spot>): seq<Spot>
  {
    if rows == [] then []
    else InsertByFrame(SortDedupByFrame(rows[..|rows| - 1]), rows[|rows| - 1])
  }

  /**
   * After ordering and de-duplication the rows have strictly increasing frames, the same
   * frames as the input, and every row is an input row.
   */
  lemma {:induction false} SortDedupByFrameOrders(rows: seq<Spot>)
    ensures StrictlyByFrame(SortDedupByFrame(rows))
    ensures Frames(SortDedupByFrame(rows)) == Frames(rows)
    ensures forall v :: v in SortDedupByFrame(rows) ==> v in rows
  {
    if rows != [] {
      var init := rows[..|rows| - 1];
      assert rows == init + [rows[|rows| - 1]];
      assert Frames(rows) == Frames(init) + {rows[|rows| - 1].frame};
      SortDedupByFrameOrders(init);
      InsertByFrameFrames(SortDedupByFrame(init), rows[|rows| - 1]);
      InsertByFrameMembers(SortDedupByFrame(init), rows[|rows| - 1]);
      InsertByFrameStrict(SortDedupByFrame(init), rows[|rows| - 1]);
    }
  }

  /** Rows with strictly increasing frames have as many rows as distinct frames. */
  lemma {:induction false} StrictFramesCount(s: seq<Spot>)
    requires StrictlyByFrame(s)
    ensures |Frames(s)| == |s|
  {
    if s != [] {
      StrictTail(s);
      StrictFramesCount(s[1..]);
      CardAddNew(s[0].frame, Frames(s[1..]));
    }
  }

  lemma CardAddNew(a: int, fs: set<int>)
    requires a !in fs
    ensures |{a} + fs| == |fs| + 1
  {
  }

  /** The rows after the first of a strictly ordered table are strictly ordered and all later. */
  lemma StrictTail(s: seq<Spot>)
    requires StrictlyByFrame(s) && s != []
    ensures StrictlyByFrame(s[1..])
    ensures s[0].frame !in Frames(s[1..])
  {
    var rest := s[1..];
    forall v | v in rest ensures s[0].frame < v.frame {
      var j :| 0 <= j < |rest| && rest[j] == v;
      assert s[j + 1] == v;
    }
  }

  /** After ordering and de-duplication a track has one row per distinct frame. */
  lemma SortDedupCount(rows: seq<Spot>)
    ensures |SortDedupByFrame(rows)| == |Frames(rows)|
  {
    SortDedupByFrameOrders(rows);
    StrictFramesCount(SortDedupByFrame(rows));
  }

  /** The track ids of a table, in row order. */
  function TrackIds(rows: seq<Spot>): (ids: seq<int>)
    ensures |ids| == |rows| && forall i :: 0 <= i < |rows| ==> ids[i] == rows[i].trackId
  {
    seq(|rows|, i requires 0 <= i < |rows| => rows[i].trackId)
  }

  // ---------------------------------------------------------------------------
  // Nearest patch (the KDTree query)
  // ---------------------------------------------------------------------------

  type Point = (real, real)

  function SqDist(p: Point, q: Point): real
  {
    (p.0 - q.0) * (p.0 - q.0) + (p.1 - q.1) * (p.1 - q.1)
  }

  /** `i` is a closest patch to `p`, and no earlier patch is as close. */
  predicate IsNearest(coords: seq<Point>, p: Point, i: int)
  {
    0 <= i < |coords| &&
    (forall j :: 0 <= j < |coords| ==> SqDist(p, coords[i]) <= SqDist(p, coords[j])) &&
    (forall j :: 0 <= j < i ==> SqDist(p, coords[j]) > SqDist(p, coords[i]))
  }

  /** The lowest-index closest patch. */
  function Nearest(coords: seq<Point>, p: Point): (i: nat)
    requires |coords| > 0
    ensures IsNearest(coords, p, i)
  {
    if |coords| == 1 then 0
    else
      var init := coords[..|coords| - 1];
      var k := Nearest(init, p);
      assert forall j :: 0 <= j < |init| ==> coords[j] == init[j];
      if SqDist(p, coords[|coords| - 1]) < SqDist(p, coords[k]) then |coords| - 1 else k
  }

  /** At most one index is the lowest-index closest one. */
  lemma NearestUnique(coords: seq<Point>, p: Point, i: int, j: int)
    requires IsNearest(coords, p, i) && IsNearest(coords, p, j)
    ensures i == j
  {
    assert SqDist(p, coords[i]) <= SqDist(p, coords[j]);
    assert SqDist(p, coords[j]) <= SqDist(p, coords[i]);
  }

  /** The argmin loop over the squared distances to the patch coordinates. */
  method NearestPatch(coords: seq<Point>, p: Point) returns (best: nat)
    requires |coords| > 0
    ensures IsNearest(coords, p, best)
  {
    best := 0;
    for i := 1 to |coords|
      invariant best < i
      invariant forall j :: 0 <= j < i ==> SqDist(p, coords[best]) <= SqDist(p, coords[j])
      invariant forall j :: 0 <= j < best ==> SqDist(p, coords[j]) > SqDist(p, coords[best])
    {
      if SqDist(p, coords[i]) < SqDist(p, coords[best]) {
        best := i;
      }
    }
  }

  // ---------------------------------------------------------------------------
  // Track alignment metric (AFT_AI_metric)
  // ---------------------------------------------------------------------------

  /** A raveled angle (or eccentricity) result: one grid for all frames, or one grid per frame. */
  datatype ThetaGrid = Single(cells: seq<Option<real>>) | Multi(frames: seq<seq<Option<real>>>)

  /**
   * The value read for step `t` at patch `idx`: the single grid for every step, or frame `t`
   * of a multi-frame result; an index outside the data raises.
   */
  function ValueAt(theta: ThetaGrid, t: nat, idx: nat): (r: Result<Option<real>>)
    ensures theta.Single? ==> (r.Success? <==> idx < |theta.cells|) && (r.Success? ==> r.value == theta.cells[idx])
    ensures theta.Multi? ==> (r.Success? <==> t < |theta.frames| && idx < |theta.frames[t]|)
    ensures theta.Multi? && r.Success? ==> r.value == theta.frames[t][idx]
  {
    match theta
    case Single(cells) => if idx < |cells| then Success(cells[idx]) else Failure("IndexError")
    case Multi(frames) => if t < |frames| && idx < |frames[t]| then Success(frames[t][idx]) else Failure("IndexError")
  }

  /** With a single-frame result, every step reads the same grid whatever its number. */
  lemma SingleFrameIgnoresStep(cells: seq<Option<real>>, t1: nat, t2: nat, idx: nat)
    ensures ValueAt(Single(cells), t1, idx) == ValueAt(Single(cells), t2, idx)
  {
  }

  /** The AFT result of one image. */
  datatype AftResult = AftResult(coords: seq<Point>, theta: ThetaGrid, ecc: ThetaGrid)

  datatype AiImage = AiImage(path: string, aft: AftResult)

  /**
   * One step of a track (the record before the angle formulas): the step's starting frame,
   * the nearest patch and its coordinates, the angle and eccentricity read there, and the
   * displacement of the step.
   */
  datatype StepRecord = StepRecord(trackId: int, frame: int, imageName: string, ecmId: string,
                                   ecmX: real, ecmY: real, aftAngle: Option<real>, aftEcc: Option<real>,
                                   dx: real, dy: real)

  /** The record of step `t` (from row `t` to row `t + 1`) of an ordered track. */
  function StepAt(name: string, aft: AftResult, track: seq<Spot>, t: nat): Result<StepRecord>
    requires t + 1 < |track|
  {
    if |aft.coords| == 0 then Failure("IndexError")
    else
      var i := Nearest(aft.coords, (track[t].x, track[t].y));
      var angle := ValueAt(aft.theta, t, i);
      var ecc := ValueAt(aft.ecc, t, i);
      if angle.Failure? then Failure(angle.error)
      else if ecc.Failure? then Failure(ecc.error)
      else Success(StepRecord(track[t].trackId, track[t].frame, name, EcmId(i), aft.coords[i].0, aft.coords[i].1,
                              angle.value, ecc.value, track[t + 1].x - track[t].x, track[t + 1].y - track[t].y))
  }

  /**
   * A step fails when there are no patches or the angle data lacks the nearest patch; a
   * recorded step carries the id and coordinates of the nearest patch to its starting point,
   * the starting row's frame and track, and the angle read for that step at that patch.
   */
  lemma StepAtRecord(name: string, aft: AftResult, track: seq<Spot>, t: nat)
    requires t + 1 < |track|
    ensures |aft.coords| == 0 ==> StepAt(name, aft, track, t).Failure?
    ensures var r := StepAt(name, aft, track, t);
      r.Success? ==> (|aft.coords| > 0 &&
      var i := Nearest(aft.coords, (track[t].x, track[t].y));
      r.value.ecmId == EcmId(i) && (r.value.ecmX, r.value.ecmY) == aft.coords[i] &&
      r.value.frame == track[t].frame && r.value.trackId == track[t].trackId &&
      ValueAt(aft.theta, t, i) == Success(r.value.aftAngle) && ValueAt(aft.ecc, t, i) == Success(r.value.aftEcc) &&
      r.value.dx == track[t + 1].x - track[t].x && r.value.dy == track[t + 1].y - track[t].y)
  {
  }

  /** `a` followed by `b`; the first failure wins. */
  function Then<T>(a: Result<seq<T>>, b: Result<seq<T>>): (r: Result<seq<T>>)
    ensures r.Success? <==> a.Success? && b.Success?
    ensures r.Success? ==> r.value == a.value + b.value
  {
    if a.Failure? then a else if b.Failure? then b else Success(a.value + b.value)
  }

  /** The records of the first `n` steps of an ordered track. */
  function TrackSteps(name: string, aft: AftResult, track: seq<Spot>, n: nat): (r: Result<seq<StepRecord>>)
    requires n < |track| || n == 0
    ensures r.Success? ==> |r.value| == n
  {
    if n == 0 then Success([])
    else
      var s := StepAt(name, aft, track, n - 1);
      Then(TrackSteps(name, aft, track, n - 1), if s.Success? then Success([s.value]) else Failure(s.error))
  }

  /**
   * The steps of a track succeed exactly when every single step does, and then record `t`
   * is the record of step `t`.
   */
  lemma {:induction false} TrackStepsAt(name: string, aft: AftResult, track: seq<Spot>, n: nat)
    requires n < |track| || n == 0
    ensures TrackSteps(name, aft, track, n).Success? <==> forall t :: 0 <= t < n ==> StepAt(name, aft, track, t).Success?
    ensures TrackSteps(name, aft, track, n).Success? ==>
      forall t :: 0 <= t < n ==> StepAt(name, aft, track, t) == Success(TrackSteps(name, aft, track, n).value[t])
  {
    if n > 0 {
      TrackStepsAt(name, aft, track, n - 1);
      var prev := TrackSteps(name, aft, track, n - 1);
      var last := StepAt(name, aft, track, n - 1);
      var r := TrackSteps(name, aft, track, n);
      assert r == Then(prev, if last.Success? then Success([last.value]) else Failure(last.error));
      if r.Success? {
        forall t | 0 <= t < n ensures StepAt(name, aft, track, t) == Success(r.value[t]) {
          if t < n - 1 {
            assert r.value[t] == prev.value[t];
          }
        }
      }
    }
  }

  lemma StepAtFields(name: string, aft: AftResult, track: seq<Spot>, t: nat)
    requires t + 1 < |track| && StepAt(name, aft, track, t).Success?
    ensures StepAt(name, aft, track, t).value.imageName == name
    ensures StepAt(name, aft, track, t).value.trackId == track[t].trackId
  {
  }

  /** Every step record of a track whose rows all carry `id` carries the image name and `id`. */
  lemma TrackStepsFields(name: string, aft: AftResult, track: seq<Spot>, n: nat, id: int)
    requires (n < |track| || n == 0) && forall j :: 0 <= j < |track| ==> track[j].trackId == id
    ensures var r := TrackSteps(name, aft, track, n);
      r.Success? ==> forall k :: 0 <= k < |r.value| ==> r.value[k].imageName == name && r.value[k].trackId == id
  {
    var r := TrackSteps(name, aft, track, n);
    TrackStepsAt(name, aft, track, n);
    if r.Success? {
      forall k | 0 <= k < |r.value| ensures r.value[k].imageName == name && r.value[k].trackId == id {
        StepAtFields(name, aft, track, k);
      }
    }
  }

  /** Every record carries the image name `name` and a track id among `tracks`. */
  predicate NamedRecords(v: seq<StepRecord>, name: string, tracks: seq<int>)
  {
    forall k :: 0 <= k < |v| ==> v[k].imageName == name && v[k].trackId in tracks
  }

  /** Concatenating two results of named records gives named records. */
  lemma ThenNamed(a: Result<seq<StepRecord>>, b: Result<seq<StepRecord>>, name: string, tracks: seq<int>)
    requires a.Success? ==> NamedRecords(a.value, name, tracks)
    requires b.Success? ==> NamedRecords(b.value, name, tracks)
    ensures Then(a, b).Success? ==> NamedRecords(Then(a, b).value, name, tracks)
  {
    if Then(a, b).Success? {
      var v := Then(a, b).value;
      forall k | 0 <= k < |v| ensures v[k].imageName == name && v[k].trackId in tracks {
        if k < |a.value| {
          assert v[k] == a.value[k];
        } else {
          assert v[k] == b.value[k - |a.value|];
        }
      }
    }
  }

  /** The rows of one track all carry its id. */
  lemma TrackRowsIds(subset: seq<Spot>, trackId: int)
    ensures forall j :: 0 <= j < |TrackRows(subset, trackId)| ==> TrackRows(subset, trackId)[j].trackId == trackId
  {
    var rows := Filter(subset, (s: Spot) => s.trackId == trackId);
    SortDedupByFrameOrders(rows);
    forall j | 0 <= j < |TrackRows(subset, trackId)| ensures TrackRows(subset, trackId)[j].trackId == trackId {
      assert TrackRows(subset, trackId)[j] in rows;
    }
  }

  /** The ordered, de-duplicated rows of one track of one image. */
  function TrackRows(subset: seq<Spot>, trackId: int): seq<Spot>
  {
    SortDedupByFrame(Filter(subset, (s: Spot) => s.trackId == trackId))
  }

  /** The step records of one track: one per consecutive pair of its distinct frames. */
  function TrackRecords(name: string, aft: AftResult, subset: seq<Spot>, trackId: int): (r: Result<seq<StepRecord>>)
    ensures r.Success? ==> forall k :: 0 <= k < |r.value| ==> r.value[k].imageName == name && r.value[k].trackId == trackId
  {
    var track := TrackRows(subset, trackId);
    TrackRowsIds(subset, trackId);
    TrackStepsFields(name, aft, track, if |track| == 0 then 0 else |track| - 1, trackId);
    TrackSteps(name, aft, track, if |track| == 0 then 0 else |track| - 1)
  }

  /** A track with `k` distinct frames yields `k - 1` step records, a single-frame track none. */
  lemma TrackRecordCount(name: string, aft: AftResult, subset: seq<Spot>, trackId: int)
    requires TrackRecords(name, aft, subset, trackId).Success?
    ensures var k := |Frames(Filter(subset, (s: Spot) => s.trackId == trackId))|;
      |TrackRecords(name, aft, subset, trackId).value| == if k == 0 then 0 else k - 1
  {
    SortDedupCount(Filter(subset, (s: Spot) => s.trackId == trackId));
  }

  /** The records of the first `n` tracks of `tracks`. */
  function TracksRecords(name: string, aft: AftResult, subset: seq<Spot>, tracks: seq<int>, n: nat): (r: Result<seq<StepRecord>>)
    requires n <= |tracks|
    ensures r.Success? ==> NamedRecords(r.value, name, tracks)
  {
    if n == 0 then Success([])
    else
      var prev := TracksRecords(name, aft, subset, tracks, n - 1);
      var last := TrackRecords(name, aft, subset, tracks[n - 1]);
      ThenNamed(prev, last, name, tracks);
      Then(prev, last)
  }

  /** The spot rows of one image. */
  function Subset(spots: seq<Spot>, name: string): seq<Spot>
  {
    Filter(spots, (s: Spot) => s.fileName == name)
  }

  /** The records of one image: its tracks in order of first appearance. */
  function ImageRecords(img: AiImage, spots: seq<Spot>): Result<seq<StepRecord>>
  {
    var name := ImageLabel(img.path);
    var subset := Subset(spots, name);
    var tracks := Unique(TrackIds(subset));
    TracksRecords(name, img.aft, subset, tracks, |tracks|)
  }

  /** The records of the first `n` images. */
  function AiRecords(images: seq<AiImage>, spots: seq<Spot>, n: nat): Result<seq<StepRecord>>
    requires n <= |images|
  {
    if n == 0 then Success([]) else Then(AiRecords(images, spots, n - 1), ImageRecords(images[n - 1], spots))
  }

  /** One step: the KDTree query, then the angle and eccentricity read at the nearest patch. */
  method StepRecordOf(name: string, aft: AftResult, track: seq<Spot>, t: nat) returns (step: Result<StepRecord>)
    requires t + 1 < |track|
    ensures step == StepAt(name, aft, track, t)
  {
    if |aft.coords| == 0 {
      return Failure("IndexError");
    }
    var p := (track[t].x, track[t].y);
    var i := NearestPatch(aft.coords, p);
    NearestUnique(aft.coords, p, i, Nearest(aft.coords, p));
    var angle := ValueAt(aft.theta, t, i);
    var ecc := ValueAt(aft.ecc, t, i);
    if angle.Failure? {
      step := Failure(angle.error);
    } else if ecc.Failure? {
      step := Failure(ecc.error);
    } else {
      step := Success(StepRecord(track[t].trackId, track[t].frame, name, EcmId(i), aft.coords[i].0, aft.coords[i].1,
                                 angle.value, ecc.value, track[t + 1].x - track[t].x, track[t + 1].y - track[t].y));
    }
  }

  /** The loop over the steps of one ordered track. */
  method TrackStepRecords(name: string, aft: AftResult, track: seq<Spot>) returns (steps: Result<seq<StepRecord>>)
    ensures steps == TrackSteps(name, aft, track, if |track| == 0 then 0 else |track| - 1)
  {
    var n := if |track| == 0 then 0 else |track| - 1;
    steps := Success([]);
    for t := 0 to n
      invariant steps == TrackSteps(name, aft, track, t)
    {
      var step := StepRecordOf(name, aft, track, t);
      steps := Then(steps, if step.Success? then Success([step.value]) else Failure(step.error));
    }
  }

  /** The steps of one track of an image: its ordered rows, then the loop over their steps. */
  method TrackRecordsOf(name: string, aft: AftResult, subset: seq<Spot>, trackId: int) returns (steps: Result<seq<StepRecord>>)
    ensures steps == TrackRecords(name, aft, subset, trackId)
  {
    var track := TrackRows(subset, trackId);
    steps := TrackStepRecords(name, aft, track);
  }

  /**
   * The records of one image carry its label (`basename` with `.tif` removed) and the track
   * id of a spot of that image.
   */
  lemma ImageRecordsFields(img: AiImage, spots: seq<Spot>)
    requires ImageRecords(img, spots).Success?
    ensures var v := ImageRecords(img, spots).value;
      var name := ImageLabel(img.path);
      forall k :: 0 <= k < |v| ==> v[k].imageName == name && v[k].trackId in TrackIds(Subset(spots, name))
  {
  }

  /** The loop over the tracks of one image. */
  method TracksStepRecords(name: string, aft: AftResult, subset: seq<Spot>, tracks: seq<int>) returns (out: Result<seq<StepRecord>>)
    ensures out == TracksRecords(name, aft, subset, tracks, |tracks|)
  {
    out := Success([]);
    for k := 0 to |tracks|
      invariant out == TracksRecords(name, aft, subset, tracks, k)
    {
      var steps := TrackRecordsOf(name, aft, subset, tracks[k]);
      out := Then(out, steps);
    }
  }

  /** One image: its label, its rows of the spot table, and its tracks in order of first appearance. */
  method ImageStepRecords(img: AiImage, spots: seq<Spot>) returns (out: Result<seq<StepRecord>>)
    ensures out == ImageRecords(img, spots)
  {
    var name := ImageLabel(img.path);
    var subset := Subset(spots, name);
    var tracks := Unique(TrackIds(subset));
    out := TracksStepRecords(name, img.aft, subset, tracks);
  }

  lemma AiRecordsNext(images: seq<AiImage>, spots: seq<Spot>, n: nat, r: Result<seq<StepRecord>>, out: Result<seq<StepRecord>>)
    requires n < |images| && r == AiRecords(images, spots, n) && out == ImageRecords(images[n], spots)
    ensures Then(r, out) == AiRecords(images, spots, n + 1)
  {
  }

  /**
   * `AFT_AI_metric` up to the angle formulas: for each image, for each of its tracks, for each
   * step of the ordered track, the nearest patch and the values read there.
   */
  method AftAiMetric(images: seq<AiImage>, spots: seq<Spot>) returns (r: Result<seq<StepRecord>>)
    ensures r == AiRecords(images, spots, |images|)
  {
    r := Success([]);
    for position := 0 to |images|
      invariant r == AiRecords(images, spots, position)
    {
      var out := ImageStepRecords(images[position], spots);
      AiRecordsNext(images, spots, position, r, out);
      r := Then(r, out);
    }
  }

  // ---------------------------------------------------------------------------
  // Local order parameter (AFT_order_parameter)
  // ---------------------------------------------------------------------------

  /**
   * The AFT result of one image for the order parameter: patch coordinates and the angle grid
   * of `nrows` by `ncols` patches (one coordinate pair per patch).
   */
  datatype OrderImage = OrderImage(path: string, xs: seq<real>, ys: seq<real>, theta: Grid<Option<real>>, nrows: nat, ncols: nat)

  predicate Shaped(img: OrderImage)
  {
    IsGrid(img.theta, img.nrows, img.ncols) && |img.xs| == img.nrows * img.ncols && |img.ys| == |img.xs|
  }

  /** Row and column of a flat patch index: `idx // ncols` and `idx % ncols`. */
  function RowCol(idx: nat, ncols: nat): (rc: (nat, nat))
    requires ncols > 0
    ensures rc.1 < ncols
  {
    (idx / ncols, idx % ncols)
  }

  /** A flat index inside the grid maps to a cell inside the grid, and the mapping is one-to-one. */
  lemma RowColInGrid(i: nat, j: nat, nrows: nat, ncols: nat)
    requires ncols > 0 && i < nrows * ncols && j < nrows * ncols
    ensures RowCol(i, ncols).0 * ncols + RowCol(i, ncols).1 == i
    ensures RowCol(i, ncols).0 < nrows
    ensures RowCol(i, ncols) == RowCol(j, ncols) ==> i == j
  {
  }

  /** A patch index of a well-shaped result has a row and a column inside the angle grid. */
  lemma PatchIndexInGrid(img: OrderImage, idx: nat)
    requires Shaped(img) && idx < |img.xs|
    ensures img.ncols > 0 && RowCol(idx, img.ncols).0 < img.nrows
  {
    RowColInGrid(idx, idx, img.nrows, img.ncols);
  }

  /** The radius-`radius` square around `(r, c)` leaves the grid. */
  predicate AtBorder(r: int, c: int, radius: nat, nrows: nat, ncols: nat)
  {
    r - radius < 0 || c - radius < 0 || r + radius >= nrows || c + radius >= ncols
  }

  /** `theta[r-R : r+R+1, c-R : c+R+1]`. */
  function Neighbourhood(theta: Grid<Option<real>>, nrows: nat, ncols: nat, r: nat, c: nat, radius: nat): (g: Grid<Option<real>>)
    requires IsGrid(theta, nrows, ncols) && !AtBorder(r, c, radius, nrows, ncols)
    ensures IsGrid(g, 2 * radius + 1, 2 * radius + 1)
    ensures forall i, j :: 0 <= i < 2 * radius + 1 && 0 <= j < 2 * radius + 1 ==> g[i][j] == theta[r - radius + i][c - radius + j]
    ensures g[radius][radius] == theta[r][c]
  {
    seq(2 * radius + 1, i requires 0 <= i < 2 * radius + 1 =>
      seq(2 * radius + 1, j requires 0 <= j < 2 * radius + 1 => theta[r - radius + i][c - radius + j]))
  }

  /**
   * The order value of patch `idx`: `NaN` when its neighbourhood leaves the grid or its own
   * angle is missing, otherwise the AFT order of the neighbourhood about the centre angle
   * (`order` stands for `2 * nanmean(cos(delta)^2 - 0.5)`).
   */
  function OrderValue(img: OrderImage, idx: nat, radius: nat, order: (Grid<Option<real>>, real) -> real): (v: Option<real>)
    requires Shaped(img) && idx < |img.xs|
    ensures img.ncols > 0
    ensures var (r, c) := RowCol(idx, img.ncols);
      v.None? <==> AtBorder(r, c, radius, img.nrows, img.ncols) || img.theta[r][c].None?
    ensures var (r, c) := RowCol(idx, img.ncols);
      v.Some? ==> (!AtBorder(r, c, radius, img.nrows, img.ncols) &&
        v.value == order(Neighbourhood(img.theta, img.nrows, img.ncols, r, c, radius), img.theta[r][c].value))
  {
    var (r, c) := RowCol(idx, img.ncols);
    if AtBorder(r, c, radius, img.nrows, img.ncols) then None
    else if img.theta[r][c].None? then None
    else Some(order(Neighbourhood(img.theta, img.nrows, img.ncols, r, c, radius), img.theta[r][c].value))
  }

  datatype OrderRecord = OrderRecord(imageName: string, ecmId: string, ecmX: real, ecmY: real, orderValue: Option<real>,
                                     windowSize: int, overlap: real, radius: nat)

  /** The records of one image: exactly one per patch index, in index order. */
  function ImageOrderRecords(img: OrderImage, name: string, radius: nat, windowSize: int, overlap: real,
                             order: (Grid<Option<real>>, real) -> real): (recs: seq<OrderRecord>)
    requires Shaped(img)
    ensures |recs| == |img.xs|
    ensures forall idx :: 0 <= idx < |img.xs| ==> recs[idx] == OrderRecordAt(img, name, idx, radius, windowSize, overlap, order)
  {
    seq(|img.xs|, idx requires 0 <= idx < |img.xs| => OrderRecordAt(img, name, idx, radius, windowSize, overlap, order))
  }

  /** The record of patch `idx`: the image label, the id `ECM_<idx+1>`, the patch coordinates and the order value. */
  function OrderRecordAt(img: OrderImage, name: string, idx: nat, radius: nat, windowSize: int, overlap: real,
                         order: (Grid<Option<real>>, real) -> real): (rec: OrderRecord)
    requires Shaped(img) && idx < |img.xs|
    ensures rec.ecmId == EcmId(idx) && rec.ecmX == img.xs[idx] && rec.ecmY == img.ys[idx]
  {
    OrderRecord(name, EcmId(idx), img.xs[idx], img.ys[idx], OrderValue(img, idx, radius, order), windowSize, overlap, radius)
  }

  /** The records of the first `n` images. */
  function OrderRecords(images: seq<OrderImage>, n: nat, radius: nat, windowSize: int, overlap: real,
                        order: (Grid<Option<real>>, real) -> real): (recs: seq<OrderRecord>)
    requires n <= |images| && forall k :: 0 <= k < |images| ==> Shaped(images[k])
  {
    if n == 0 then []
    else OrderRecords(images, n - 1, radius, windowSize, overlap, order) + ImageOrderRecords(images[n - 1], ImageLabel(images[n - 1].path), radius, windowSize, overlap, order)
  }

  /** The table has one record per patch of every image. */
  lemma {:induction false} OrderRecordsCount(images: seq<OrderImage>, n: nat, radius: nat, windowSize: int, overlap: real,
                                             order: (Grid<Option<real>>, real) -> real)
    requires n <= |images| && forall k :: 0 <= k < |images| ==> Shaped(images[k])
    ensures |OrderRecords(images, n, radius, windowSize, overlap, order)| == PatchCount(images, n)
  {
    if n > 0 {
      OrderRecordsCount(images, n - 1, radius, windowSize, overlap, order);
    }
  }

  function PatchCount(images: seq<OrderImage>, n: nat): nat
    requires n <= |images|
  {
    if n == 0 then 0 else PatchCount(images, n - 1) + |images[n - 1].xs|
  }

  lemma ImageOrderRecordsNext(img: OrderImage, name: string, radius: nat, windowSize: int, overlap: real,
                              order: (Grid<Option<real>>, real) -> real, idx: nat, records: seq<OrderRecord>, rec: OrderRecord)
    requires Shaped(img) && idx < |img.xs|
    requires records == ImageOrderRecords(img, name, radius, windowSize, overlap, order)[..idx]
    requires rec == OrderRecordAt(img, name, idx, radius, windowSize, overlap, order)
    ensures records + [rec] == ImageOrderRecords(img, name, radius, windowSize, overlap, order)[..idx + 1]
  {
    var all := ImageOrderRecords(img, name, radius, windowSize, overlap, order);
    assert all[..idx + 1] == all[..idx] + [all[idx]];
  }

  lemma SeqPrefixWhole<T>(s: seq<T>)
    ensures s[..|s|] == s
  {
  }

  /** The loop over the patch indices of one image. */
  method ImageOrder(img: OrderImage, name: string, radius: nat, windowSize: int, overlap: real,
                    order: (Grid<Option<real>>, real) -> real) returns (records: seq<OrderRecord>)
    requires Shaped(img)
    ensures records == ImageOrderRecords(img, name, radius, windowSize, overlap, order)
  {
    ghost var all := ImageOrderRecords(img, name, radius, windowSize, overlap, order);
    records := [];
    for idx := 0 to |img.xs|
      invariant records == all[..idx]
    {
      var orderVal := OrderValueOf(img, idx, radius, order);
      var rec := OrderRecord(name, EcmId(idx), img.xs[idx], img.ys[idx], orderVal, windowSize, overlap, radius);
      ImageOrderRecordsNext(img, name, radius, windowSize, overlap, order, idx, records, rec);
      records := records + [rec];
    }
    SeqPrefixWhole(all);
  }

  /** The order value of one patch: row and column, the border rule, the centre check, the neighbourhood. */
  method OrderValueOf(img: OrderImage, idx: nat, radius: nat, order: (Grid<Option<real>>, real) -> real) returns (orderVal: Option<real>)
    requires Shaped(img) && idx < |img.xs|
    ensures orderVal == OrderValue(img, idx, radius, order)
  {
    PatchIndexInGrid(img, idx);
    var (r, c) := RowCol(idx, img.ncols);
    if r - radius < 0 || c - radius < 0 || r + radius >= img.nrows || c + radius >= img.ncols {
      orderVal := None;
    } else {
      var ref := img.theta[r][c];
      if ref.None? {
        orderVal := None;
      } else {
        var patch := Neighbourhood(img.theta, img.nrows, img.ncols, r, c, radius);
        orderVal := Some(order(patch, ref.value));
      }
    }
  }

  /** `AFT_order_parameter` over the images, with the AFT results and the order formula as inputs. */
  method AftOrderParameter(images: seq<OrderImage>, radius: nat, windowSize: int, overlap: real,
                           order: (Grid<Option<real>>, real) -> real) returns (records: seq<OrderRecord>)
    requires forall k :: 0 <= k < |images| ==> Shaped(images[k])
    ensures records == OrderRecords(images, |images|, radius, windowSize, overlap, order)
  {
    records := [];
    for k := 0 to |images|
      invariant records == OrderRecords(images, k, radius, windowSize, overlap, order)
    {
      var recs := ImageOrder(images[k], ImageLabel(images[k].path), radius, windowSize, overlap, order);
      records := records + recs;
    }
  }
}
