/**
 * The sheet-boundary search: for one image, the descending area thresholds
 * are tried in order until the contour filter returns a non-empty candidate
 * list; around that, the rotation angles are tried in order until one
 * orientation yields candidates. The filter and the contour extraction are
 * uninterpreted function parameters.
 */
module ContourSearch {
  import opened Raster

  /** Area thresholds, largest first. */
  const Thresholds: seq<int> := [50000, 30000, 10000]

  /** Rotation angles tried, in order. */
  const Angles: seq<int> := [0, 90, 180, 270]

  /** The candidates a threshold search returned and how many filter calls it made. */
  datatype Probe<Q> = Probe(found: seq<Q>, calls: nat)

  /**
   * The threshold search over `thresholds[from..]`: the candidates of the
   * first threshold whose filtered list is non-empty, or the empty list.
   */
  function BiggestContourFrom<C, Q>(filter: (seq<C>, int) -> seq<Q>, contours: seq<C>,
                                     thresholds: seq<int>, from: nat): (r: Probe<Q>)
    requires from <= |thresholds|
    ensures r.calls <= |thresholds| - from
    ensures r.found == [] <==> forall k :: from <= k < |thresholds| ==> filter(contours, thresholds[k]) == []
    ensures r.found == [] ==> r.calls == |thresholds| - from
    ensures r.found != [] ==>
              && 0 < r.calls
              && r.found == filter(contours, thresholds[from + r.calls - 1])
              && forall k :: from <= k < from + r.calls - 1 ==> filter(contours, thresholds[k]) == []
    decreases |thresholds| - from
  {
    if from == |thresholds| then Probe([], 0)
    else
      var candidates := filter(contours, thresholds[from]);
      if |candidates| > 0 then Probe(candidates, 1)
      else
        var rest := BiggestContourFrom(filter, contours, thresholds, from + 1);
        Probe(rest.found, rest.calls + 1)
  }

  /**
   * The threshold search over the whole list: the first non-empty filtered
   * list in threshold order, empty exactly when every threshold gives an
   * empty list, after at most one filter call per threshold.
   */
  function BiggestContour<C, Q>(filter: (seq<C>, int) -> seq<Q>, contours: seq<C>,
                                 thresholds: seq<int>): (r: Probe<Q>)
    ensures r.calls <= |thresholds|
    ensures r.found == [] <==> forall k :: 0 <= k < |thresholds| ==> filter(contours, thresholds[k]) == []
    ensures r.found == [] ==> r.calls == |thresholds|
    ensures r.found != [] ==>
              && 0 < r.calls
              && r.found == filter(contours, thresholds[r.calls - 1])
              && forall k :: 0 <= k < r.calls - 1 ==> filter(contours, thresholds[k]) == []
  {
    BiggestContourFrom(filter, contours, thresholds, 0)
  }

  /**
   * Outcome of the rotation search: the working image (the winning rotation,
   * or the untouched input), the winning candidates (empty on failure), the
   * number of angles tried and the total number of filter calls.
   */
  datatype Orientation<T, Q> = Orientation(image: Image<T>, candidates: seq<Q>, anglesTried: nat, filterCalls: nat)

  /** Candidates found for `img` turned by `angle`. */
  function CandidatesAt<T, C, Q>(img: Image<T>, angle: int, detect: Image<T> -> seq<C>,
                                 filter: (seq<C>, int) -> seq<Q>, thresholds: seq<int>): seq<Q>
    requires img.Valid()
  {
    BiggestContour(filter, detect(Rotate(img, angle)), thresholds).found
  }

  /** The rotation search over `angles[from..]`. */
  function OrientFrom<T, C, Q>(img: Image<T>, detect: Image<T> -> seq<C>, filter: (seq<C>, int) -> seq<Q>,
                               angles: seq<int>, thresholds: seq<int>, from: nat): (r: Orientation<T, Q>)
    requires img.Valid() && from <= |angles|
    ensures r.anglesTried <= |angles| - from
    ensures r.candidates != [] ==> 0 < r.anglesTried
    decreases |angles| - from
  {
    if from == |angles| then Orientation(img, [], 0, 0)
    else
      var rotated := Rotate(img, angles[from]);
      var probe := BiggestContour(filter, detect(rotated), thresholds);
      if |probe.found| > 0 then Orientation(rotated, probe.found, 1, probe.calls)
      else
        var rest := OrientFrom(img, detect, filter, angles, thresholds, from + 1);
        Orientation(rest.image, rest.candidates, rest.anglesTried + 1, probe.calls + rest.filterCalls)
  }

  /**
   * The search from `from` fails exactly when no remaining angle yields
   * candidates; it then leaves the image untouched, tries every remaining
   * angle and runs every threshold on each.
   */
  lemma {:induction false} OrientFromFails<T, C, Q>(img: Image<T>, detect: Image<T> -> seq<C>,
                                                   filter: (seq<C>, int) -> seq<Q>,
                                                   angles: seq<int>, thresholds: seq<int>, from: nat)
    requires img.Valid() && from <= |angles|
    ensures var r := OrientFrom(img, detect, filter, angles, thresholds, from);
            r.candidates == [] <==>
              forall k :: from <= k < |angles| ==> CandidatesAt(img, angles[k], detect, filter, thresholds) == []
    ensures var r := OrientFrom(img, detect, filter, angles, thresholds, from);
            r.candidates == [] ==>
              && r.image == img
              && r.anglesTried == |angles| - from
              && r.filterCalls == (|angles| - from) * |thresholds|
    decreases |angles| - from
  {
    if from < |angles| {
      var probe := BiggestContour(filter, detect(Rotate(img, angles[from])), thresholds);
      if |probe.found| == 0 {
        OrientFromFails(img, detect, filter, angles, thresholds, from + 1);
        AttemptsGrow(|angles| - (from + 1), |thresholds|);
      }
    }
  }

  /**
   * A successful search from `from` stops at the first angle that yields
   * candidates: those candidates and that rotation are the result, and
   * every earlier angle yielded none.
   */
  lemma {:induction false} OrientFromFinds<T, C, Q>(img: Image<T>, detect: Image<T> -> seq<C>,
                                                   filter: (seq<C>, int) -> seq<Q>,
                                                   angles: seq<int>, thresholds: seq<int>, from: nat)
    requires img.Valid() && from <= |angles|
    ensures var r := OrientFrom(img, detect, filter, angles, thresholds, from);
            r.candidates != [] ==>
              && r.image == Rotate(img, angles[from + r.anglesTried - 1])
              && r.candidates == CandidatesAt(img, angles[from + r.anglesTried - 1], detect, filter, thresholds)
              && forall k :: from <= k < from + r.anglesTried - 1 ==>
                   CandidatesAt(img, angles[k], detect, filter, thresholds) == []
    decreases |angles| - from
  {
    if from < |angles| {
      var probe := BiggestContour(filter, detect(Rotate(img, angles[from])), thresholds);
      if |probe.found| == 0 {
        OrientFromFinds(img, detect, filter, angles, thresholds, from + 1);
      }
    }
  }

  /**
   * Whatever its outcome, the search from `from` runs at most one filter
   * call per threshold for each remaining angle.
   */
  lemma {:induction false} OrientFromBounded<T, C, Q>(img: Image<T>, detect: Image<T> -> seq<C>,
                                                     filter: (seq<C>, int) -> seq<Q>,
                                                     angles: seq<int>, thresholds: seq<int>, from: nat)
    requires img.Valid() && from <= |angles|
    ensures OrientFrom(img, detect, filter, angles, thresholds, from).filterCalls <= (|angles| - from) * |thresholds|
    decreases |angles| - from
  {
    if from < |angles| {
      var probe := BiggestContour(filter, detect(Rotate(img, angles[from])), thresholds);
      AttemptsGrow(|angles| - (from + 1), |thresholds|);
      if |probe.found| == 0 {
        OrientFromBounded(img, detect, filter, angles, thresholds, from + 1);
      }
    }
  }

  lemma AttemptsGrow(remaining: nat, perAngle: nat)
    ensures perAngle + remaining * perAngle == (remaining + 1) * perAngle
  {
  }

  /**
   * The rotation search of the mark finder: the first angle, in list order,
   * whose threshold search finds candidates wins and its rotated image
   * becomes the working image. When no angle succeeds the candidates are
   * empty, the working image is the unrotated input, and exactly
   * |angles| x |thresholds| filter calls were made; a success makes no more.
   */
  function Orient<T, C, Q>(img: Image<T>, detect: Image<T> -> seq<C>, filter: (seq<C>, int) -> seq<Q>,
                           angles: seq<int>, thresholds: seq<int>): (r: Orientation<T, Q>)
    requires img.Valid()
    ensures r.image.Valid()
    ensures r.candidates == [] <==>
              forall k :: 0 <= k < |angles| ==> CandidatesAt(img, angles[k], detect, filter, thresholds) == []
    ensures r.candidates == [] ==>
              r.image == img && r.filterCalls == |angles| * |thresholds|
    ensures r.filterCalls <= |angles| * |thresholds|
    ensures r.candidates != [] ==>
              && 0 < r.anglesTried <= |angles|
              && r.image == Rotate(img, angles[r.anglesTried - 1])
              && r.candidates == CandidatesAt(img, angles[r.anglesTried - 1], detect, filter, thresholds)
              && forall k :: 0 <= k < r.anglesTried - 1 ==>
                   CandidatesAt(img, angles[k], detect, filter, thresholds) == []
  {
    OrientFromFails(img, detect, filter, angles, thresholds, 0);
    OrientFromFinds(img, detect, filter, angles, thresholds, 0);
    OrientFromBounded(img, detect, filter, angles, thresholds, 0);
    OrientFrom(img, detect, filter, angles, thresholds, 0)
  }
}
