/**
 * `filter_segments_by_wind`: keep the segments whose end-to-end direction is
 * within `max_angle` degrees of the wind direction, in their original order.
 *
 * The polyline decoder and the bearing calculator are collaborators whose
 * internals are not part of this model: they are the two functions of a
 * `Geometry` value, and every result below holds for every choice of them.
 */
module SegmentFilter {

  import opened Wrappers
  import opened Angles

  /** A decoded path point: (latitude, longitude) in degrees. */
  datatype GeoPoint = GeoPoint(lat: real, lon: real)

  /** The two fields of a segment record that the filter reads. */
  datatype Segment = Segment(name: string, polyline: string)

  /**
   * `decode` stands for `polyline.decode`. `bearing` stands for
   * `calculate_bearing`, whose result is `math.degrees(atan2(y, x))`: a value
   * in [-180, 180] that is never normalised to [0, 360); AngleBetween takes
   * any direction, so the filter does not depend on that choice.
   */
  datatype Geometry = Geometry(
    decode: string -> seq<GeoPoint>,
    bearing: (GeoPoint, GeoPoint) -> real)

  /** `points[0]` on an empty decoded path raises IndexError. */
  datatype FilterError = EmptyPath

  predicate Decodable(s: Segment, geo: Geometry) {
    |geo.decode(s.polyline)| > 0
  }

  predicate AllDecodable(segs: seq<Segment>, geo: Geometry) {
    forall s :: s in segs ==> Decodable(s, geo)
  }

  /** The bearing from the first to the last decoded point of a segment. */
  function Direction(s: Segment, geo: Geometry): real
    requires Decodable(s, geo)
  {
    var points := geo.decode(s.polyline);
    geo.bearing(points[0], points[|points| - 1])
  }

  predicate Aligned(s: Segment, geo: Geometry, windDir: real, maxAngle: real)
    requires Decodable(s, geo)
  {
    AngleBetween(Direction(s, geo), windDir) <= maxAngle
  }

  /** The aligned segments of `segs`, in order. */
  function Kept(segs: seq<Segment>, geo: Geometry, windDir: real, maxAngle: real): seq<Segment>
    requires AllDecodable(segs, geo)
  {
    if segs == [] then []
    else
      var last := segs[|segs| - 1];
      Kept(segs[..|segs| - 1], geo, windDir, maxAngle)
        + (if Aligned(last, geo, windDir, maxAngle) then [last] else [])
  }

  /** The positions in `segs` of the aligned segments, in increasing order. */
  function KeptPositions(segs: seq<Segment>, geo: Geometry, windDir: real, maxAngle: real): seq<int>
    requires AllDecodable(segs, geo)
  {
    if segs == [] then []
    else
      var n := |segs| - 1;
      KeptPositions(segs[..n], geo, windDir, maxAngle)
        + (if Aligned(segs[n], geo, windDir, maxAngle) then [n] else [])
  }

  /**
   * The filter loop. `windSpeed` is accepted and never read: the result is
   * fixed by the other arguments alone.
   */
  method FilterSegmentsByWind(segments: seq<Segment>, windSpeed: real, windDir: real,
                              maxAngle: real, geo: Geometry)
    returns (r: Result<seq<Segment>, FilterError>)
    ensures r.Failure? <==> exists s :: s in segments && geo.decode(s.polyline) == []
    ensures r.Success? ==> r.value == Kept(segments, geo, windDir, maxAngle)
  {
    var filtered := [];
    var i := 0;
    while i < |segments|
      invariant 0 <= i <= |segments|
      invariant AllDecodable(segments[..i], geo)
      invariant filtered == Kept(segments[..i], geo, windDir, maxAngle)
    {
      var segment := segments[i];
      var points := geo.decode(segment.polyline);
      if |points| == 0 {
        assert segment in segments && geo.decode(segment.polyline) == [];
        return Failure(EmptyPath);
      }
      var segmentDir := geo.bearing(points[0], points[|points| - 1]);
      var angle := AngleBetween(segmentDir, windDir);
      if angle <= maxAngle {
        filtered := filtered + [segment];
      }
      assert segments[..i + 1][..i] == segments[..i];
      i := i + 1;
    }
    assert segments[..i] == segments;
    r := Success(filtered);
  }

  /**
   * The result is exactly the aligned segments in their input order: the
   * k-th kept segment sits at the k-th of a strictly increasing list of
   * positions, and those positions are precisely the aligned ones.
   */
  lemma {:induction false} KeptSelectsInOrder(segs: seq<Segment>, geo: Geometry, windDir: real, maxAngle: real)
    requires AllDecodable(segs, geo)
    ensures var kept, pos := Kept(segs, geo, windDir, maxAngle), KeptPositions(segs, geo, windDir, maxAngle);
      && |kept| == |pos|
      && (forall k :: 0 <= k < |pos| ==> 0 <= pos[k] < |segs| && kept[k] == segs[pos[k]])
      && (forall k, l :: 0 <= k < l < |pos| ==> pos[k] < pos[l])
      && (forall i :: 0 <= i < |segs| ==> (i in pos <==> Aligned(segs[i], geo, windDir, maxAngle)))
  {
    if segs != [] {
      var n := |segs| - 1;
      var init := segs[..n];
      assert AllDecodable(init, geo) by {
        forall s | s in init ensures Decodable(s, geo) {
          assert s in segs;
        }
      }
      KeptSelectsInOrder(init, geo, windDir, maxAngle);
      var pos := KeptPositions(segs, geo, windDir, maxAngle);
      var pos0 := KeptPositions(init, geo, windDir, maxAngle);
      forall i | 0 <= i < n
        ensures i in pos <==> Aligned(segs[i], geo, windDir, maxAngle)
      {
        assert init[i] == segs[i];
      }
      assert n !in pos0;
    }
  }

  /** A segment is returned iff it is one of the input segments and it is aligned. */
  lemma {:induction false} KeptMembership(segs: seq<Segment>, geo: Geometry, windDir: real, maxAngle: real, s: Segment)
    requires AllDecodable(segs, geo)
    ensures s in Kept(segs, geo, windDir, maxAngle) <==> s in segs && Aligned(s, geo, windDir, maxAngle)
  {
    if segs != [] {
      var n := |segs| - 1;
      var init := segs[..n];
      assert segs == init + [segs[n]];
      assert AllDecodable(init, geo) by {
        forall t | t in init ensures Decodable(t, geo) {
          assert t in segs;
        }
      }
      KeptMembership(init, geo, windDir, maxAngle, s);
    }
  }

  /** With a threshold of 180 degrees or more, every segment is kept. */
  lemma {:induction false} KeptAllWhenWide(segs: seq<Segment>, geo: Geometry, windDir: real, maxAngle: real)
    requires AllDecodable(segs, geo)
    requires maxAngle >= 180.0
    ensures Kept(segs, geo, windDir, maxAngle) == segs
  {
    if segs != [] {
      var n := |segs| - 1;
      var init := segs[..n];
      assert AllDecodable(init, geo) by {
        forall t | t in init ensures Decodable(t, geo) {
          assert t in segs;
        }
      }
      KeptAllWhenWide(init, geo, windDir, maxAngle);
      assert segs == init + [segs[n]];
    }
  }

  /** With a negative threshold, no segment is kept. */
  lemma {:induction false} KeptNoneWhenNegative(segs: seq<Segment>, geo: Geometry, windDir: real, maxAngle: real)
    requires AllDecodable(segs, geo)
    requires maxAngle < 0.0
    ensures Kept(segs, geo, windDir, maxAngle) == []
  {
    if segs != [] {
      var n := |segs| - 1;
      var init := segs[..n];
      assert AllDecodable(init, geo) by {
        forall t | t in init ensures Decodable(t, geo) {
          assert t in segs;
        }
      }
      KeptNoneWhenNegative(init, geo, windDir, maxAngle);
    }
  }

  /** A wind direction and the same direction plus whole turns select the same segments. */
  lemma {:induction false} KeptPeriodicInWind(segs: seq<Segment>, geo: Geometry, windDir: real, maxAngle: real, k: int)
    requires AllDecodable(segs, geo)
    ensures Kept(segs, geo, windDir + 360.0 * k as real, maxAngle) == Kept(segs, geo, windDir, maxAngle)
  {
    if segs != [] {
      var n := |segs| - 1;
      var init := segs[..n];
      assert AllDecodable(init, geo) by {
        forall t | t in init ensures Decodable(t, geo) {
          assert t in segs;
        }
      }
      KeptPeriodicInWind(init, geo, windDir, maxAngle, k);
      AngleBetweenPeriodic(Direction(segs[n], geo), windDir, k);
    }
  }

  /**
   * With a threshold of 0, a segment is kept exactly when its direction names
   * the same compass point as the wind.
   */
  lemma AlignedAtZeroThreshold(s: Segment, geo: Geometry, windDir: real)
    requires Decodable(s, geo)
    ensures Aligned(s, geo, windDir, 0.0) <==> FloorMod360(Direction(s, geo) - windDir) == 0.0
  {
    AngleBetweenZeroIff(Direction(s, geo), windDir);
  }

  /** A larger threshold keeps every segment a smaller one keeps. */
  lemma KeptMonotone(segs: seq<Segment>, geo: Geometry, windDir: real, m1: real, m2: real, s: Segment)
    requires AllDecodable(segs, geo)
    requires m1 <= m2
    ensures s in Kept(segs, geo, windDir, m1) ==> s in Kept(segs, geo, windDir, m2)
  {
    KeptMembership(segs, geo, windDir, m1, s);
    KeptMembership(segs, geo, windDir, m2, s);
  }

}
