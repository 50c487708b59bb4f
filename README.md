# Wind-aligned Strava segments, modelled in Dafny

The original program fetches Strava riding segments in a bounding box and an
hourly wind forecast for the box's centre. It keeps the segments whose
end-to-end direction lies within `max_angle` degrees (45 by default) of the
current wind direction, and draws them on a map. This project models the
computational core of `strava_segments.py`:

- `angles.dfy` (module `Angles`): `angle_between`, the absolute difference of
  two compass directions after wrapping it into [-180, 180) with Python's
  floor modulo `%`. Directions are `real` degrees. Python's `x % 360` is
  `FloorMod360`, defined through `.Floor`.
- `segment_filter.dfy` (module `SegmentFilter`): `filter_segments_by_wind`,
  the loop that keeps, in order, each segment whose bearing from its first to
  its last decoded point is within `max_angle` of the wind. `polyline.decode`
  and `calculate_bearing` are the two function fields of a `Geometry` value,
  so every result holds for any decoder and any bearing function.
- `wind_forecast.dfy` (module `WindForecast`): the index loop of
  `get_wind_forecast` that zips the hourly `time`, `windspeed_10m` and
  `winddirection_10m` arrays into `(time, speed, direction)` samples.
- `wrappers.dfy` (module `Wrappers`): the `Result` type. It stands for the
  exceptions the loops raise.

Where the source raises an exception, the model returns `Failure`. An empty
decoded path makes `points[0]` raise IndexError. A speed or direction array
shorter than `time` makes the zip loop raise IndexError. In both cases the
whole call fails and no partial list is returned.

Behaviour of the source worth noting:
- `calculate_bearing` returns `math.degrees(atan2(y, x))`, a value in
  [-180, 180]. The bearing is never normalised to [0, 360). `AngleBetween`
  accepts any direction and is periodic, so the filter gives the same result
  either way (`KeptPeriodicInWind`, `AngleBetweenPeriodic`).
- Loop segments and one-point paths are not treated specially. A path of one
  point is compared using `bearing(p, p)`. Only an empty path is an error.
- The three hourly arrays need not have equal length. The speed and direction
  arrays must be at least as long as `time`; their extra entries are ignored.
- `wind_speed` is a parameter of the filter but is never read. The method's
  contract does not mention it.

## Model

| member | source | states |
|---|---|---|
| Angles.FloorMod360 | strava_segments.py:30 | Python's `% 360` always lies in [0, 360), even for negative operands |
| Angles.FloorModUnique | strava_segments.py:30 | `% 360` gives the one value in [0, 360) that differs from its operand by whole turns |
| Angles.AngleBetween | strava_segments.py:29-31 | the angle between two directions lies in [0, 180] for every pair of inputs |
| Angles.AngleBetweenSelf | strava_segments.py:30-31 | a direction is at angle 0 from itself |
| Angles.AngleBetweenSymmetric | strava_segments.py:30-31 | swapping the two directions does not change the angle |
| Angles.AngleBetweenOpposite | strava_segments.py:30-31 | `a` and `a + 180` are at angle 180, in either order |
| Angles.AngleBetweenPeriodic | strava_segments.py:30-31 | adding any whole number of turns to either direction does not change the angle |
| Angles.AngleBetweenCongruent | strava_segments.py:30-31 | the angle equals `a - b` or `b - a` up to whole turns |
| Angles.AngleBetweenMinimal | strava_segments.py:30-31 | the angle is no larger than `abs(a - b - 360 j)` for every integer `j`, so it is the shortest turn between the directions |
| Angles.AngleBetweenZeroIff | strava_segments.py:30-31 | the angle is 0 exactly when the two directions are equal modulo 360 |
| SegmentFilter.FilterSegmentsByWind | strava_segments.py:44-55 | fails exactly when some segment decodes to an empty path; otherwise returns the aligned segments in input order (bearing from the first to the last point, kept when the angle is at most `max_angle`); `wind_speed` plays no part |
| SegmentFilter.KeptSelectsInOrder | strava_segments.py:45-55 | the k-th returned segment is the input segment at the k-th of a strictly increasing list of positions, and those positions are exactly the aligned ones: a stable filter |
| SegmentFilter.KeptMembership | strava_segments.py:46-54 | a segment is returned iff it is an input segment and its end-to-end bearing is within `max_angle` of the wind |
| SegmentFilter.KeptAllWhenWide | strava_segments.py:53 | with `max_angle >= 180` every segment is returned, unchanged and in order |
| SegmentFilter.KeptNoneWhenNegative | strava_segments.py:53 | with `max_angle < 0` no segment is returned |
| SegmentFilter.KeptPeriodicInWind | strava_segments.py:51-53 | a wind direction shifted by whole turns selects the same segments |
| SegmentFilter.AlignedAtZeroThreshold | strava_segments.py:51-53 | with `max_angle == 0` a segment is kept exactly when its bearing equals the wind direction modulo 360 |
| SegmentFilter.KeptMonotone | strava_segments.py:53 | a segment kept under one threshold is kept under every larger one |
| WindForecast.ZipHourly | strava_segments.py:20-26 | fails exactly when the speed or direction array is shorter than `time`; otherwise returns `len(time)` samples, sample `i` being `(time[i], windspeed[i], winddirection[i])` |

## Left out

- HTTP requests and JSON parsing in `get_segments` and `get_wind_forecast` (strava_segments.py:9-19): network I/O. Only the zip loop after the response is modelled.
- `calculate_bearing` internals (strava_segments.py:34-41): floating-point trigonometry. It is the `bearing` field of `Geometry`, an arbitrary function.
- `polyline.decode`: an external library. It is the `decode` field of `Geometry`, an arbitrary total function, so malformed polyline strings that make the library raise are not modelled.
- Missing `map` or `polyline` keys in a segment record (a KeyError in the source): a `Segment` always carries both fields.
- `create_map` and `m.save` (strava_segments.py:58-69, 92): map rendering and file output.
- Script-level code (strava_segments.py:72-91): the bounding-box constants, the centre-point averaging and the choice of `forecast_data[0]` as the current wind.
- The unused `geopy` import and the commented-out distance check (strava_segments.py:4, 50).
- Floating point: directions, angles and thresholds are exact reals. Python's float `%` can round; for example a tiny negative operand can give exactly 360.0. Rounding is not modelled.
- The default `max_angle=45`: the model has no default arguments, so callers always pass the threshold.
