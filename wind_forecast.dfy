/**
 * The part of `get_wind_forecast` that runs after the forecast response is
 * parsed: the three parallel hourly arrays are zipped, index by index, into
 * one list of (time, wind speed, wind direction) samples.
 */
module WindForecast {

  import opened Wrappers

  /** One hourly forecast entry: the `(hourly, windspeed, winddirection)` tuple. */
  datatype WindSample = WindSample(time: string, speed: real, direction: real)

  /** Reading `windspeed_10m[i]` or `winddirection_10m[i]` past its end raises IndexError. */
  datatype ForecastError = MissingHourlyValue

  /**
   * One sample per entry of `time`, the i-th built from the i-th entry of
   * each array; the call fails when either value array is shorter than
   * `time`, and values past the length of `time` are ignored.
   */
  method ZipHourly(time: seq<string>, windspeed: seq<real>, winddirection: seq<real>)
    returns (r: Result<seq<WindSample>, ForecastError>)
    ensures r.Failure? <==> |windspeed| < |time| || |winddirection| < |time|
    ensures r.Success? ==>
      && |r.value| == |time|
      && forall i :: 0 <= i < |time| ==> r.value[i] == WindSample(time[i], windspeed[i], winddirection[i])
  {
    var hourlyForecast := [];
    var i := 0;
    while i < |time|
      invariant 0 <= i <= |time|
      invariant i <= |windspeed| && i <= |winddirection|
      invariant |hourlyForecast| == i
      invariant forall k :: 0 <= k < i ==>
        hourlyForecast[k] == WindSample(time[k], windspeed[k], winddirection[k])
    {
      if i >= |windspeed| || i >= |winddirection| {
        return Failure(MissingHourlyValue);
      }
      hourlyForecast := hourlyForecast + [WindSample(time[i], windspeed[i], winddirection[i])];
      i := i + 1;
    }
    r := Success(hourlyForecast);
  }

}
