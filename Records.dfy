/** The tabular records shared by the simulator and the forecasting engine of the
    epidemiological dashboard: diseases, clinics, one weekly history row, and the
    integer conversions the dashboard applies to floating-point values. */
module Records {

  /** The closed set of simulated diseases. */
  datatype Disease = Dengue | Chikungunya | Influenza

  /** The diseases in the order the simulator visits them. */
  const Diseases: seq<Disease> := [Dengue, Chikungunya, Influenza]

  /** Number of weekly dates in the simulated horizon. */
  const Weeks: nat := 52

  /** A clinic of the registry: its name (the registry's key), coordinates and the
      risk factor drawn for it once. */
  datatype Clinic = Clinic(name: string, lat: real, lon: real, riskFactor: real)

  /** One row of the historical table. `week` is the index of the weekly date
      (0 is the first date); the date itself is 2024-01-07 plus `week` weeks. */
  datatype Row = Row(
    week: nat,
    clinic: string,
    disease: Disease,
    cases: int,
    temperature: real,
    precipitation: real,
    density: int,
    previousCases: int,
    lat: real,
    lon: real)

  /** Python's `int(x)` on a float: truncation toward zero. */
  function Trunc(x: real): (r: int)
    ensures 0.0 <= x ==> 0 <= r && r as real <= x < r as real + 1.0
    ensures x < 0.0 ==> r <= 0 && r as real - 1.0 < x <= r as real
  {
    if x >= 0.0 then x.Floor else -((-x).Floor)
  }

  /** `max(0, int(x))`: truncate toward zero, then clamp at zero. */
  function ClampTrunc(x: real): (r: int)
    ensures 0 <= r
    ensures 0.0 <= x ==> r as real <= x < r as real + 1.0
    ensures x < 1.0 ==> r == 0
  {
    var t := Trunc(x);
    if t < 0 then 0 else t
  }

  /** Clamping after truncation is the same as clamping after flooring, so either
      reading of `max(0, int(x))` gives the same case count. */
  lemma ClampTruncIsClampFloor(x: real)
    ensures ClampTrunc(x) == if x.Floor < 0 then 0 else x.Floor
  {
    if x < 0.0 {
      assert Trunc(x) <= 0;
      assert x.Floor < 0;
    }
  }

  /** Python's `max(0, x)` on a float. */
  function Max0(x: real): (r: real)
    ensures 0.0 <= r && x <= r
    ensures r == x || r == 0.0
  {
    if x < 0.0 then 0.0 else x
  }
}
