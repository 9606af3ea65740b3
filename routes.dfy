/** Routes and the baseline comparison report (backend/src/core/application/route.service.ts). */
module Routes {
  import opened Wrappers

  /** The 2025 target intensity in gCO2e/MJ. */
  const TargetIntensity2025: real := 89.3368

  /** One voyage record: intensity in gCO2e/MJ, fuel in tonnes, distance in km. */
  datatype Route = Route(
    id: string,
    routeId: string,
    vesselType: string,
    fuelType: string,
    year: int,
    ghgIntensity: real,
    fuelConsumption: real,
    distance: real,
    totalEmissions: real,
    isBaseline: bool)

  /** A percentage as the service computes it. The service divides by the
      baseline's intensity as a floating-point number, so a zero baseline
      intensity yields a non-finite value rather than an error. */
  datatype Percent = Finite(value: real) | NotFinite

  datatype RouteComparison = RouteComparison(route: Route, percentDiff: Percent, isCompliant: bool)

  datatype RouteError = NoBaseline

  function Message(e: RouteError): string
  {
    match e
    case NoBaseline => "No baseline route set"
  }

  /** How much higher (positive) or lower (negative) `intensity` is than
      `baselineIntensity`, in percent of the baseline. */
  function PercentDiff(intensity: real, baselineIntensity: real): (p: Percent)
    ensures p.NotFinite? <==> baselineIntensity == 0.0
    ensures p.Finite? ==> p.value * baselineIntensity == (intensity - baselineIntensity) * 100.0
  {
    if baselineIntensity == 0.0 then NotFinite
    else
      var q := intensity / baselineIntensity;
      assert q * baselineIntensity == intensity;
      Finite((q - 1.0) * 100.0)
  }

  /** A route complies when its intensity does not exceed the target. */
  predicate IsCompliant(route: Route)
  {
    route.ghgIntensity <= TargetIntensity2025
  }

  function Compare(baseline: Route, route: Route): RouteComparison
  {
    RouteComparison(route, PercentDiff(route.ghgIntensity, baseline.ghgIntensity), IsCompliant(route))
  }

  /** The comparison report: `baseline` is what the route store reports as the
      baseline route (if any), `routes` all stored routes in store order. */
  function GetComparison(baseline: Option<Route>, routes: seq<Route>): (r: Result<seq<RouteComparison>, RouteError>)
    ensures r.Failure? <==> baseline.None?
    ensures r.Failure? ==> r.error == NoBaseline
    ensures r.Success? ==> |r.value| == |routes|
    ensures r.Success? ==> forall k :: 0 <= k < |routes| ==>
      && r.value[k].route == routes[k]
      && r.value[k].percentDiff == PercentDiff(routes[k].ghgIntensity, baseline.value.ghgIntensity)
      && (r.value[k].isCompliant <==> routes[k].ghgIntensity <= TargetIntensity2025)
  {
    if baseline.None? then Failure(NoBaseline)
    else Success(seq(|routes|, k requires 0 <= k < |routes| => Compare(baseline.value, routes[k])))
  }

  /** A route at the baseline's intensity (in particular the baseline itself)
      differs from it by exactly zero percent, unless that intensity is zero. */
  lemma BaselineDiffIsZero(baseline: Route, routes: seq<Route>, k: nat)
    requires k < |routes| && routes[k].ghgIntensity == baseline.ghgIntensity
    ensures var r := GetComparison(Some(baseline), routes);
      r.Success? && (r.value[k].percentDiff == if baseline.ghgIntensity == 0.0 then NotFinite else Finite(0.0))
  {
    var p := PercentDiff(routes[k].ghgIntensity, baseline.ghgIntensity);
    if baseline.ghgIntensity != 0.0 {
      assert p.value * baseline.ghgIntensity == 0.0;
    }
  }

  /** The sign of the percentage says whether the route is dirtier than the
      baseline (for a baseline with positive intensity). */
  lemma PercentDiffSign(intensity: real, baselineIntensity: real)
    requires baselineIntensity > 0.0
    ensures PercentDiff(intensity, baselineIntensity).Finite?
    ensures PercentDiff(intensity, baselineIntensity).value > 0.0 <==> intensity > baselineIntensity
    ensures PercentDiff(intensity, baselineIntensity).value == 0.0 <==> intensity == baselineIntensity
  {
    var p := PercentDiff(intensity, baselineIntensity).value;
    assert p * baselineIntensity == (intensity - baselineIntensity) * 100.0;
    if p > 0.0 {
      assert p * baselineIntensity > 0.0;
    } else if p < 0.0 {
      assert p * baselineIntensity < 0.0;
    }
  }

  /** The compliance flag does not depend on which route is the baseline. */
  lemma ComplianceIndependentOfBaseline(b1: Route, b2: Route, routes: seq<Route>, k: nat)
    requires k < |routes|
    ensures GetComparison(Some(b1), routes).value[k].isCompliant == GetComparison(Some(b2), routes).value[k].isCompliant
  {
  }
}
