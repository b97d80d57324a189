/**
 * Input validation of the add and edit forms: the `every`-based checks
 * `_validInputs` (all finite) and `_allPositiveInputs` (all greater than zero),
 * the kind-dependent rule that combines them, and the workout an accepted form
 * builds.
 */
module Validation {
  import opened Workouts

  /** A JavaScript number as produced by unary `+` on an input's text. */
  datatype Num = Finite(value: real) | NaN | Infinity(negative: bool)

  /** `inp > 0`: NaN compares false, +Infinity is greater than zero. */
  predicate IsPositive(n: Num) {
    match n
    case Finite(v) => v > 0.0
    case NaN => false
    case Infinity(negative) => !negative
  }

  /** `_validInputs(...inputs)`: `inputs.every(Number.isFinite)`. */
  function AllFinite(inputs: seq<Num>): (ok: bool)
    ensures ok <==> forall i :: 0 <= i < |inputs| ==> inputs[i].Finite?
  {
    if inputs == [] then true else inputs[0].Finite? && AllFinite(inputs[1..])
  }

  /** `_allPositiveInputs(...inputs)`: `inputs.every(inp => inp > 0)`. */
  function AllPositive(inputs: seq<Num>): (ok: bool)
    ensures ok <==> forall i :: 0 <= i < |inputs| ==> IsPositive(inputs[i])
  {
    if inputs == [] then true else IsPositive(inputs[0]) && AllPositive(inputs[1..])
  }

  /** The values read from a workout form: the type select and the four number inputs. */
  datatype FormInput = FormInput(kind: WorkoutType, distance: Num, duration: Num, cadence: Num, elevation: Num)

  /**
   * The guard of the add and edit paths: running checks distance, duration and
   * cadence for finiteness and positivity; cycling checks distance, duration and
   * elevation for finiteness but only distance and duration for positivity.
   */
  predicate Accepts(form: FormInput)
    ensures Accepts(form) ==> form.distance.Finite? && form.duration.Finite?
    ensures Accepts(form) && form.kind == Running ==> form.cadence.Finite?
    ensures Accepts(form) && form.kind == Cycling ==> form.elevation.Finite?
  {
    match form.kind
    case Running =>
      var inputs := [form.distance, form.duration, form.cadence];
      assert inputs[0] == form.distance && inputs[1] == form.duration && inputs[2] == form.cadence;
      AllFinite(inputs) && AllPositive(inputs)
    case Cycling =>
      var inputs := [form.distance, form.duration, form.elevation];
      assert inputs[0] == form.distance && inputs[1] == form.duration && inputs[2] == form.elevation;
      AllFinite(inputs) && AllPositive([form.distance, form.duration])
  }

  /** A running form is accepted exactly when its three numbers are finite and positive. */
  lemma RunningRule(form: FormInput)
    requires form.kind == Running
    ensures Accepts(form) <==>
      && form.distance.Finite? && form.distance.value > 0.0
      && form.duration.Finite? && form.duration.value > 0.0
      && form.cadence.Finite? && form.cadence.value > 0.0
  {
    var xs := [form.distance, form.duration, form.cadence];
    assert xs[0] == form.distance && xs[1] == form.duration && xs[2] == form.cadence;
  }

  /**
   * A cycling form is accepted exactly when its three numbers are finite and
   * distance and duration are positive; the cadence field is never read.
   */
  lemma CyclingRule(form: FormInput)
    requires form.kind == Cycling
    ensures Accepts(form) <==>
      && form.distance.Finite? && form.distance.value > 0.0
      && form.duration.Finite? && form.duration.value > 0.0
      && form.elevation.Finite?
  {
    var xs := [form.distance, form.duration, form.elevation];
    assert xs[0] == form.distance && xs[1] == form.duration && xs[2] == form.elevation;
    var ys := [form.distance, form.duration];
    assert ys[0] == form.distance && ys[1] == form.duration;
  }

  /** A zero or negative elevation gain does not stop a cycling form. */
  lemma ElevationSignIgnored(form: FormInput, elevation: real)
    requires form.kind == Cycling && Accepts(form)
    ensures Accepts(form.(elevation := Finite(elevation)))
  {
    CyclingRule(form);
    CyclingRule(form.(elevation := Finite(elevation)));
  }

  /** The workout an accepted form builds at `coords` and instant `now`. */
  function FromForm(form: FormInput, coords: Coords, now: Instant): (w: Workout)
    requires Accepts(form) && now.month < 12
    ensures WellFormed(w) && w.Type() == form.kind
    ensures w.coords == coords && w.date == now && w.id == IdFromClock(now.millis) && w.created == now.millis && w.clicks == 0
    ensures w.distance == form.distance.value && w.duration == form.duration.value
    ensures w.Type() == Running ==> w.detail.cadence == form.cadence.value && w.detail.cadence > 0.0
    ensures w.Type() == Cycling ==> w.detail.elevationGain == form.elevation.value
  {
    match form.kind
    case Running =>
      RunningRule(form);
      NewRunning(coords, form.distance.value, form.duration.value, form.cadence.value, now)
    case Cycling =>
      CyclingRule(form);
      NewCycling(coords, form.distance.value, form.duration.value, form.elevation.value, now)
  }
}
