/**
 * The data side of the edit form: the values `_showEditForm` puts into its
 * inputs, and the workout `_editForm` builds from what is submitted. Both are
 * modelled as written, next to the versions the code evidently means.
 */
module Editing {
  import opened Workouts
  import opened Validation

  /** What a submit of the edit form does to the store. */
  datatype EditOutcome =
    | Rejected                 // validation failed: the error banner is toggled
    | Threw                    // the handler throws before touching the store
    | Replaced(workout: Workout)  // this workout goes where the edited one was

  /**
   * `_editForm` as written: a new workout built from the form at the edit
   * instant, with the edited workout's coords and id. The cycling branch reads
   * `cadence`, which is not declared in its scope, so under 'use strict' it
   * throws a ReferenceError once validation has passed.
   */
  function Resubmit(target: Workout, form: FormInput, now: Instant): (r: EditOutcome)
    requires now.month < 12
    ensures r.Rejected? <==> !Accepts(form)
    ensures r.Threw? <==> Accepts(form) && form.kind == Cycling
    ensures r.Replaced? ==>
      && r.workout.id == target.id && r.workout.coords == target.coords
      && WellFormed(r.workout) && r.workout.Type() == Running
      && r.workout.distance == form.distance.value && r.workout.duration == form.duration.value
      && r.workout.detail.cadence == form.cadence.value
      && r.workout.created == target.created
      && r.workout.date == now && r.workout.clicks == 0
  {
    if !Accepts(form) then Rejected
    else if form.kind == Running then Replaced(FromForm(form, target.coords, now).(id := target.id, created := target.created))
    else Threw
  }

  /** The edit the cycling branch evidently means: `new Cycling(coords, distance, duration, elevation)`. */
  function ResubmitIntended(target: Workout, form: FormInput, now: Instant): (r: EditOutcome)
    requires now.month < 12
    ensures !r.Threw?
    ensures r.Rejected? <==> !Accepts(form)
    ensures r.Replaced? ==>
      && r.workout.id == target.id && r.workout.coords == target.coords
      && WellFormed(r.workout) && r.workout.Type() == form.kind
      && r.workout.distance == form.distance.value && r.workout.duration == form.duration.value
      && (form.kind == Running ==> r.workout.detail.cadence == form.cadence.value)
      && (form.kind == Cycling ==> r.workout.detail.elevationGain == form.elevation.value)
      && r.workout.created == target.created
  {
    if !Accepts(form) then Rejected
    else Replaced(FromForm(form, target.coords, now).(id := target.id, created := target.created))
  }

  /** As written, no cycling edit ever reaches the store: it is rejected or it throws. */
  lemma CyclingEditNeverStores(target: Workout, form: FormInput, now: Instant)
    requires now.month < 12 && form.kind == Cycling
    ensures !Resubmit(target, form, now).Replaced?
    ensures Accepts(form) ==> Resubmit(target, form, now) == Threw
  {
  }

  /**
   * The intended edit stores every accepted form, cycling included, and agrees
   * with the written one wherever the written one does not throw.
   */
  lemma IntendedEditReplaces(target: Workout, form: FormInput, now: Instant)
    requires now.month < 12 && Accepts(form)
    ensures ResubmitIntended(target, form, now).Replaced?
    ensures !Resubmit(target, form, now).Threw? ==> Resubmit(target, form, now) == ResubmitIntended(target, form, now)
  {
  }

  /**
   * The values `_showEditForm` writes into the edit inputs. The cadence input
   * of a running workout receives its duration; an input left unset reads as
   * `+"" == 0`.
   */
  function Prefill(w: Workout): (form: FormInput)
    ensures form.kind == w.Type()
    ensures form.distance == Finite(w.distance) && form.duration == Finite(w.duration)
  {
    match w.detail
    case RunningDetail(_, _) => FormInput(Running, Finite(w.distance), Finite(w.duration), Finite(w.duration), Finite(0.0))
    case CyclingDetail(elevationGain, _) => FormInput(Cycling, Finite(w.distance), Finite(w.duration), Finite(0.0), Finite(elevationGain))
  }

  /**
   * Submitting the prefilled form of a running workout unchanged stores its
   * duration as its cadence.
   */
  lemma PrefillLosesCadence(w: Workout, now: Instant)
    requires WellFormed(w) && w.Type() == Running && now.month < 12
    ensures Resubmit(w, Prefill(w), now).Replaced?
    ensures Resubmit(w, Prefill(w), now).workout.detail.cadence == w.duration
    ensures w.detail.cadence != w.duration ==>
      Resubmit(w, Prefill(w), now).workout.detail.cadence != w.detail.cadence
  {
    RunningRule(Prefill(w));
  }

  /** The prefill the edit form evidently means: the cadence input shows the cadence. */
  function PrefillIntended(w: Workout): (form: FormInput)
    ensures form.kind == w.Type()
    ensures form.distance == Finite(w.distance) && form.duration == Finite(w.duration)
  {
    match w.detail
    case RunningDetail(cadence, _) => FormInput(Running, Finite(w.distance), Finite(w.duration), Finite(cadence), Finite(0.0))
    case CyclingDetail(elevationGain, _) => FormInput(Cycling, Finite(w.distance), Finite(w.duration), Finite(0.0), Finite(elevationGain))
  }

  /**
   * Submitting the intended prefill unchanged gives back the same workout data:
   * id, coords, distance, duration and the kind-specific fields.
   */
  lemma IntendedPrefillRoundTrip(w: Workout, now: Instant)
    requires WellFormed(w) && now.month < 12
    requires w.Type() == Running ==> w.detail.cadence > 0.0
    ensures ResubmitIntended(w, PrefillIntended(w), now).Replaced?
    ensures var r := ResubmitIntended(w, PrefillIntended(w), now).workout;
      r.id == w.id && r.coords == w.coords && r.distance == w.distance
      && r.duration == w.duration && r.detail == w.detail
  {
    var form := PrefillIntended(w);
    if w.Type() == Running {
      RunningRule(form);
    } else {
      CyclingRule(form);
    }
  }
}
