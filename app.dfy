/**
 * The `App` object: the private `#workouts` list it changes in place, the edit
 * session kept in the module-level `formEdit`, whether the map has loaded,
 * and the two outside things it writes: the error banner and the
 * `localStorage` slot 'workouts'.
 */
module MaptyApp {
  import opened Wrappers
  import opened Workouts
  import opened Validation
  import opened Store
  import opened Sorting
  import opened Editing
  import opened Banner

  const INPUTS_MESSAGE := "Inputs have to be positive numbers!"
  const EDITED_MESSAGE := "Workout is currently edited"

  /** The storage slot 'workouts': a saved list, or nothing. */
  class Slot {
    var content: Option<seq<Workout>>

    constructor (content: Option<seq<Workout>>)
      ensures this.content == content
    {
      this.content := content;
    }
  }

  /** `formEdit`: no edit form, or one form bound to the workout it edits. */
  datatype EditSession = Closed | Open(target: Workout)

  class App {
    var workouts: seq<Workout>
    var session: EditSession
    var mapReady: bool
    const banner: ErrorBanner
    const slot: Slot

    /**
     * An open edit form is bound to the workout that `find` returns for its id,
     * so `indexOf` on it finds the very entry the form was opened on.
     */
    ghost predicate Valid()
      reads this
    {
      session.Open? ==> Find(workouts, session.target.id) == Some(session.target)
    }

    /** The constructor with `_getLocalStorage`: adopt the saved list when there is one. */
    constructor (slot: Slot, banner: ErrorBanner)
      ensures Valid() && session == Closed && !mapReady
      ensures this.slot == slot && this.banner == banner
      ensures slot.content.None? ==> workouts == []
      ensures slot.content.Some? ==> workouts == slot.content.value
    {
      this.slot := slot;
      this.banner := banner;
      workouts := [];
      session := Closed;
      mapReady := false;
      if slot.content.Some? {
        workouts := slot.content.value;
      }
    }

    /** The part of `_loadMap` the handlers depend on: `#map` is now set. */
    method LoadMap()
      modifies this`mapReady
      ensures mapReady
    {
      mapReady := true;
    }

    /** `_setLocalStorage`: the whole list overwrites the slot. */
    method SaveToStorage()
      modifies slot
      ensures slot.content == Some(workouts)
    {
      slot.content := Some(workouts);
    }

    /** `_addWorkout`: validate the form, build the workout, push it, save. */
    method AddWorkout(form: FormInput, coords: Coords, now: Instant)
      requires Valid() && now.month < 12
      modifies this`workouts, slot, banner
      ensures Valid()
      ensures Accepts(form) ==>
        && workouts == old(workouts) + [FromForm(form, coords, now)]
        && slot.content == Some(workouts)
        && banner.State() == old(banner.State())
      ensures !Accepts(form) ==>
        && workouts == old(workouts)
        && slot.content == old(slot.content)
        && banner.State() == Toggled(old(banner.State()), INPUTS_MESSAGE)
    {
      var workout: Workout;
      match form.kind {
        case Running =>
          if !AllFinite([form.distance, form.duration, form.cadence])
             || !AllPositive([form.distance, form.duration, form.cadence])
          {
            banner.Toggle(INPUTS_MESSAGE);
            return;
          }
          RunningRule(form);
          workout := NewRunning(coords, form.distance.value, form.duration.value, form.cadence.value, now);
        case Cycling =>
          if !AllFinite([form.distance, form.duration, form.elevation])
             || !AllPositive([form.distance, form.duration])
          {
            banner.Toggle(INPUTS_MESSAGE);
            return;
          }
          CyclingRule(form);
          workout := NewCycling(coords, form.distance.value, form.duration.value, form.elevation.value, now);
      }
      if session.Open? {
        FindAfterAppend(workouts, workout, session.target.id);
      }
      workouts := workouts + [workout];
      SaveToStorage();
    }

    /** `_hideEditForm`: the edit form is gone. */
    method HideEditForm()
      modifies this`session
      ensures session == Closed
    {
      session := Closed;
    }

    /**
     * `_showEditForm` for the edit button of the list item with `id`: a second
     * click while a form is open only closes it; otherwise the form opens on
     * the workout `find` returns (when there is none, `workout.type` throws
     * and nothing changes).
     */
    method ShowEditForm(id: Id)
      requires Valid()
      modifies this`session
      ensures Valid()
      ensures !mapReady ==> session == old(session)
      ensures mapReady && old(session).Open? ==> session == Closed
      ensures mapReady && old(session) == Closed ==>
        session == match Find(workouts, id) case None => Closed case Some(w) => Open(w)
    {
      if !mapReady {
        return;
      }
      if session.Open? {
        HideEditForm();
        return;
      }
      var found := Find(workouts, id);
      if found.None? {
        return;
      }
      session := Open(found.value);
    }

    /**
     * `_editForm`: submitting the open edit form. An accepted form replaces the
     * edited workout at its index with a new workout of the chosen type carrying
     * the old id and coords, closes the form and saves; a rejected form toggles
     * the banner. The cycling branch is the one the code evidently means (see
     * `Editing.ResubmitIntended`).
     */
    method SubmitEdit(form: FormInput, now: Instant)
      requires Valid() && session.Open? && now.month < 12
      modifies this`workouts, this`session, slot, banner
      ensures Valid()
      ensures !Accepts(form) ==>
        && workouts == old(workouts) && session == old(session)
        && slot.content == old(slot.content)
        && banner.State() == Toggled(old(banner.State()), INPUTS_MESSAGE)
      ensures Accepts(form) ==>
        var i := IndexOf(old(workouts), old(session).target);
        && 0 <= i < |old(workouts)|
        && (forall j :: 0 <= j < i ==> old(workouts)[j].id != old(session).target.id)
        && ResubmitIntended(old(session).target, form, now).Replaced?
        && workouts == old(workouts)[i := ResubmitIntended(old(session).target, form, now).workout]
        && workouts[i].id == old(workouts)[i].id && workouts[i].coords == old(workouts)[i].coords
        && workouts[i].Type() == form.kind
        && session == Closed && slot.content == Some(workouts)
        && banner.State() == old(banner.State())
    {
      var target := session.target;
      var index := IndexOf(workouts, target);
      IndexOfFound(workouts, target.id);
      match ResubmitIntended(target, form, now) {
        case Rejected =>
          banner.Toggle(INPUTS_MESSAGE);
        case Threw =>
          assert false;
        case Replaced(workout) =>
          workouts := workouts[index := workout];
          HideEditForm();
          SaveToStorage();
      }
    }

    /**
     * `_deleteWorkout` for the delete button of the list item with `id`:
     * refused while an edit form is open; otherwise `splice` at
     * `indexOf(find(...))` and save.
     */
    method DeleteWorkout(id: Id)
      requires Valid()
      modifies this`workouts, slot, banner
      ensures Valid()
      ensures !mapReady ==>
        workouts == old(workouts) && slot.content == old(slot.content) && banner.State() == old(banner.State())
      ensures mapReady && session.Open? ==>
        && workouts == old(workouts) && slot.content == old(slot.content)
        && banner.State() == Toggled(old(banner.State()), EDITED_MESSAGE)
      ensures mapReady && session == Closed ==>
        && workouts == DeleteById(old(workouts), id)
        && slot.content == Some(workouts)
        && banner.State() == old(banner.State())
    {
      if !mapReady {
        return;
      }
      if session.Open? {
        banner.Toggle(EDITED_MESSAGE);
        return;
      }
      workouts := SpliceOne(workouts, DeletePosition(workouts, id));
      SaveToStorage();
    }

    /** `_deleteWorkouts`: refused while an edit form is open; otherwise empty the list and save. */
    method DeleteAll()
      requires Valid()
      modifies this`workouts, slot, banner
      ensures Valid()
      ensures !mapReady ==>
        workouts == old(workouts) && slot.content == old(slot.content) && banner.State() == old(banner.State())
      ensures mapReady && session.Open? ==>
        && workouts == old(workouts) && slot.content == old(slot.content)
        && banner.State() == Toggled(old(banner.State()), EDITED_MESSAGE)
      ensures mapReady && session == Closed ==>
        workouts == [] && slot.content == Some([]) && banner.State() == old(banner.State())
    {
      if !mapReady {
        return;
      }
      if session.Open? {
        banner.Toggle(EDITED_MESSAGE);
        return;
      }
      workouts := [];
      SaveToStorage();
    }

    /**
     * `_sortWorkouts`: the order of the `_renderWorkout` calls that re-render
     * the list. It sorts a copy, so the store keeps its order; the view is a
     * permutation of the store, ordered by the key in the chosen direction,
     * ties in store order. The 'date' key is the whole clock reading each id
     * was cut from, as the code evidently means (see `Sorting.IntendedKey`).
     */
    method SortedView(field: SortField, dir: Direction) returns (view: seq<Workout>)
      ensures multiset(view) == multiset(workouts)
      ensures dir == Asc ==> forall i, j :: 0 <= i < j < |view| ==> IntendedKey(view[i], field) <= IntendedKey(view[j], field)
      ensures dir == Dsc ==> forall i, j :: 0 <= i < j < |view| ==> IntendedKey(view[i], field) >= IntendedKey(view[j], field)
      ensures forall v :: WithRank(view, IntendedRank(field, dir), v) == WithRank(workouts, IntendedRank(field, dir), v)
    {
      var copy := workouts;
      view := IntendedSortView(copy, field, dir);
      IntendedSortViewOrdered(copy, field, dir);
      forall v ensures WithRank(view, IntendedRank(field, dir), v) == WithRank(copy, IntendedRank(field, dir), v) {
        IntendedSortViewKeepsTies(copy, field, dir, v);
      }
    }
  }

  /**
   * A save followed by a page reload: after an accepted add, a new `App` over
   * the same slot starts with exactly the list the old one had.
   */
  method AddThenReload(app: App, form: FormInput, coords: Coords, now: Instant) returns (reloaded: App)
    requires app.Valid() && now.month < 12 && Accepts(form)
    modifies app, app.slot, app.banner
    ensures reloaded.workouts == app.workouts == old(app.workouts) + [FromForm(form, coords, now)]
  {
    app.AddWorkout(form, coords, now);
    var banner := new ErrorBanner();
    reloaded := new App(app.slot, banner);
  }
}
