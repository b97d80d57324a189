# Mapty workout tracker — Dafny model

This project models the core of Mapty, a browser app for logging workouts.
Each workout is pinned where the user clicked on a map.
The modelled core is the logic of `script.js`:

- the workout records (`Workout`, `Running`, `Cycling`): the id taken from the clock, the description, pace and speed, and `click`;
- the input checks of the add and edit forms (`_validInputs`, `_allPositiveInputs` and the rule that depends on the workout type);
- the `App` object and its private list of workouts: add, edit in place, delete by id, delete all, the sort view over a copy, and saving to and loading from the `localStorage` slot `workouts`;
- the edit session (the single `formEdit` form), during which delete and delete-all are refused;
- the error banner that `_toggleError` flips.

The modules are:

- **Decimal**: digit strings and `slice(-10)`. Its main result is that the number an id denotes is the clock modulo 10^10.
- **Workouts**: the workout record, its constructors and the description format.
- **Validation**: JavaScript numbers as unary `+` produces them (finite, NaN, ±Infinity) and the acceptance rule.
- **Store**: `find`, `indexOf` and `splice` on the list, and delete by id.
- **Sorting**: the stable sort that produces the sort view.
- **Editing**: the edit form's prefill and its submit.
- **Banner**: the error banner.
- **MaptyApp**: the `App` class, which changes its list, session, banner and storage slot in place.

The three defects listed under "## Findings" are each modelled twice. One member reproduces the code as written, and a lemma exhibits the defect. A second member gives the evidently intended behaviour, with its property proved. The `App` uses the intended versions: its edit submit stores cycling edits, and its 'date' sort compares the whole clock reading each id was cut from. A workout record carries that reading as `created`. The source keeps only the id; the model keeps the reading beside it, and an edit carries both over from the workout it replaces. The edit form's prefill is not part of `App`; the form's values arrive as a parameter.

Where the design description and the code differ, the model follows the code:

- The edit path checks that the cadence is positive for running workouts and never reads it for cycling workouts, exactly like the add path.
- Deleting all workouts stores an empty list in the slot. It does not remove the slot.
- A delete whose id matches nothing removes the last workout, because `indexOf(undefined)` is -1 and `splice(-1, 1)` removes the last element.

## Model

| member | source | states |
|---|---|---|
| Decimal.LastDigitsValue | script.js:5 | The number written by the last k digits of the decimal form of n is n mod 10^k. |
| Workouts.IdFromClock | script.js:5 | A new id has at most ten digits, and as a number it is the clock reading mod 10^10. |
| Workouts.IdNumberFollowsClock | script.js:5 | Within one window of 10^10 ms, ids taken later are not smaller as numbers. |
| Workouts.DescriptionDeterminesTypeAndDate | script.js:16-22 | Two equal descriptions name the same type, month and day ("Running on April 14" parses one way only). |
| Workouts.Clicked | script.js:25-27 | `click` adds one to the click count and leaves every other field unchanged. |
| Workouts.NewRunning | script.js:30-45 | A running workout keeps its inputs and gets the current date, an id from the clock and zero clicks; pace times distance is duration; with positive inputs the pace is positive and the record is well formed. |
| Workouts.NewCycling | script.js:47-63 | A cycling workout keeps its inputs and gets the current date, an id from the clock and zero clicks; speed times duration is 60 times distance; with positive inputs the speed is positive and the record is well formed. |
| Validation.AllFinite | script.js:199-201 | True exactly when every input is a finite number (NaN and both infinities fail). |
| Validation.AllPositive | script.js:203-205 | True exactly when every input is greater than zero (NaN fails, +Infinity passes). |
| Validation.RunningRule | script.js:218-228 | A running form is accepted exactly when distance, duration and cadence are all finite and positive. |
| Validation.CyclingRule | script.js:234-241 | A cycling form is accepted exactly when distance, duration and elevation are finite and distance and duration are positive. |
| Validation.ElevationSignIgnored | script.js:237-241 | An accepted cycling form stays accepted whatever finite elevation it carries, zero and negative included. |
| Validation.FromForm | script.js:207-244 | The workout an accepted form builds is well formed, has the form's type and numbers and the clicked coords, and a running workout's cadence is positive. |
| Store.Find | script.js:565-567 | `find` returns nothing exactly when no workout has the id; otherwise it returns the first listed workout with that id. |
| Store.IndexOf | script.js:570 | `indexOf` is -1 exactly when the element is absent; otherwise it is the first position holding it. |
| Store.DeletePositionIsFirstMatch | script.js:565-570 | When some workout has the id, `indexOf(find(...))` is the position of the first workout with that id. |
| Store.DeleteRemovesFirstMatch | script.js:565-573 | When some workout has the id, delete removes exactly the first such workout, keeps the rest in order, and the list shrinks by one. |
| Store.DeleteLeavesNoMatch | script.js:565-573 | With unique ids, no workout with the deleted id remains. |
| Store.DeleteMissingDropsLast | script.js:565-573 | When no workout has the id, delete removes the last workout (nothing when the list is empty). |
| Sorting.SortBy | script.js:608-618 | The sorted copy is a permutation of the list and is ordered by rank. |
| Sorting.SortByStable | script.js:608-618 | The sort is stable: the elements of any one rank keep their relative order. |
| Sorting.SortViewOrdered | script.js:596-619 | The sort view is a permutation of the list, non-decreasing in the chosen key for 'asc' and non-increasing for 'dsc'. |
| Sorting.SortViewKeepsTies | script.js:600-618 | Workouts with equal keys appear in the view in their list order. |
| Sorting.DateViewInvertsCreationOrder | script.js:5 | As written, the 'date' sort puts a workout created at 10^10 ms before one created a millisecond earlier. |
| Sorting.IntendedSortViewOrdered | script.js:596-619 | The intended view is a permutation of the list, ordered by the chosen key in the chosen direction. For 'date' the key is the full clock reading the id was cut from, which edits keep, so the view is in creation order (reversed for 'dsc'). |
| Sorting.IntendedSortViewKeepsTies | script.js:600-618 | In the intended view, workouts with equal keys appear in their list order. |
| Sorting.IntendedAgreesOffDate | script.js:612-618 | For 'distance' and 'duration' the intended view is exactly the written one. |
| Sorting.IntendedDateViewKeepsPairOrder | script.js:607-611 | In the intended 'date' view, a workout created earlier comes before one created later, including the pair the written sort inverts. |
| Sorting.DateViewInWindowIsChronological | script.js:607-611 | While every creation time lies in one window of 10^10 ms, the written 'date' view equals the creation-order view, for both directions. |
| Workouts.IdNumberInWindow | script.js:5 | Within window k of 10^10 ms, an id as a number is the clock reading minus k times 10^10. |
| Editing.Resubmit | script.js:490-532 | As written, a submit is rejected exactly when validation fails, and throws exactly when an accepted form is cycling. Otherwise it yields a well-formed running workout with the edited workout's id and coords and the form's numbers. |
| Editing.ResubmitIntended | script.js:521-532 | The intended submit never throws and is rejected exactly when validation fails. An accepted form of either type yields a workout of that type with the edited id and coords. |
| Editing.CyclingEditNeverStores | script.js:521-532 | As written, a cycling edit never replaces anything: it is rejected, or it throws once accepted. |
| Editing.IntendedEditReplaces | script.js:521-538 | The intended submit stores every accepted form, and it agrees with the written submit wherever the written one does not throw. |
| Editing.Prefill | script.js:462-474 | The edit inputs show the workout's type, distance and duration. |
| Editing.PrefillLosesCadence | script.js:462-467 | Submitting a running workout's prefilled form unchanged stores its duration as its cadence, so a cadence that differs from the duration is lost. |
| Editing.PrefillIntended | script.js:462-474 | The intended prefill shows the workout's type, distance and duration. |
| Editing.IntendedPrefillRoundTrip | script.js:462-474 | Submitting the intended prefill unchanged gives back the same id, coords, distance, duration and type-specific fields. |
| Banner.ToggleKeepsConsistent | script.js:182-192 | On a banner that is hidden exactly when empty, a toggle with a message keeps that true: it either shows the message or hides an empty banner. |
| Banner.ToggleTwiceRestores | script.js:182-192 | From an empty banner, one toggle shows the first message, and a second toggle restores the empty banner whatever its message. |
| Banner.ErrorBanner.Toggle | script.js:182-192 | The text becomes the message if it was empty and empty otherwise; `hidden` flips. |
| MaptyApp.App.constructor | script.js:632-642 | The app starts with no edit form and no map, with the saved list when the slot holds one and an empty list otherwise. |
| MaptyApp.App.LoadMap | script.js:132-139 | After the map has loaded, the handlers that need it are active. |
| MaptyApp.App.SaveToStorage | script.js:628-630 | The slot holds exactly the current list. |
| MaptyApp.App.AddWorkout | script.js:207-260 | An accepted form appends the workout it builds and saves the list. A rejected form leaves the list and slot as they were and toggles the banner. An open edit form stays bound to its workout. |
| MaptyApp.App.HideEditForm | script.js:375-385 | No edit form is open afterwards. |
| MaptyApp.App.ShowEditForm | script.js:387-459 | Before the map loads nothing happens. A click while a form is open only closes it. Otherwise the form opens on the workout `find` returns, and nothing opens when no workout has the id. |
| MaptyApp.App.SubmitEdit | script.js:490-551 | A rejected form toggles the banner and changes nothing else. An accepted form replaces the first workout with the edited id, at its index, by a workout of the chosen type with the same id and coords. It then closes the form and saves. |
| MaptyApp.App.DeleteWorkout | script.js:553-580 | Nothing happens before the map loads, and the banner toggles while an edit form is open. Otherwise the list becomes delete-by-id of the old list and is saved. |
| MaptyApp.App.DeleteAll | script.js:582-594 | Nothing happens before the map loads, and the banner toggles while an edit form is open. Otherwise the list is emptied and the empty list is saved. |
| MaptyApp.App.SortedView | script.js:596-626 | The order of the `_renderWorkout` calls is a permutation of the list, ordered by the key in the chosen direction, with ties in list order. The 'date' key is the full clock reading each id was cut from. The list itself is unchanged. |
| MaptyApp.AddThenReload | script.js:628-642 | After an accepted add, a reloaded app over the same slot starts with exactly the list the first app holds, the old list plus the new workout. |

## Left out

- Leaflet (map, markers, popups, `setView`), geolocation, and all DOM rendering, including `_renderWorkout`, `_renderWorkoutMarker`, `_moveToPopup` and `_seeAllWorkouts`. They are display only. The map's arrival is the flag `mapReady`, and the clicked position is a `Coords` parameter.
- The on-page order of the list. `_renderWorkout` inserts each item directly after the add form, so the page shows any sequence of renders in reverse: after a sort the page lists the sorted copy last-first, and a newly added workout appears at the top. The model states the order of the render calls.
- `_showForm`, `_hideForm`, `_toggleElevationField` and `_toggleElevationFieldEdit`. They only show, hide and clear form rows. The form's values are a `FormInput` parameter.
- `setTimeout` delays and `reset()` with `location.reload()`. These are timers and page navigation. Reloading is modelled as constructing a new `App` over the same slot.
- JSON encoding. The slot holds the list of records itself. Malformed JSON in the slot, and records that lose their prototype after loading, are not modelled.
- Parsing of input text into numbers. Each input arrives already as a `Num`: finite, NaN or ±Infinity.
- IEEE floating point. Distances, durations, pace and speed are exact reals.
- The clock and the calendar. `Date.now()` and `new Date()` are two reads of the clock; the model uses one `Instant` carrying milliseconds, month and day.
- Object identity. `indexOf(workout)` compares references; the model compares values, and `App.Valid` keeps an open form bound to the workout `find` returns for its id.
- Workouts.NewRunning: requires a non-zero distance, so the division `duration / distance` of the source is not modelled at zero. Every caller validates the inputs first.
- Workouts.NewCycling: requires a non-zero duration, for the same reason.
- Workouts.Description: requires a month index below 12, which `getMonth()` always returns.
- The banner's initial state comes from the page markup, which is not part of this model. `ErrorBanner`'s constructor assumes an empty, hidden banner.
- A type select other than 'running' or 'cycling', and a sort direction other than 'asc' or 'dsc'. The page's selects offer no other values.
- MaptyApp.App.SubmitEdit: follows the corrected edit (`Editing.ResubmitIntended`), which stores an accepted cycling edit. The code as written throws on it, and `Editing.Resubmit` keeps that behaviour.
- MaptyApp.App.SortedView: follows the corrected 'date' key (`Sorting.IntendedKey`, the full clock reading). The code as written compares the ten-digit id, and `Sorting.SortView` keeps that behaviour. `Sorting.DateViewInWindowIsChronological` shows that the two agree while all creation times lie in one window of 10^10 ms.

## Findings

| source | as written | input that shows it | evidently intended | confidence | as-written member | corrected member |
|---|---|---|---|---|---|---|
| script.js:530 | the cycling branch of `_editForm` passes `cadence`, which is not declared in that scope, so strict mode throws a ReferenceError once validation has passed | edit any workout, choose Cycling, enter distance 10, duration 30, elevation 100 | `new Cycling(coords, distance, duration, elevation)`, storing the edited cycling workout | high, not executed | Editing.CyclingEditNeverStores | Editing.IntendedEditReplaces |
| script.js:466 | `_showEditForm` fills the cadence input of a running workout with its duration | a running workout with duration 30 and cadence 170, edited and submitted unchanged, gets cadence 30 | fill the cadence input with `workout.cadence` | high, not executed | Editing.PrefillLosesCadence | Editing.IntendedPrefillRoundTrip |
| script.js:5 | the 'date' sort compares the last ten digits of the creation time, which wrap every 10^10 ms (about 116 days) | workouts created at 9999999999 ms and at 10000000000 ms sort newest first under 'asc' | compare the full clock reading the id was cut from, which an edit carries over with the id | medium, not executed | Sorting.DateViewInvertsCreationOrder | Sorting.IntendedSortViewOrdered |
