/**
 * The workout value model: a logged activity (`Workout`) in one of two kinds,
 * `Running` with its pace and `Cycling` with its speed, built once from the
 * form's numbers and the clock, and never recomputed afterwards.
 */
module Workouts {
  import opened Decimal

  /** The `type` field: 'running' or 'cycling'. */
  datatype WorkoutType = Running | Cycling

  function TypeName(t: WorkoutType): string {
    match t
    case Running => "running"
    case Cycling => "cycling"
  }

  /** `[lat, lng]` of the map click. */
  datatype Coords = Coords(lat: real, lng: real)

  /**
   * One reading of the clock: `Date.now()` in milliseconds, and the local
   * calendar month (`getMonth()`, 0 for January) and day (`getDate()`).
   */
  datatype Instant = Instant(millis: nat, month: nat, day: nat)

  /** Identifiers are decimal digit strings, as cut from `Date.now()`. */
  type Id = s: string | AllDigits(s)

  /** The kind-specific fields: cadence and pace, or elevation gain and speed. */
  datatype Detail =
    | RunningDetail(cadence: real, pace: real)
    | CyclingDetail(elevationGain: real, speed: real)

  /**
   * A workout record. `created` is the whole `Date.now()` reading that `id` was
   * cut from: the record itself keeps only the id, and the model keeps the
   * reading beside it so that creation order can be stated. An edit carries
   * both over from the workout it replaces.
   */
  datatype Workout = Workout(
    date: Instant,
    id: Id,
    created: nat,
    clicks: nat,
    coords: Coords,
    distance: real,     // km
    duration: real,     // min
    description: string,
    detail: Detail)
  {
    function Type(): WorkoutType {
      if detail.RunningDetail? then Running else Cycling
    }
  }

  const MONTHS: seq<string> := [
    "January", "February", "March", "April", "May", "June", "July",
    "August", "September", "October", "November", "December"]

  function UpperCase(c: char): char {
    if 'a' <= c <= 'z' then (c as int - 32) as char else c
  }

  /** The first character upper-cased, the rest unchanged. */
  function Capitalized(s: string): string {
    if s == [] then s else [UpperCase(s[0])] + s[1..]
  }

  /** The label of a workout: for example "Running on April 14". */
  function Description(t: WorkoutType, date: Instant): string
    requires date.month < 12
  {
    Capitalized(TypeName(t)) + " on " + MONTHS[date.month] + " " + DecimalString(date.day)
  }

  /** The identifier of a new workout: the last ten digits of `Date.now()`. */
  function IdFromClock(millis: nat): (id: Id)
    ensures |id| <= 10
    ensures DigitsValue(id) == millis % Pow10(10)
  {
    LastDigitsValue(millis, 10);
    Suffix(DecimalString(millis), 10)
  }

  /** `Number(id)`, the value the 'date' sort compares. */
  function IdNumber(id: Id): nat {
    DigitsValue(id)
  }

  /** The record invariant that the add and edit paths establish. */
  predicate WellFormed(w: Workout) {
    && w.distance > 0.0
    && w.duration > 0.0
    && match w.detail
       case RunningDetail(cadence, pace) => pace == w.duration / w.distance
       case CyclingDetail(_, speed) => speed == w.distance / (w.duration / 60.0)
  }

  /** A quotient times its divisor gives back the dividend, and two positives give a positive quotient. */
  lemma QuotientFacts(a: real, b: real)
    requires b != 0.0
    ensures (a / b) * b == a
    ensures a > 0.0 && b > 0.0 ==> a / b > 0.0
  {
  }

  /** `new Running(coords, distance, duration, cadence)` at the instant `now`. */
  function NewRunning(coords: Coords, distance: real, duration: real, cadence: real, now: Instant): (w: Workout)
    requires distance != 0.0 && now.month < 12
    ensures w.Type() == Running && w.detail.cadence == cadence
    ensures w.coords == coords && w.distance == distance && w.duration == duration
    ensures w.detail.pace * distance == duration
    ensures distance > 0.0 && duration > 0.0 ==> w.detail.pace > 0.0 && WellFormed(w)
    ensures w.clicks == 0 && w.date == now && w.id == IdFromClock(now.millis) && w.created == now.millis
    ensures w.description == Description(Running, now)
  {
    QuotientFacts(duration, distance);
    Workout(now, IdFromClock(now.millis), now.millis, 0, coords, distance, duration,
            Description(Running, now), RunningDetail(cadence, duration / distance))
  }

  /** `new Cycling(coords, distance, duration, elevationGain)` at the instant `now`. */
  function NewCycling(coords: Coords, distance: real, duration: real, elevationGain: real, now: Instant): (w: Workout)
    requires duration != 0.0 && now.month < 12
    ensures w.Type() == Cycling && w.detail.elevationGain == elevationGain
    ensures w.coords == coords && w.distance == distance && w.duration == duration
    ensures w.detail.speed * duration == 60.0 * distance
    ensures distance > 0.0 && duration > 0.0 ==> w.detail.speed > 0.0 && WellFormed(w)
    ensures w.clicks == 0 && w.date == now && w.id == IdFromClock(now.millis) && w.created == now.millis
    ensures w.description == Description(Cycling, now)
  {
    QuotientFacts(duration, 60.0);
    QuotientFacts(distance, duration / 60.0);
    Workout(now, IdFromClock(now.millis), now.millis, 0, coords, distance, duration,
            Description(Cycling, now), CyclingDetail(elevationGain, distance / (duration / 60.0)))
  }

  /** `click()`: one more click, nothing else changes. */
  function Clicked(w: Workout): (r: Workout)
    ensures r.clicks == w.clicks + 1
    ensures r.(clicks := w.clicks) == w
  {
    w.(clicks := w.clicks + 1)
  }

  lemma MonthNamesHaveNoSpace(m: nat)
    requires m < 12
    ensures forall i :: 0 <= i < |MONTHS[m]| ==> MONTHS[m][i] != ' '
  {
  }

  lemma MonthNamesDistinct(m1: nat, m2: nat)
    requires m1 < 12 && m2 < 12 && MONTHS[m1] == MONTHS[m2]
    ensures m1 == m2
  {
  }

  /** The index of the first space in `s`, or `|s|` when there is none. */
  function FirstSpace(s: string): (i: nat)
    ensures i <= |s|
  {
    if s == [] || s[0] == ' ' then 0 else 1 + FirstSpace(s[1..])
  }

  lemma {:induction false} FirstSpaceAfterWord(a: string, b: string)
    requires forall i :: 0 <= i < |a| ==> a[i] != ' '
    ensures FirstSpace(a + " " + b) == |a|
  {
    if a != [] {
      assert (a + " " + b)[1..] == a[1..] + " " + b;
      FirstSpaceAfterWord(a[1..], b);
    }
  }

  /** A word without spaces, a space and a tail split only one way. */
  lemma SplitAtSpace(a1: string, b1: string, a2: string, b2: string)
    requires forall i :: 0 <= i < |a1| ==> a1[i] != ' '
    requires forall i :: 0 <= i < |a2| ==> a2[i] != ' '
    requires a1 + " " + b1 == a2 + " " + b2
    ensures a1 == a2 && b1 == b2
  {
    var s := a1 + " " + b1;
    FirstSpaceAfterWord(a1, b1);
    FirstSpaceAfterWord(a2, b2);
    assert a1 == s[..|a1|];
    assert a2 == (a2 + " " + b2)[..|a2|];
    assert b1 == s[|a1| + 1..];
    assert b2 == (a2 + " " + b2)[|a2| + 1..];
  }

  /** A description is a capitalised type name of seven letters, " on ", and the date. */
  lemma DescriptionShape(t: WorkoutType, d: Instant)
    requires d.month < 12
    ensures Description(t, d)[0] == (if t == Running then 'R' else 'C')
    ensures Description(t, d)[11..] == MONTHS[d.month] + " " + DecimalString(d.day)
  {
    var c := Capitalized(TypeName(t));
    assert c == (if t == Running then "Running" else "Cycling");
    var rest := MONTHS[d.month] + " " + DecimalString(d.day);
    assert Description(t, d) == (c + " on ") + rest;
  }

  /** A description names its workout's type, month and day unambiguously. */
  lemma DescriptionDeterminesTypeAndDate(t1: WorkoutType, d1: Instant, t2: WorkoutType, d2: Instant)
    requires d1.month < 12 && d2.month < 12
    requires Description(t1, d1) == Description(t2, d2)
    ensures t1 == t2 && d1.month == d2.month && d1.day == d2.day
  {
    DescriptionShape(t1, d1);
    DescriptionShape(t2, d2);
    MonthNamesHaveNoSpace(d1.month);
    MonthNamesHaveNoSpace(d2.month);
    SplitAtSpace(MONTHS[d1.month], DecimalString(d1.day), MONTHS[d2.month], DecimalString(d2.day));
    MonthNamesDistinct(d1.month, d2.month);
    DecimalStringInjective(d1.day, d2.day);
  }

  /** Within window `k` of 10^10 ms, an id as a number is the clock reading less `k * 10^10`. */
  lemma IdNumberInWindow(t: nat, k: nat)
    requires t / Pow10(10) == k
    ensures IdNumber(IdFromClock(t)) == t - k * Pow10(10)
  {
    DivModFacts(t, Pow10(10));
  }

  /** Numeric ids follow the clock within one window of 10^10 milliseconds. */
  lemma IdNumberFollowsClock(t1: nat, t2: nat)
    requires t1 <= t2 && t1 / Pow10(10) == t2 / Pow10(10)
    ensures IdNumber(IdFromClock(t1)) <= IdNumber(IdFromClock(t2))
  {
    var p := Pow10(10);
    DivModFacts(t1, p);
    DivModFacts(t2, p);
  }
}
