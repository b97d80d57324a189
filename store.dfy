/**
 * The array operations the app applies to its list of workouts: `find` by id,
 * `indexOf`, and `splice(start, 1)` with JavaScript's treatment of a negative
 * start, combined into the delete step of `_deleteWorkout`.
 */
module Store {
  import opened Wrappers
  import opened Workouts

  /** `ws.find(work => work.id === id)`: the first workout with that id, if any. */
  function Find(ws: seq<Workout>, id: Id): (r: Option<Workout>)
    ensures r.None? <==> forall i :: 0 <= i < |ws| ==> ws[i].id != id
    ensures r.Some? ==> r.value in ws && r.value.id == id
    ensures r.Some? ==> exists i :: 0 <= i < |ws| && ws[i] == r.value && forall j :: 0 <= j < i ==> ws[j].id != id
  {
    if ws == [] then None
    else if ws[0].id == id then Some(ws[0])
    else
      var r := Find(ws[1..], id);
      assert r.Some? ==> exists i :: 0 <= i < |ws| && ws[i] == r.value && forall j :: 0 <= j < i ==> ws[j].id != id by {
        if r.Some? {
          var i :| 0 <= i < |ws[1..]| && ws[1..][i] == r.value && forall j :: 0 <= j < i ==> ws[1..][j].id != id;
          assert ws[i + 1] == r.value;
          assert forall j :: 0 <= j < i + 1 ==> ws[j].id != id by {
            forall j | 0 <= j < i + 1
              ensures ws[j].id != id
            {
              if j > 0 {
                assert ws[j] == ws[1..][j - 1];
              }
            }
          }
        }
      }
      r
  }

  /** Appending does not change which workout `find` returns first. */
  lemma {:induction false} FindAfterAppend(ws: seq<Workout>, x: Workout, id: Id)
    requires Find(ws, id).Some?
    ensures Find(ws + [x], id) == Find(ws, id)
  {
    if ws[0].id != id {
      assert (ws + [x])[1..] == ws[1..] + [x];
      FindAfterAppend(ws[1..], x, id);
    }
  }

  /** The workout `find` returns is where `indexOf` finds it, the first with its id. */
  lemma {:induction false} IndexOfFound(ws: seq<Workout>, id: Id)
    requires Find(ws, id).Some?
    ensures 0 <= IndexOf(ws, Find(ws, id).value)
    ensures forall j :: 0 <= j < IndexOf(ws, Find(ws, id).value) ==> ws[j].id != id
  {
    if ws[0].id != id {
      IndexOfFound(ws[1..], id);
      assert IndexOf(ws, Find(ws, id).value) == IndexOf(ws[1..], Find(ws, id).value) + 1;
    }
  }

  /** `ws.indexOf(w)`: the first position holding `w`, or -1. */
  function IndexOf<T(==)>(ws: seq<T>, w: T): (i: int)
    ensures -1 <= i < |ws|
    ensures i == -1 <==> w !in ws
    ensures 0 <= i ==> ws[i] == w && forall j :: 0 <= j < i ==> ws[j] != w
  {
    if ws == [] then -1
    else if ws[0] == w then 0
    else
      var i := IndexOf(ws[1..], w);
      if i == -1 then -1 else i + 1
  }

  /**
   * `ws.splice(start, 1)` as it leaves the array: a negative start counts from
   * the end (clamped at 0), a start past the end removes nothing.
   */
  function SpliceOne<T>(ws: seq<T>, start: int): (r: seq<T>)
  {
    var s := if start < 0 then (if |ws| + start < 0 then 0 else |ws| + start)
             else (if start > |ws| then |ws| else start);
    if s < |ws| then ws[..s] + ws[s + 1..] else ws
  }

  /** The position `_deleteWorkout` splices: `indexOf(find(...))`, -1 when nothing matches. */
  function DeletePosition(ws: seq<Workout>, id: Id): int {
    match Find(ws, id)
    case None => -1
    case Some(w) => IndexOf(ws, w)
  }

  /** The list after `_deleteWorkout` for the list item with `id`. */
  function DeleteById(ws: seq<Workout>, id: Id): seq<Workout> {
    SpliceOne(ws, DeletePosition(ws, id))
  }

  /** `find` followed by `indexOf` lands on the first workout that has the id. */
  lemma {:induction false} DeletePositionIsFirstMatch(ws: seq<Workout>, id: Id)
    requires exists i :: 0 <= i < |ws| && ws[i].id == id
    ensures 0 <= DeletePosition(ws, id) < |ws|
    ensures ws[DeletePosition(ws, id)].id == id
    ensures forall j :: 0 <= j < DeletePosition(ws, id) ==> ws[j].id != id
  {
    var w := Find(ws, id).value;
    var i := IndexOf(ws, w);
    if ws[0].id == id {
      assert w == ws[0];
    } else {
      var k :| 0 <= k < |ws| && ws[k].id == id;
      assert ws[1..][k - 1].id == id;
      DeletePositionIsFirstMatch(ws[1..], id);
      assert Find(ws[1..], id) == Find(ws, id);
      assert IndexOf(ws, w) == IndexOf(ws[1..], w) + 1;
    }
  }

  /** `splice(i, 1)` at a position inside the array removes exactly that element. */
  lemma SpliceInside<T>(ws: seq<T>, i: nat)
    requires i < |ws|
    ensures SpliceOne(ws, i) == ws[..i] + ws[i + 1..]
    ensures |SpliceOne(ws, i)| == |ws| - 1
    ensures multiset(SpliceOne(ws, i)) + multiset{ws[i]} == multiset(ws)
  {
    assert ws == ws[..i] + [ws[i]] + ws[i + 1..];
  }

  /**
   * When some workout has the id, delete removes exactly the first such workout
   * and keeps the others in their order.
   */
  lemma DeleteRemovesFirstMatch(ws: seq<Workout>, id: Id, i: nat)
    requires i < |ws| && ws[i].id == id
    requires forall j :: 0 <= j < i ==> ws[j].id != id
    ensures DeleteById(ws, id) == ws[..i] + ws[i + 1..]
    ensures |DeleteById(ws, id)| == |ws| - 1
    ensures multiset(DeleteById(ws, id)) + multiset{ws[i]} == multiset(ws)
  {
    DeletePositionIsFirstMatch(ws, id);
    var p := DeletePosition(ws, id);
    if p < i {
      assert false;
    } else if p > i {
      assert false;
    }
    SpliceInside(ws, i);
  }

  /** With unique ids, nothing with the deleted id is left. */
  lemma DeleteLeavesNoMatch(ws: seq<Workout>, id: Id, i: nat)
    requires i < |ws| && ws[i].id == id
    requires forall j, k :: 0 <= j < k < |ws| ==> ws[j].id != ws[k].id
    ensures forall w :: w in DeleteById(ws, id) ==> w.id != id
  {
    DeleteRemovesFirstMatch(ws, id, i);
    forall w | w in DeleteById(ws, id)
      ensures w.id != id
    {
      var r := DeleteById(ws, id);
      var k :| 0 <= k < |r| && r[k] == w;
      if k < i {
        assert w == ws[k];
      } else {
        assert w == ws[k + 1];
      }
    }
  }

  /** When no workout has the id, `splice(-1, 1)` drops the last workout. */
  lemma DeleteMissingDropsLast(ws: seq<Workout>, id: Id)
    requires forall i :: 0 <= i < |ws| ==> ws[i].id != id
    ensures ws != [] ==> DeleteById(ws, id) == ws[..|ws| - 1]
    ensures ws == [] ==> DeleteById(ws, id) == []
  {
  }
}
