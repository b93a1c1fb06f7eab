/**
  Tasks and the copy-on-write list operations the handlers apply to the
  overlay of locally created tasks: the `map` that sets `completed`, the
  `map` that sets `title`, the `filter` that removes an id, and the merge of
  the remote snapshot with the overlay.
 */
module Tasks {

  /** A task record as the remote service returns it and as the overlay
      keeps it. Ids are compared with `===`, so equal numbers match. */
  datatype Task = Task(id: int, userId: int, title: string, completed: bool)

  /** `a` is `b` with some entries dropped and the rest in the same order. */
  predicate IsSubsequence<T(==)>(a: seq<T>, b: seq<T>)
    decreases |b|
  {
    a == [] || (b != [] && ((a[0] == b[0] && IsSubsequence(a[1..], b[1..])) || IsSubsequence(a, b[1..])))
  }

  /** How many entries carry `id`. */
  function CountId(tasks: seq<Task>, id: int): nat
  {
    if tasks == [] then 0 else (if tasks[0].id == id then 1 else 0) + CountId(tasks[1..], id)
  }

  predicate HasId(tasks: seq<Task>, id: int)
  {
    exists i :: 0 <= i < |tasks| && tasks[i].id == id
  }

  /** `tasks.map(t => t.id === id ? { ...t, completed: isDone } : t)`:
      every entry with the id gets the new status and nothing else changes. */
  function SetCompleted(tasks: seq<Task>, id: int, isDone: bool): (r: seq<Task>)
    ensures |r| == |tasks|
    ensures forall i :: 0 <= i < |r| ==>
              && r[i].id == tasks[i].id && r[i].userId == tasks[i].userId
              && r[i].title == tasks[i].title
    ensures forall i :: 0 <= i < |r| && tasks[i].id == id ==> r[i].completed == isDone
    ensures forall i :: 0 <= i < |r| && tasks[i].id != id ==> r[i] == tasks[i]
  {
    if tasks == [] then []
    else [if tasks[0].id == id then tasks[0].(completed := isDone) else tasks[0]]
         + SetCompleted(tasks[1..], id, isDone)
  }

  /** `tasks.map(t => t.id === id ? { ...t, title: updatedTitle } : t)`:
      every entry with the id gets the new title and nothing else changes. */
  function SetTitle(tasks: seq<Task>, id: int, updatedTitle: string): (r: seq<Task>)
    ensures |r| == |tasks|
    ensures forall i :: 0 <= i < |r| ==>
              && r[i].id == tasks[i].id && r[i].userId == tasks[i].userId
              && r[i].completed == tasks[i].completed
    ensures forall i :: 0 <= i < |r| && tasks[i].id == id ==> r[i].title == updatedTitle
    ensures forall i :: 0 <= i < |r| && tasks[i].id != id ==> r[i] == tasks[i]
  {
    if tasks == [] then []
    else [if tasks[0].id == id then tasks[0].(title := updatedTitle) else tasks[0]]
         + SetTitle(tasks[1..], id, updatedTitle)
  }

  /** `tasks.filter(t => t.id !== id)`: the entries with another id, every
      one of them as often as before and in the same order. */
  function RemoveId(tasks: seq<Task>, id: int): (r: seq<Task>)
    ensures IsSubsequence(r, tasks)
    ensures forall t :: multiset(r)[t] == if t.id == id then 0 else multiset(tasks)[t]
    ensures |r| == |tasks| - CountId(tasks, id)
  {
    if tasks == [] then []
    else
      assert tasks == [tasks[0]] + tasks[1..];
      if tasks[0].id == id then RemoveId(tasks[1..], id)
      else [tasks[0]] + RemoveId(tasks[1..], id)
  }

  /** `[...apiTasks, ...localTasks]`: the remote snapshot followed by the
      overlay, with no de-duplication. */
  function Combined(apiTasks: seq<Task>, localTasks: seq<Task>): seq<Task>
  {
    apiTasks + localTasks
  }

  /** A status update for an id that is not in the list changes nothing. */
  lemma SetCompletedAbsent(tasks: seq<Task>, id: int, isDone: bool)
    requires !HasId(tasks, id)
    ensures SetCompleted(tasks, id, isDone) == tasks
  {
  }

  /** Two status updates of one id: the second one wins. */
  lemma SetCompletedLastWins(tasks: seq<Task>, id: int, first: bool, second: bool)
    ensures SetCompleted(SetCompleted(tasks, id, first), id, second) == SetCompleted(tasks, id, second)
  {
  }

  /** Setting the status every entry with the id already has changes nothing. */
  lemma SetCompletedUnchanged(tasks: seq<Task>, id: int, isDone: bool)
    requires forall i :: 0 <= i < |tasks| && tasks[i].id == id ==> tasks[i].completed == isDone
    ensures SetCompleted(tasks, id, isDone) == tasks
  {
  }

  /** Marking a pending task completed and then pending again restores the
      overlay exactly. */
  lemma SetCompletedRoundTrip(tasks: seq<Task>, id: int)
    requires forall i :: 0 <= i < |tasks| && tasks[i].id == id ==> !tasks[i].completed
    ensures SetCompleted(SetCompleted(tasks, id, true), id, false) == tasks
  {
    SetCompletedLastWins(tasks, id, true, false);
    SetCompletedUnchanged(tasks, id, false);
  }

  /** A rename of an id that is not in the list changes nothing. */
  lemma SetTitleAbsent(tasks: seq<Task>, id: int, updatedTitle: string)
    requires !HasId(tasks, id)
    ensures SetTitle(tasks, id, updatedTitle) == tasks
  {
  }

  /** Two renames of one id: the second one wins. */
  lemma SetTitleLastWins(tasks: seq<Task>, id: int, first: string, second: string)
    ensures SetTitle(SetTitle(tasks, id, first), id, second) == SetTitle(tasks, id, second)
  {
  }

  /** A rename and a status update of the same id commute. */
  lemma SetTitleSetCompletedCommute(tasks: seq<Task>, id: int, updatedTitle: string, isDone: bool)
    ensures SetTitle(SetCompleted(tasks, id, isDone), id, updatedTitle)
         == SetCompleted(SetTitle(tasks, id, updatedTitle), id, isDone)
  {
  }

  /** After a delete no entry carries the id. */
  lemma RemoveIdLeavesNone(tasks: seq<Task>, id: int)
    ensures !HasId(RemoveId(tasks, id), id)
  {
    var r := RemoveId(tasks, id);
    forall i | 0 <= i < |r|
      ensures r[i].id != id
    {
      assert r[i] in multiset(r);
    }
  }

  /** Deleting an id that is not in the list changes nothing. */
  lemma {:induction false} RemoveIdAbsent(tasks: seq<Task>, id: int)
    requires !HasId(tasks, id)
    ensures RemoveId(tasks, id) == tasks
  {
    if tasks != [] {
      assert !HasId(tasks[1..], id) by {
        forall i | 0 <= i < |tasks[1..]|
          ensures tasks[1..][i].id != id
        {
          assert tasks[1..][i] == tasks[i + 1];
        }
      }
      RemoveIdAbsent(tasks[1..], id);
      assert tasks == [tasks[0]] + tasks[1..];
    }
  }

  /** Deleting twice is deleting once. */
  lemma RemoveIdIdempotent(tasks: seq<Task>, id: int)
    ensures RemoveId(RemoveId(tasks, id), id) == RemoveId(tasks, id)
  {
    RemoveIdLeavesNone(tasks, id);
    RemoveIdAbsent(RemoveId(tasks, id), id);
  }

  /** The merged view keeps every entry of both parts: each id occurs as
      often as in the snapshot and the overlay together, so a duplicate id
      shows twice. */
  lemma {:induction false} CombinedCountId(apiTasks: seq<Task>, localTasks: seq<Task>, id: int)
    ensures CountId(Combined(apiTasks, localTasks), id) == CountId(apiTasks, id) + CountId(localTasks, id)
  {
    if apiTasks == [] {
      assert Combined(apiTasks, localTasks) == localTasks;
    } else {
      assert Combined(apiTasks, localTasks)[1..] == Combined(apiTasks[1..], localTasks);
      CombinedCountId(apiTasks[1..], localTasks, id);
    }
  }

  /** The merged view is the snapshot, then the overlay, each in its order. */
  lemma CombinedParts(apiTasks: seq<Task>, localTasks: seq<Task>)
    ensures |Combined(apiTasks, localTasks)| == |apiTasks| + |localTasks|
    ensures Combined(apiTasks, localTasks)[..|apiTasks|] == apiTasks
    ensures Combined(apiTasks, localTasks)[|apiTasks|..] == localTasks
  {
  }
}
