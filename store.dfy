/**
  The module-level `localTasks` overlay and the handlers that change it.
  Every handler first makes its remote request; the outcome of that request
  (a 2xx status, or a non-2xx status or a thrown error) is the `success`
  parameter, and the overlay changes only after a success.
 */
module Store {
  import opened Labels
  import opened Tasks

  datatype Option<T> = None | Some(value: T)

  /** What the submit handler did with the input. */
  datatype CreateOutcome =
    | Ignored  // the trimmed input was empty: no request was made
    | Failed   // the request failed: nothing was added
    | Added    // the request succeeded: one task was appended

  /** The `userId` the submit handler sends with every new task. */
  const DefaultUserId: int := 1

  /** The task the submit handler appends: the request body it sent
      (`userId: 1`, the trimmed title, `completed: false`) as echoed back by
      the service, with its id replaced by the locally generated one. */
  function NewTask(title: string, freshId: int): Task
  {
    Task(freshId, DefaultUserId, title, false)
  }

  class Overlay {
    /** The tasks created in this page, in creation order. */
    var localTasks: seq<Task>

    constructor ()
      ensures localTasks == []
    {
      localTasks := [];
    }

    /** `loadTasks`: on success the list shows the snapshot followed by the
        overlay; on failure nothing is shown anew. The overlay is only read. */
    method Load(apiTasks: seq<Task>, success: bool) returns (view: Option<seq<Task>>)
      ensures success ==> view.Some? && |view.value| == |apiTasks| + |localTasks|
      ensures success ==> view.value[..|apiTasks|] == apiTasks && view.value[|apiTasks|..] == localTasks
      ensures !success ==> view == None
    {
      if !success {
        return None;
      }
      view := Some(Combined(apiTasks, localTasks));
    }

    /** The submit handler. `input` is the text field's value; `freshId`
        stands for `Date.now()` at the moment of the response. */
    method Create(input: string, success: bool, freshId: int) returns (outcome: CreateOutcome)
      modifies this
      ensures AllSpace(input) ==> outcome == Ignored && localTasks == old(localTasks)
      ensures !AllSpace(input) && !success ==> outcome == Failed && localTasks == old(localTasks)
      ensures !AllSpace(input) && success ==>
                && outcome == Added
                && localTasks == old(localTasks) + [NewTask(Trim(input), freshId)]
    {
      var title := Trim(input);
      if title == [] {
        return Ignored;
      }
      if !success {
        return Failed;
      }
      localTasks := localTasks + [NewTask(title, freshId)];
      outcome := Added;
    }

    /** `updateStatus(id, isDone)`. `row` is the text of the row shown for
        `id`, if there is one; the result is that row's text afterwards. */
    method UpdateStatus(id: int, isDone: bool, success: bool, row: Option<string>) returns (newRow: Option<string>)
      modifies this
      ensures success ==> localTasks == SetCompleted(old(localTasks), id, isDone)
      ensures success && row.Some? ==> newRow == Some(Relabel(row.value, isDone))
      ensures !success ==> localTasks == old(localTasks) && newRow == row
      ensures row.None? ==> newRow == None
    {
      newRow := row;
      if !success {
        return;
      }
      localTasks := SetCompleted(localTasks, id, isDone);
      if row.Some? {
        newRow := Some(Relabel(row.value, isDone));
      }
    }

    /** The committing half of `toggleEdit(span, id)`: the new title is read
        back from the edited row text, sent, and stored on success. */
    method CommitEdit(id: int, editedText: string, success: bool) returns (updatedTitle: string)
      modifies this
      ensures updatedTitle == TitleOf(editedText)
      ensures success ==> localTasks == SetTitle(old(localTasks), id, updatedTitle)
      ensures !success ==> localTasks == old(localTasks)
    {
      updatedTitle := TitleOf(editedText);
      if success {
        localTasks := SetTitle(localTasks, id, updatedTitle);
      }
    }

    /** `removeTask(id)`. */
    method Remove(id: int, success: bool)
      modifies this
      ensures success ==> localTasks == RemoveId(old(localTasks), id)
      ensures !success ==> localTasks == old(localTasks)
    {
      if success {
        localTasks := RemoveId(localTasks, id);
      }
    }
  }

  /** The client scenario of a create followed by a load, both requests
      succeeding: the new task is the last row shown. */
  method CreateThenLoad(store: Overlay, input: string, freshId: int, apiTasks: seq<Task>)
    returns (view: Option<seq<Task>>)
    requires !AllSpace(input)
    modifies store
    ensures view.Some? && |view.value| > 0
    ensures view.value[|view.value| - 1] == NewTask(Trim(input), freshId)
  {
    var outcome := store.Create(input, true, freshId);
    view := store.Load(apiTasks, true);
    assert view.value[|apiTasks|..] == store.localTasks;
  }

  /** The row of a newly created task reads back the title it was created
      with, unless that title contains an em dash. */
  lemma CreatedRowTitle(input: string, freshId: int)
    requires NoDash(input)
    ensures var t := NewTask(Trim(input), freshId);
            TitleOf(Label(t.title, t.completed)) == Trim(input)
  {
    TitleOfLabel(Trim(input), false);
  }

  /** The client scenario of a pending local task whose status is toggled
      on and off, both requests succeeding: the overlay and the row text are
      back where they started. */
  method ToggleTwice(store: Overlay, id: int, title: string) returns (row: Option<string>)
    requires NoDash(title) && IsTrimmed(title)
    requires forall i :: 0 <= i < |store.localTasks| && store.localTasks[i].id == id ==> !store.localTasks[i].completed
    modifies store
    ensures store.localTasks == old(store.localTasks)
    ensures row == Some(Label(title, false))
  {
    row := store.UpdateStatus(id, true, true, Some(Label(title, false)));
    row := store.UpdateStatus(id, false, true, row);
    SetCompletedRoundTrip(old(store.localTasks), id);
    RelabelRoundTrip(title);
  }
}
