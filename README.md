# Task list overlay store

A model of the client-side state of a small browser to-do list. The page
loads a page of tasks from a remote REST service and shows it. It keeps its
own list, `localTasks`, of the tasks created in the page, because the
service only echoes a create and does not store it. Every user action
(create, toggle completed, rename, delete) first makes its remote request.
Only when that request succeeds does the action change `localTasks`. A
create pushes the new task onto the end of the list in place. A status
change, a rename and a delete replace the list with a mapped or filtered
copy. Each row shows the label `"{title} — Completed"` or
`"{title} — Pending"`. The handlers read a title back from that text by
taking what comes before the first em dash and trimming it.

The project has three modules:

- `Labels` (labels.dfy) holds the pure string logic. It defines JavaScript's
  `trim` over an explicit whitespace set, `split('—')[0]`, the label
  template, the title read-back and the relabel done by a status change.
- `Tasks` (tasks.dfy) holds the `Task` record and the copy-on-write list
  operations as functions: set `completed` by id, set `title` by id, remove
  by id, and the merge of the remote snapshot with the overlay.
- `Store` (store.dfy) holds the class `Overlay`, whose field `localTasks` is
  the module-level `let localTasks`. Its methods are the handlers. Each
  takes the outcome of its remote call as `success: bool`. `Create` also
  takes the id that `Date.now()` would give, as `freshId`.

In three places the code behaves differently from what a reader might
expect, and the model follows the code.

- Ids might be expected to be unique across the shown list. The code does
  not ensure this: a local id is a clock reading, and the merged list is
  never de-duplicated. So no uniqueness invariant is claimed, and
  `Tasks.CombinedCountId` shows that a duplicate id is shown twice.
- A change might be expected to reach a task wherever it came from. The
  code keeps no copy of the remote snapshot and changes only `localTasks`.
  A change to a remote task therefore reaches only its row text.
- Toggling a task completed and back to pending might be expected to
  restore its label. Create only trims its input (script.js:64-65), so it
  accepts a title with an em dash, such as "a — b". The relabel at
  script.js:112 turns that row into "a — Completed" and then "a — Pending".
  Saving an edit without changing anything likewise sends "a" and renames
  the task (script.js:128). `Labels.TitleOfLabelAll` states this cut for
  every title, and `Labels.UnchangedEditKeepsTitle` shows that an unchanged
  edit keeps a trimmed title exactly when it has no em dash. This is why
  `Labels.RelabelRoundTrip` and `Store.ToggleTwice` require the title to
  have no em dash.

## Model

| member | source | states |
|---|---|---|
| `Labels.LeadingSpace` | script.js:64 | the count is the length of the whitespace run at the start: every character before it is whitespace, the one at it is not |
| `Labels.TrailingSpaceStart` | script.js:64 | the index is where the whitespace run at the end begins: every character from it on is whitespace, the one before it is not |
| `Labels.Trim` | script.js:64-65 | the result has no whitespace at either end; it is empty exactly when the input is all whitespace (the case the submit handler ignores); an already trimmed input is returned unchanged; trimming adds no em dash |
| `Labels.TrimKeepsMiddle` | script.js:64 | trim removes only a whitespace run at each end and keeps the middle of the input as it was |
| `Labels.BeforeDash` | script.js:112 | `split('—')[0]` is the longest prefix without an em dash: the character after it, if there is one, is the first em dash |
| `Labels.TitleOf` | script.js:128 | a title read back from row text has no surrounding whitespace and contains no em dash |
| `Labels.TrimDropsTrailingSpace` | script.js:112 | one trailing whitespace character does not change the trimmed text |
| `Labels.StatusText` | script.js:43 | defined as "Completed" or "Pending"; its use in labels is covered by `TitleOfLabelAll` |
| `Labels.Label` | script.js:43 | defined as the title, a space, an em dash, a space and the status word; `TitleOfLabelAll` and `RelabelLabel` state what reading it back gives |
| `Labels.Relabel` | script.js:112 | the title read back from the relabelled text is the one read back from the old text |
| `Labels.BeforeDashAppend` | script.js:112 | `split('—')[0]` of a concatenation: the part before the first dash of the first piece, or the whole first piece followed by the part before the first dash of the second |
| `Labels.BeforeDashNoDash` | script.js:112 | text without an em dash is kept whole by `split('—')[0]` |
| `Labels.BeforeDashSuffix` | script.js:43 | of the label's separator and status, `split('—')[0]` keeps only the single space |
| `Labels.TitleOfLabelAll` | script.js:43 | for every title, reading it back from its label gives what reading it back from the bare title gives: cut at its first em dash and trimmed |
| `Labels.TitleOfLabel` | script.js:43 | reading the title back from `title — status` gives `title`, for a trimmed title without an em dash |
| `Labels.UnchangedEditKeepsTitle` | script.js:128 | saving an unchanged row keeps a trimmed title exactly when the title has no em dash |
| `Labels.TitleOfIsStable` | script.js:112 | any title that has been read back survives a second label-and-read-back unchanged |
| `Labels.RelabelLastWins` | script.js:112 | two status changes of the same row text leave the text the second change alone would give, whatever the text was |
| `Labels.RelabelLabel` | script.js:112 | a status change of a well-formed label changes only its status suffix |
| `Labels.RelabelRoundTrip` | script.js:112 | marking a row completed and then pending restores its original Pending label |
| `Tasks.SetCompleted` | script.js:106 | length, order, ids, user ids and titles are kept; every entry with the id gets `completed = isDone`; every other entry is unchanged |
| `Tasks.SetCompletedAbsent` | script.js:106 | a status change for an id that is not in the overlay leaves it unchanged |
| `Tasks.SetCompletedUnchanged` | script.js:106 | setting the status every matching entry already has leaves the overlay unchanged |
| `Tasks.SetCompletedLastWins` | script.js:106 | two status changes of the same id equal the second one alone |
| `Tasks.SetCompletedRoundTrip` | script.js:106 | completing and then un-completing a pending task restores the overlay exactly |
| `Tasks.SetTitle` | script.js:138 | length, order, ids, user ids and `completed` are kept; every entry with the id gets the new title; every other entry is unchanged |
| `Tasks.SetTitleAbsent` | script.js:138 | renaming an id that is not in the overlay leaves it unchanged |
| `Tasks.SetTitleLastWins` | script.js:138 | two renames of the same id equal the second one alone |
| `Tasks.SetTitleSetCompletedCommute` | script.js:138 | a rename and a status change of the same id give the same overlay in either order |
| `Tasks.RemoveId` | script.js:159 | the result keeps the other entries in their original relative order (a subsequence), each one as often as before; no entry with the id remains; the length drops by the number of matching entries |
| `Tasks.RemoveIdLeavesNone` | script.js:159 | after a delete no entry carries the id |
| `Tasks.RemoveIdAbsent` | script.js:159 | deleting an id that is not in the overlay leaves it unchanged |
| `Tasks.RemoveIdIdempotent` | script.js:159 | deleting twice gives the same overlay as deleting once |
| `Tasks.Combined` | script.js:24 | defined as the snapshot followed by the overlay; `CombinedParts` and `CombinedCountId` state its properties |
| `Tasks.CombinedParts` | script.js:24 | the merged view is as long as both parts together, starts with the snapshot and ends with the overlay, each in its own order |
| `Tasks.CombinedCountId` | script.js:24 | there is no de-duplication: each id occurs in the merged view as often as in the snapshot and the overlay together |
| `Store.NewTask` | script.js:67-71 | defined as the task with the fresh id, user id 1, the given title and `completed` false; `Overlay.Create`'s ensures states that exactly this task is appended |
| `Store.Overlay.constructor` | script.js:7 | the overlay starts empty |
| `Store.Overlay.Load` | script.js:16-30 | on success the view is the snapshot followed by the current overlay; on failure there is no new view; the overlay is not changed |
| `Store.Overlay.Create` | script.js:62-94 | an all-whitespace input is ignored with no request; a failed request adds nothing; a successful one appends exactly one task at the end (fresh id, user id 1, trimmed title, not completed) and leaves the earlier entries as they were |
| `Store.Overlay.UpdateStatus` | script.js:96-121 | on success the overlay is `SetCompleted` of the old one and the shown row, if any, is relabelled with the new status; on failure neither changes |
| `Store.Overlay.CommitEdit` | script.js:124-149 | the title sent is the edited row text read back; on success the overlay is `SetTitle` of the old one with that title; on failure it is unchanged |
| `Store.Overlay.Remove` | script.js:151-168 | on success the overlay is `RemoveId` of the old one; on failure it is unchanged |
| `Store.CreateThenLoad` | script.js:83-85 | calling `Overlay.Create` and then `Overlay.Load` on a non-blank input, both requests succeeding, shows the new task (trimmed title, fresh id) as the last row |
| `Store.CreatedRowTitle` | script.js:64-71 | the row of a newly created task reads back its trimmed title, provided the input has no em dash |
| `Store.ToggleTwice` | script.js:96-121 | completing and then un-completing a pending task, both requests succeeding, restores the overlay and the row text, for a trimmed title without an em dash |

## Left out

- `fetch`, the JSON bodies and the HTTP status are not modelled. Each request's outcome is the `success` parameter, and a thrown error and a non-2xx status are the same failure.
- `Store.Overlay.Create`: the created task is taken to be the service's echo of the request body (`userId` 1, the trimmed title, `completed` false) with its id replaced. The actual response body is not modelled.
- `Date.now()` becomes the `freshId` parameter. Nothing is claimed about ids being unique, since the code does not ensure it.
- DOM work is not modelled: building rows (`showTask`), `querySelector`, `li.remove()`, the `completed` class toggle, clearing the input, `contentEditable` and `focus`. The row text is kept as a string because it is the only rendered value the handlers read back.
- `Store.Overlay.CommitEdit`: the first click of the edit button only makes the row editable (DOM), so only the committing click is modelled.
- `showMessage`, its 3-second timer and `console.error` are user feedback and are left out.
- Two requests for the same id that finish in either order (the unguarded race) are not modelled. Each handler is modelled as one atomic step after its response.
- `Labels.IsSpace` lists the ECMAScript whitespace and line-terminator characters explicitly, with the Unicode space separators as of Unicode 15. A later Unicode version could add characters that `trim` removes.
- Reading a row's text back is modelled as getting exactly the string that was written. A browser's `innerText` gives the rendered text, which can differ, for example by collapsing runs of whitespace. The read-back lemmas in `Labels` are about the written string.
