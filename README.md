# Task list page: a Dafny model of the client-side state machine

The todo application's browser script keeps two globals: `tasks`, an ordered array of
`{id, text, completed}`, and `currentFilter`, a string. Five handlers act on them:
`addTask`, `toggleTask`, `deleteTask`, `filterTasks` and `renderTasks`, plus `fetchTasks`,
which loads the list. `public/script.js` and `public/script-practice.js` hold the same code
line for line. The second one only adds comments. One model covers both, and the table
below cites whichever file states the property more directly.

The model has five modules:

- `Text` models `String.prototype.trim` (used by `addTask`) and `toLowerCase` (used by
  `filterTasks`).
- `Selection` models `Array.prototype.filter` as `Keep`. Its lemmas say what filtering
  means: the result is the input read at exactly the positions the predicate accepts, in
  increasing order. They also prove idempotence, complement splitting, appending and
  commuting.
- `Tasks` defines the `Task` value and `tasks.find` as `FindIndex`. It gives the local
  effect of toggling (`Toggled`) and deleting (`WithoutId`), with their lemmas.
- `Render` defines the filter callback of `renderTasks`, the visible view
  (`FilteredTasks`) and the list item drawn per task (`ItemFor`).
- `Page` holds the class `TaskPage`. Its fields are `tasks` and `currentFilter`, the
  input box's value, the filter buttons and the items in the task list. Each handler is a
  method on it. `Valid()` says the items last written into the task list are the
  rendering of `tasks` under `currentFilter`. That covers their class attributes and the
  `checked` attributes of their checkboxes, not a checkbox the user has clicked since (see
  "## Left out"). Five small client methods (`BlankEntryIgnored`, `AddThenComplete`,
  `FilterActive`, `StaleToggle`, `DeleteTwice`) walk through typical sessions using only
  the handlers' contracts.

A handler does not perform its network request. It returns the `Request` it would send,
and a `Reply` parameter says how the awaited call settles: `Threw` (the `catch` runs) or
`Resolved(body)`.

Where the code and the intended design differ, the model follows the code:

- `fetch` rejects only when the network fails. An HTTP error status still resolves the
  promise, and no handler checks `response.ok`. So `toggleTask` and `deleteTask` apply
  their local change after a 500 reply too. Only a thrown request leaves the state
  untouched.
- The only filter values the code treats specially are `'active'` and `'completed'`. Every
  other value shows the whole list: `'all'`, `'pending'` (named in a comment of
  `script-practice.js`) and also `'Active'` with a capital letter.
- These revisions carry no due date. Toggling sends `{completed}` only.

## Model

| member | source | states |
|---|---|---|
| `Text.Trim` | public/script.js:24 | `trim()` returns the slice of the input between its first and last non-whitespace characters. Everything cut off is JS whitespace. The result neither starts nor ends with whitespace. It is empty exactly when the input is all whitespace, the case `if (text)` rejects. |
| `Text.TrimIdempotent` | public/script-practice.js:39 | Trimming an already trimmed text changes nothing. |
| `Text.Lower` | public/script.js:89 | `toLowerCase()` keeps the length and maps each upper-case ASCII letter to its lower-case letter (32 code points on). It keeps every other character, so no upper-case ASCII letter is left. |
| `Text.UpperNeverALowerForm` | public/script.js:89 | A filter value containing an upper-case letter equals no lower-cased button text, so it lights no button. |
| `Selection.Keep` | public/script.js:74 | `filter` never lengthens the list, and everything it returns is in the input and accepted by the predicate. |
| `Selection.Positions` | public/script.js:100-104 | The reference positions for a filter: exactly the indices whose element the predicate accepts, in increasing order. |
| `Selection.KeepSelectsInOrder` | public/script.js:100-104 | `filter` returns the input read at exactly the accepted positions, in increasing order. Each accepted element appears once, in its original order. |
| `Selection.KeepAll` | public/script.js:103 | A callback that accepts every element returns the list unchanged. |
| `Selection.KeepIdempotent` | public/script-practice.js:141 | Filtering twice with the same callback is filtering once. |
| `Selection.KeepSplits` | public/script-practice.js:189-195 | Filtering by a predicate and by its complement splits the list. The lengths add up, and the multisets add up to the input's. |
| `Selection.KeepAppend` | public/script.js:37 | Pushing an element adds it at the end of the filtered list if the callback accepts it, and changes nothing otherwise. |
| `Selection.KeepCommutes` | public/script.js:74 | Two filters applied one after the other give the same list in either order. |
| `Tasks.FindIndex` | public/script.js:48 | `tasks.find` finds the first task with the id. No task before it has that id. It finds nothing exactly when no task has the id. |
| `Tasks.FindIndexIsFirstMatch` | public/script-practice.js:91 | The first matching position is the only answer `find` can give. |
| `Tasks.ToggleAbsentIsNoop` | public/script.js:47-49 | Toggling an id the list does not hold leaves the list unchanged. |
| `Tasks.ToggleFlipsFirstMatchOnly` | public/script.js:59 | Toggling a present id flips `completed` of the first task with that id and keeps its id and text. Every other task, including later tasks with the same id, is unchanged. |
| `Tasks.ToggleTwiceRestores` | public/script-practice.js:110 | Toggling the same id twice restores the original list. |
| `Tasks.ToggleBodyMatchesLocalState` | public/script.js:47-59 | A PUT is sent exactly when the id is present, that is exactly when `find` finds a task. The `completed` it carries is the value that the found task, the first with the id, holds locally after the toggle. |
| `Tasks.DeleteRemovesExactlyTheId` | public/script.js:74 | After a delete no task has the id and the list has not grown. The remaining tasks are exactly those with another id, in their original order. |
| `Tasks.DeleteIdempotent` | public/script-practice.js:141 | Deleting an id twice is deleting it once. |
| `Tasks.DeleteAbsentIsNoop` | public/script-practice.js:129-146 | Deleting an id that is not in the list leaves the list unchanged. |
| `Render.ActiveViewIsOpenTasks` | public/script.js:100-101 | Under `'active'` the view is exactly the tasks not completed, in list order. |
| `Render.CompletedViewIsDoneTasks` | public/script-practice.js:189-193 | Under `'completed'` the view is exactly the completed tasks, in list order. |
| `Render.OtherFiltersShowEverything` | public/script.js:100-104 | Every filter value other than `'active'` and `'completed'` shows the whole list unchanged. |
| `Render.PendingShowsEverything` | public/script-practice.js:194 | `'pending'`, named in the comment at line 156, falls through to the catch-all and shows every task. |
| `Render.ActiveAndCompletedPartition` | public/script.js:100-104 | The `'active'` and `'completed'` views partition the list. Their lengths add up to its length, and their multisets add up to its multiset. |
| `Render.AppendedTaskShowsLast` | public/script-practice.js:65-67 | After a push and re-render, the new task is the last visible item if the filter admits it. Otherwise the view is unchanged. |
| `Render.DeleteThenViewIsViewThenDelete` | public/script-practice.js:141-142 | The view after a delete is the previous view minus the tasks with that id. |
| `Render.ItemClass` | public/script.js:108 | The item's class list always contains `task-item`. It contains `completed` exactly when the task is completed. |
| `Render.ItemFor` | public/script-practice.js:203-211 | A rendered item has the `completed` class and a checked checkbox exactly when its task is completed. It shows the task's text, and its handlers receive the task's id. |
| `Render.ShownItemMarksCompletion` | public/script-practice.js:198-214 | The k-th displayed item marks completion exactly as the k-th visible task does, and it is bound to that task's id. |
| `Page.TaskPage.constructor` | public/script.js:2-3 | The page starts with no tasks, filter `'all'`, an empty input box and an empty list. |
| `Page.TaskPage.RenderTasks` | public/script.js:96-120 | The task list is cleared and then holds one item per visible task, in order. Nothing else changes. |
| `Page.TaskPage.FetchTasks` | public/script.js:11-19 | A resolved reply replaces `tasks` wholesale and re-renders. A thrown one changes nothing. |
| `Page.TaskPage.AddTask` | public/script.js:22-44 | Blank input sends nothing and changes nothing. Otherwise a POST of the trimmed, non-empty text with `completed: false` is sent. On a resolved reply the returned task is appended at the end and the input is cleared. On a throw nothing changes. |
| `Page.TaskPage.ToggleTask` | public/script-practice.js:88-117 | An absent id sends nothing and changes nothing. A present id sends a PUT with the negated `completed`. On any resolved reply the list becomes `Toggled`, and the task then holds the value that was sent. On a throw nothing changes. |
| `Page.TaskPage.DeleteTask` | public/script.js:68-79 | A DELETE is always sent, with no lookup first. On any resolved reply the list becomes `WithoutId`. On a throw nothing changes. |
| `Page.TaskPage.FilterTasks` | public/script-practice.js:157-176 | `currentFilter` becomes the argument and the list is re-rendered. Afterwards a button is active exactly when its lower-cased text equals the filter. Button texts and the task list are unchanged. |

## Left out

- Network I/O: `fetch`, JSON parsing and `console.error` are not modelled. Each request
  becomes a returned `Request` value plus a `Reply` parameter saying whether the call threw
  or resolved.
- The HTTP status of a PUT or DELETE reply is passed in but never read, because the source
  never reads it.
- `Page.TaskPage.AddTask`: the resolved body is assumed to be a task. After a 500 reply the
  source would push the server's `{error}` object into `tasks`. The model has no value for
  a non-task body.
- `Text.Lower`: covers ASCII letters only. JavaScript's `toLowerCase` also maps non-ASCII
  letters, which this model leaves unchanged.
- `Page.TaskPage.ToggleTask`: the checkbox the user clicks is flipped by the browser before
  `onchange` runs. If the PUT then throws, nothing is re-rendered, so that box stays flipped
  on screen while `tasks` and the item's `completed` class keep the old value. The model
  tracks only the `checked` attribute written by `renderTasks`, not the box's live state.
- `Page.TaskPage.FetchTasks`: the resolved body is assumed to be a list of tasks. After a 500
  reply the source assigns the server's `{error}` object to `tasks`. `renderTasks` then
  throws on `tasks.filter` and the catch swallows it, and a later `toggleTask` throws at
  `tasks.find` outside its `try`. The model has no value for a non-list body.
- `completed` is a boolean. The server reports it as 0 or 1, and the page only tests its
  truth, so nothing depends on the difference.
- DOM construction is abstracted. The `innerHTML` markup, `createElement` and
  `appendChild` become an `Item` holding the class attribute, the checkbox's `checked`
  attribute, text and bound id. Other classes on the filter buttons are not tracked.
- HTML in task text is not modelled. The source inserts it into `innerHTML` unescaped.
- Overlapping requests are not modelled. Each handler runs to completion before the next
  one starts. In the source, a second toggle of the same task can start before the first
  one's reply arrives.
- Object identity is not modelled. `tasks.find` returns a reference that `toggleTask`
  mutates in place. The model updates the found position of a sequence, which has the
  same effect because every task in the list is a separate object.
- The `DOMContentLoaded` listener that calls `fetchTasks` on load is an event binding and
  is not modelled.
- server/server.js and server/database.js are not part of this model. They are thin
  wrappers over Express and sqlite.
- js-review/module-exports-ex.js is a tutorial snippet and is not part of this model.
- Due dates and overdue highlighting appear in no modelled file.
