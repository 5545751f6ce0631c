# task-cards: the task store of `App.jsx`, modelled in Dafny

The repository is a single React component, `App`, that keeps a list of
tasks (each with an id, a name, a "last worked on" note, a list of resource
URLs and an XP counter), lets the user add and delete tasks, open one at
random or by clicking its card, edit the open task's note, add and remove
its resources and gain XP on it, and mirrors the list into the browser's
local storage after every change.

This project models the component's state and its seven event handlers
(`addTask`, `deleteTask`, `updateSelectedTask`, `addResource`,
`deleteResource`, `gainXP`, `pickRandomTask`), the inline handlers of the
rendered page (typing the task name, clicking a card, "Back"), the choice
between the list view and the detail view, and the progress bar's
`xp % 100`.

Files:

- `wrappers.dfy` (module `Wrappers`): `Option`, for the nullable selection
  and a cancellable prompt.
- `lists.dfy` (module `Lists`): JavaScript's `Array.prototype.filter` as
  `Filter`, with order and multiplicity lemmas.
- `jstext.dfy` (module `JsText`): `String.prototype.trim` with the
  ECMAScript white-space set, and the proof that a trimmed string is empty
  exactly when the string is blank.
- `tasks.dfy` (module `Tasks`): the task record, the record update
  `{ ...task, [field]: value }`, the map-by-id of `updateSelectedTask`, the
  filters of `deleteTask` and `deleteResource`, and JavaScript's truncating
  `%` for the progress bar.
- `handlers.dfy` (module `Handlers`): the component state as a value and
  every handler as a pure transition with its contract; the page's user
  events as a datatype, a step function over them, and lemmas over whole
  runs of events (the invariant, id uniqueness, repeated XP gains, adding
  many names, a full session).
- `app.dfy` (module `AppComponent`): class `App`, whose fields are the
  three `useState` slots plus the stored copy, and whose methods perform
  each handler in place; each method's postcondition is that the new state
  is the `Handlers` transition of the old one and that the stored copy
  equals the list.

Outside inputs are parameters: the clock reading `Date.now()` used as the
new id, the answer of `prompt(...)` as an `Option<string>` (None for a
cancelled prompt), and the index `Math.floor(Math.random() * tasks.length)`
as a natural number below the list's length. Handlers run one at a time to
completion against the current state.

`deleteResource` removes every copy of the URL (a `filter`), not only the
first. A malformed stored value is not replaced by an empty list, because
`JSON.parse` would throw, so the model starts from an already parsed stored
list or from none.

## Model

| member | source | states |
|---|---|---|
| `Lists.Filter` | App.jsx:31 | the result holds exactly the elements of the input the predicate accepts and is no longer than the input |
| `Lists.FilterIsSubsequence` | App.jsx:31 | filtering keeps the survivors in their original relative order |
| `Lists.FilterMultiset` | App.jsx:51 | every copy of an accepted value survives and no copy of a rejected one does |
| `JsText.Trim` | App.jsx:18 | `trim` returns a contiguous slice of the input, with only white space cut off either side, that neither starts nor ends with white space |
| `JsText.TextStart` | App.jsx:18 | the index found is the first one at or after the start that is not white space, everything skipped is white space |
| `JsText.TextEnd` | App.jsx:18 | the index found ends the text: everything from it to the end is white space and the character before it, if any is left, is not |
| `JsText.TrimEmptyIffBlank` | App.jsx:18 | `!s.trim()` holds exactly when every character of `s` is ECMAScript white space |
| `Tasks.With` | App.jsx:37 | the record update changes only the named field; id and name are never touched |
| `Tasks.MapWhere` | App.jsx:36-38 | the mapped list has the same length, and each position is updated exactly when its task carries the id |
| `Tasks.MapWhereKeepsIds` | App.jsx:36-38 | updating by id never changes the ids or their order |
| `Tasks.MapWhereAbsent` | App.jsx:36-38 | updating an id no task carries leaves the list unchanged |
| `Tasks.MapWhereTwice` | App.jsx:36-38 | setting the same field twice by id is setting it once to the second value |
| `Tasks.RemoveId` | App.jsx:31 | no remaining task carries the id, every task without it remains, in the original order |
| `Tasks.RemoveIdLength` | App.jsx:31 | the list shrinks by exactly the number of tasks carrying the id |
| `Tasks.MatchesUnique` | App.jsx:31 | with unique ids an id is carried by one task if present and by none otherwise |
| `Tasks.RemoveIdKeepsUnique` | App.jsx:31 | deleting by id keeps the remaining ids unique |
| `Tasks.RemoveUrl` | App.jsx:51 | no copy of the URL remains; every other URL keeps its multiplicity and order |
| `Tasks.RemoveUrlLength` | App.jsx:51 | the resource list shrinks by the number of copies of the URL (`["a","b","a"]` minus `"a"` is `["b"]`) |
| `Tasks.Progress` | App.jsx:74 | the bar width is congruent to XP modulo 100, lies in 0..99 for non-negative XP and takes the sign of XP otherwise |
| `Handlers.ViewOf` | App.jsx:66 | the detail view is shown exactly when a task is selected, the list view exactly when none is |
| `Handlers.Initial` | App.jsx:6-11 | the initial list is the stored one if any, else empty; no selection and an empty input, so the list view is shown |
| `Handlers.AddTask` | App.jsx:17-28 | a blank input changes nothing; otherwise exactly one task is appended with the given id, the input verbatim as name, empty note, no resources and XP 0, earlier tasks and the selection keep their values and the input is cleared |
| `Handlers.AddTaskKeepsIdsUnique` | App.jsx:19-26 | a clock reading that no task carries keeps the ids unique |
| `Handlers.DeleteTask` | App.jsx:30-33 | the tasks with the id go, all others stay in order, the length drops by the number of matches and the selection is cleared whichever task was deleted |
| `Handlers.DeletePresentTask` | App.jsx:30-33 | with unique ids, deleting a present id removes exactly one task, the id is gone and ids stay unique |
| `Handlers.UpdateSelectedTask` | App.jsx:35-40 | the field is set on every task with the selected id and on the selection, nothing else changes, and a selection taken from the list equals the updated entry |
| `Handlers.AddResource` | App.jsx:42-48 | a cancelled or empty answer changes nothing; otherwise the selected task's resources become the old ones followed by the URL, written back through the field update |
| `Handlers.DeleteResource` | App.jsx:50-53 | every copy of the URL leaves the selected task's resources, the rest keep order and multiplicity, written back through the field update |
| `Handlers.GainXP` | App.jsx:55-58 | the selected task's XP rises by exactly 10, written back through the field update |
| `Handlers.PickRandomTask` | App.jsx:60-64 | on an empty list nothing changes; otherwise the task at the drawn index becomes the selection, a member of the list, and the list is unchanged |
| `Handlers.AddTaskKeepsInv` | App.jsx:17-28 | adding a task keeps the selection in the list, all XP non-negative and every name non-blank, since a new task is named by a non-blank input |
| `Handlers.DeleteTaskKeepsInv` | App.jsx:30-33 | deleting a task keeps the invariant: every remaining task was there before |
| `Handlers.StepView` | App.jsx:66-124 | `Enabled` and `Step` wire the page: the detail-view controls (note, "+ Gain XP", resource buttons, "Back", "Delete Task", lines 81-95) exist only while a task is selected and the list-view controls (random pick, cards, input, "+ Add Task", lines 103-121) only while none is; typing and adding stay in the list view, a card opens the clicked task, a random pick opens a task unless the list is empty, the edits stay in the detail view, and "Back" and "Delete Task" return to the list |
| `Handlers.NavigationKeepsInv` | App.jsx:60-64 | typing, opening a card, "Back" and the random pick keep the invariant: they select a listed task or none |
| `Handlers.GainXPKeepsInv` | App.jsx:55-58 | "+ Gain XP" keeps the invariant: XP only grows |
| `Handlers.AddResourceKeepsInv` | App.jsx:42-48 | "+ Add Resource" keeps the invariant |
| `Handlers.DeleteResourceKeepsInv` | App.jsx:50-53 | deleting a resource keeps the invariant |
| `Handlers.FreshPageInv` | App.jsx:6-11 | a fresh page with nothing stored starts with the invariant |
| `Handlers.StepKeepsInv` | App.jsx:17-64 | every user event keeps the selection inside the list, all XP non-negative and every task name non-blank |
| `Handlers.RunKeepsInv` | App.jsx:17-64 | the invariant (selection in the list, XP non-negative, names non-blank) holds after any sequence of events |
| `Handlers.DisplayedProgressInRange` | App.jsx:74 | under the invariant the detail view's bar width lies in 0..99 |
| `Handlers.UpdateKeepsIdsUnique` | App.jsx:35-40 | the field update through the selection keeps ids unique |
| `Handlers.StepKeepsIdsUnique` | App.jsx:17-64 | every event keeps ids unique when an add reads a clock value no task carries |
| `Handlers.RunKeepsIdsUnique` | App.jsx:17-64 | ids stay unique over any run in which every add reads a fresh clock value |
| `Handlers.TypeAndAddCount` | App.jsx:17-28 | typing and adding a list of names adds one task per non-blank name and stays in the list view |
| `Handlers.TypeAndAddOne` | App.jsx:17-28 | typing a name and pressing "Add" in the list view is `addTask` on that input |
| `Handlers.UpdateSelectedTwice` | App.jsx:35-40 | two updates of the same field of the selection equal one update to the second value |
| `Handlers.GainXPTimesUpdate` | App.jsx:55-58 | n > 0 presses of "+ Gain XP" equal one field update setting the selected task's XP to its old value plus 10·n: each press reads the XP the previous one wrote |
| `Handlers.GainXPTimesSelected` | App.jsx:55-58 | pressing "+ Gain XP" n times adds exactly 10·n to the selected task and changes none of its other fields |
| `Handlers.GainXPTimesTasks` | App.jsx:55-58 | after n presses the list keeps its length, tasks without the selected id are untouched, and (for n > 0) every task with it holds the selection's XP |
| `Handlers.Walkthrough` | App.jsx:17-64 | for any non-blank name: creating a task with it, opening it, gaining XP, adding and deleting a resource and deleting the task leaves an empty list and no selection |
| `AppComponent.App.constructor` | App.jsx:6-15 | the fields hold the initial state and the stored copy equals the list |
| `AppComponent.App.SetNewTaskName` | App.jsx:119 | only the input changes |
| `AppComponent.App.AddTask` | App.jsx:17-28 | the fields become `Handlers.AddTask` of the old state and the stored copy follows the list |
| `AppComponent.App.DeleteTask` | App.jsx:30-33 | the fields become `Handlers.DeleteTask` of the old state and the stored copy follows the list |
| `AppComponent.App.UpdateSelectedTask` | App.jsx:35-40 | the fields become `Handlers.UpdateSelectedTask` of the old state and the stored copy follows the list |
| `AppComponent.App.AddResource` | App.jsx:42-48 | the fields become `Handlers.AddResource` of the old state and the stored copy follows the list |
| `AppComponent.App.DeleteResource` | App.jsx:50-53 | the fields become `Handlers.DeleteResource` of the old state and the stored copy follows the list |
| `AppComponent.App.GainXP` | App.jsx:55-58 | the fields become `Handlers.GainXP` of the old state and the stored copy follows the list |
| `AppComponent.App.PickRandomTask` | App.jsx:60-64 | the fields become `Handlers.PickRandomTask` of the old state; the selection stays inside the list |
| `AppComponent.App.SelectTask` | App.jsx:106 | clicking a card selects that task and changes nothing else |
| `AppComponent.App.Back` | App.jsx:94 | "Back" clears the selection and changes nothing else |

## Left out

- Rendering, styling and the `Card`/`Button` components (App.jsx:66-124), except the view choice and the progress-bar width: these are presentation.
- `localStorage` and `JSON.parse`/`JSON.stringify`: the stored slot is a field holding the list itself, and the constructor receives the already parsed stored list (None when the slot is empty). Serialization round trips and the exception `JSON.parse` throws on a malformed value are not modelled.
- `Date.now()`, `prompt()` and `Math.random()` are parameters; the model does not promise that ids are unique (the code does not either: two adds in one millisecond collide), and states uniqueness only under an explicit freshness hypothesis.
- JavaScript numbers are IEEE doubles; ids and XP are modelled as unbounded integers, so precision loss beyond 2^53 is not captured.
- JavaScript strings are UTF-16; the model works on Unicode code points, which gives the same `trim` because every white-space character is a single UTF-16 unit.
- React's batching and effect scheduling: each handler runs to completion on the current state, and the storage effect is written as the last step of every handler that sets the list.
- `Tasks.With`: `{ ...task, [field]: value }` takes a computed field name, but the model's `Field` offers only the three names the handlers pass (`lastWork`, `resources`, `xp`). That restriction is why id and name are never touched; an update of `id` or `name` is not modelled because no caller makes one.
- The object identity of the selection: the code keeps a copy of the selected record, which the model compares by value.
