# To-do list state core, modelled in Dafny

This project models the state logic of the single `App` component of a
React to-do app (`todo-app/src/App.tsx`): the five list operations its
event handlers apply to the `Todo[]` list (add, delete, toggle, save-edit,
clear completed), the transient editing selection (`editingId`,
`editingText`), and the load/save lifecycle against `localStorage`, gated
by the `isInitialized` flag. Everything is pure: the component's state is a
`State` record, each user action is a transition function, and React's
effects are explicit steps.

Files:

- `wrappers.dfy` — `Option`, the model's `null`.
- `text.dfy` — ECMAScript whitespace and `String.prototype.trim`.
- `seqs.dfy` — `Filter` (the array `filter`) and the subsequence order it keeps.
- `todos.dfy` — the `Todo` record, the list operations, the seed list, clock ids.
- `app.dfy` — the component state, the load and save effects, the handlers, action runs.

Modelling decisions:

- `Todo` is `Todo(id, title, isCompleted, createdAt)`; the type file the
  component imports is not part of this model.
- Ids are NOT assumed unique. Toggle, rename and delete act on every element
  whose id matches, as `map` and `filter` do. An id is `Date.now().toString()`,
  modelled as `ClockId`, the decimal rendering of a clock reading passed in
  as a parameter. `ClockIdInjective` shows ids are unique exactly when clock
  readings are. `SameTickAddsCollide` shows two adds in one millisecond share
  an id, and one delete then removes both. The component relies on unique
  ids: it renders the list with `key={todo.id}` (`todo-app/src/App.tsx:153`),
  and React keys must be unique among siblings. The code does not ensure it,
  and the model follows the code.
- Local storage is a `map<string, string>`; the app uses only the key
  `"todos"` (`StorageKey`). `JSON.parse`/`JSON.stringify` are the two fields
  of a `Codec` parameter; `parse` answers `None` where `JSON.parse` throws.
- An absent key and a stored empty string both give the seed list, because
  the code tests the stored value for truthiness. Only a non-empty value is
  parsed.
- The save effect runs after every handler that calls `setTodos`. That is
  add with a non-blank draft, delete, toggle, clear completed, and save-edit
  with a non-blank buffer. On mounting, the effects run in the order the
  component declares them, so the load effect runs first. The save effect of
  that first commit still sees the first render's `isInitialized`, which is
  false, so it writes nothing (`FirstCommitSaveWritesNothing`). The load
  effect's state updates cause a re-render, and that render's save effect
  writes the loaded list (`Mount`).
- Save-edit renames through `editingId`, which may be `null`
  (`Option.None`); then no element matches and the list is unchanged.

## Model

| member | source | states |
|---|---|---|
| Text.Trim | todo-app/src/App.tsx:49-52 | the trim is a contiguous piece of the input with only whitespace cut away on either side, has no whitespace at either end, and is empty exactly when the input is blank (the falsy case of `newTodo.trim()`) |
| Text.IsWhitespace | todo-app/src/App.tsx:49 | a character is one `trim` removes exactly when it is in the table of ECMAScript WhiteSpace and LineTerminator code points (TAB, VT, FF, ZWNBSP, the Zs spaces, LF, CR, LS, PS) |
| Text.SkipStart | todo-app/src/App.tsx:49 | the scan stops at the first character that is not whitespace, and everything it passes over is whitespace |
| Text.SkipEnd | todo-app/src/App.tsx:49 | the backward scan stops just after the last character that is not whitespace, and everything it passes over is whitespace |
| Text.TrimUnique | todo-app/src/App.tsx:52 | any trimmed core surrounded by blank text is the trim of that text, so the contract of `Trim` determines it |
| Text.TrimIdempotent | todo-app/src/App.tsx:52 | trimming an already trimmed title changes nothing |
| Seqs.Filter | todo-app/src/App.tsx:63 | `filter` keeps the relative order, keeps every occurrence of each accepted element and drops every rejected one |
| Seqs.FilterUnique | todo-app/src/App.tsx:236 | a subsequence with the multiset `Filter` promises is the filter itself, so that contract fully specifies the result |
| Seqs.FilterIdempotent | todo-app/src/App.tsx:236 | filtering twice with the same predicate equals filtering once |
| Todos.ClockId | todo-app/src/App.tsx:51 | `Date.now().toString()` gives a non-empty string of decimal digits with no leading zero |
| Todos.ClockIdRoundTrip | todo-app/src/App.tsx:51 | reading the id back as a decimal number gives the clock reading it was made from |
| Todos.ClockIdInjective | todo-app/src/App.tsx:51 | two clock readings give the same id if and only if they are equal |
| Todos.SameTickAddsCollide | todo-app/src/App.tsx:50-56 | two non-blank adds in the same millisecond produce two heads with the same id, the list loses unique ids, and one delete removes both new tasks |
| Todos.AddTodo | todo-app/src/App.tsx:48-56 | blank text leaves the list unchanged; otherwise the list grows by one, the new head has the given id and timestamp, is open and has the trimmed non-empty title, and the tail is the old list |
| Todos.DeleteTodo | todo-app/src/App.tsx:62-64 | no element with the id remains; every other element stays, as often as before and in its relative order |
| Todos.DeleteAbsentIsNoOp | todo-app/src/App.tsx:62-64 | deleting an id that is not in the list changes nothing |
| Todos.DeleteIdempotent | todo-app/src/App.tsx:62-64 | deleting the same id twice equals deleting it once |
| Todos.DeleteUndoesFreshAdd | todo-app/src/App.tsx:48-64 | deleting the id just added, when no other task had it, gives back the list from before the add |
| Todos.DeleteDropsMatchingHead | todo-app/src/App.tsx:63 | a head element carrying the deleted id disappears and the rest is filtered as before |
| Todos.ToggleComplete | todo-app/src/App.tsx:67-71 | length and order are kept; id, title and timestamp never change; the completion flag flips exactly on the elements whose id matches |
| Todos.ToggleInvolution | todo-app/src/App.tsx:67-71 | toggling the same id twice restores the list |
| Todos.RenameTodos | todo-app/src/App.tsx:82-84 | length and order are kept; id, flag and timestamp never change; exactly the elements whose id equals the editing id take the new title |
| Todos.RenameNoTargetIsNoOp | todo-app/src/App.tsx:83 | with a `null` editing id no element is renamed |
| Todos.RenameIdempotent | todo-app/src/App.tsx:82-84 | renaming twice to the same title equals renaming once |
| Todos.ClearCompleted | todo-app/src/App.tsx:236 | exactly the open elements remain, each as often as before and in their relative order; no completed element is left |
| Todos.ClearCompletedIdempotent | todo-app/src/App.tsx:236 | clearing completed tasks twice equals clearing them once |
| Todos.ClearCompletedNoneDone | todo-app/src/App.tsx:233-236 | with no completed task, clearing changes nothing |
| Todos.Seed | todo-app/src/App.tsx:21-25 | the seed has three tasks with ids "1", "2", "3" and flags false, true, false; timestamps are before the clock reading and strictly decreasing (newest first); titles are trimmed and non-empty; ids are unique |
| Todos.SubsequenceKeepsUniqueIds | todo-app/src/App.tsx:63 | a list obtained by removing elements from a list with unique ids has unique ids |
| Todos.AddFreshKeepsUniqueIds | todo-app/src/App.tsx:50-56 | adding under an id not yet in the list keeps ids unique |
| Todos.EditsKeepUniqueIds | todo-app/src/App.tsx:62-84 | delete, toggle, rename and clear completed never introduce a duplicate id |
| Todos.AddKeepsWellFormed | todo-app/src/App.tsx:49-56 | adding keeps every title trimmed and non-empty |
| Todos.SubsequenceKeepsWellFormed | todo-app/src/App.tsx:63 | a list obtained by removing elements from a list of trimmed non-empty titles has only trimmed non-empty titles |
| Todos.RemovalsKeepWellFormed | todo-app/src/App.tsx:62-64 | delete and clear completed keep every title trimmed and non-empty |
| Todos.UpdatesKeepWellFormed | todo-app/src/App.tsx:67-84 | toggling, and renaming to a trimmed non-empty title, keep every title trimmed and non-empty |
| App.Initial | todo-app/src/App.tsx:6-10 | the component starts with an empty list, an empty draft, no edit selection, not initialised, over the storage the browser already holds |
| App.LoadedTodos | todo-app/src/App.tsx:13-36 | an absent or empty saved value gives the seed list; a value that fails to parse gives the seed list; a value that parses gives the parsed list verbatim |
| App.Load | todo-app/src/App.tsx:13-38 | the load effect reads storage without writing it, replaces the list by the loaded one and always sets `isInitialized` |
| App.SaveEffect | todo-app/src/App.tsx:41-45 | before initialisation nothing is written; afterwards storage holds the serialised full list under `"todos"`, overwriting the old value, and every other key and every other field is untouched |
| App.FirstCommitSaveWritesNothing | todo-app/src/App.tsx:10-45 | the save effect of the first commit reads the first render's `isInitialized`, which is false, and leaves storage as it was |
| App.Mount | todo-app/src/App.tsx:10-45 | after mounting the component is initialised, storage is in step with the list, and the list is what storage held before mounting, so nothing was saved before it was read |
| App.SubmitNewTodo | todo-app/src/App.tsx:48-59 | a blank draft changes nothing; otherwise the list gains exactly one task, the draft is cleared and nothing else changes |
| App.StartEdit | todo-app/src/App.tsx:74-77 | the selection becomes the task's id with its title in the buffer; nothing else changes |
| App.SaveEdit | todo-app/src/App.tsx:80-88 | the selection ends in every case; a blank buffer leaves the list as it was, a non-blank one renames the selected tasks to the trimmed buffer; draft, flag and storage are untouched |
| App.CancelEdit | todo-app/src/App.tsx:91-94 | the selection ends and nothing else changes |
| App.Handle | todo-app/src/App.tsx:48-94 | typing in the new-task input replaces only the draft (line 129); typing in the edit input replaces only the buffer (line 176); delete, toggle and Clear Completed (line 236) replace only the list; add, start, save and cancel edit are their handlers; no handler touches the flag or storage |
| App.SetsTodos | todo-app/src/App.tsx:41-94 | `setTodos` is called by delete, toggle and clear completed, by add with a non-blank draft, and by save with a non-blank buffer; a handler that does not call it leaves the list unchanged, so only these re-run the save effect, whose dependencies are the list and the flag (line 45) |
| App.Step | todo-app/src/App.tsx:41-94 | no action sets `isInitialized` or writes storage before loading; once storage holds the serialised list it keeps doing so; an action that does not set the list leaves it unchanged |
| App.Run | todo-app/src/App.tsx:41-45 | over any sequence of actions: the flag never changes, nothing is written before loading, and storage stays in step with the list |
| App.ReloadRestoresList | todo-app/src/App.tsx:13-45 | from an initialised state whose storage is in step with its list, reloading the page gives back that list, provided the codec round-trips it |
| App.SessionSurvivesReload | todo-app/src/App.tsx:13-45 | after mounting over any storage and any sequence of actions, reloading the page gives back the list the session ended with, whenever the codec round-trips it |
| App.CancelledEditChangesNothing | todo-app/src/App.tsx:74-94 | from a state with no edit selected, starting an edit, typing, and cancelling returns exactly to the state before |
| App.BlankSaveKeepsTitles | todo-app/src/App.tsx:80-88 | saving a blank buffer writes nothing, changes no title, and ends the selection |
| App.StepKeepsWellFormed | todo-app/src/App.tsx:48-94 | every action keeps all titles trimmed and non-empty |
| App.StepKeepsUniqueIds | todo-app/src/App.tsx:48-94 | every action keeps ids unique, provided an add's clock reading renders to an id not yet in the list |

## Left out

- Rendering: JSX, Tailwind classes, the Personal/Professional tabs, the empty-list message, and the disabled Add button. The Enter key reaches `addTodo` even when the button is disabled. The handler's own blank check is modelled.
- `localStorage` internals and JSON: storage is a map, and parsing and serialising are `Codec` parameters.
- A parsed value that is not an array of tasks: `JSON.parse("null")` succeeds, and the component would then hold a non-array. The model's `parse` either yields a task list or fails.
- A `setItem` that throws, for example when the storage quota is exceeded: the model's write always succeeds.
- `console.error` logging on a parse failure.
- Clock reads: `Date.now()` is a parameter. An add takes two readings, one for the id and one for `createdAt`. The seed's three reads are one `now`.
- Negative clock readings: `Date.now()` is negative on a clock set before 1970, and `toString()` then starts with `'-'`. The model's reading is a `nat`, because a negative reading is not expected in practice.
- `Number.prototype.toString` for readings of 10^21 ms or more, which uses exponent notation: `ClockId` renders plain decimal digits.
- UTF-16: JavaScript strings are UTF-16 code units, and `char` here is a Unicode scalar value. Every whitespace character `trim` removes is a single code unit, so trimming agrees.
- React scheduling: batching, re-render order, Strict Mode double effects, and dependency comparison by reference. Effects are explicit steps, run in the order the component declares them.
- Todos.Seed: the contract does not repeat the three Persian titles. They appear only in its definition, with the zero-width non-joiner of the second title written as an escape.
