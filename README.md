# Task-list store of a minimal to-do app, in Dafny

The app keeps an insertion-ordered list of tasks. Each task is a record `{id, text, completed}`.
The list is mirrored, as one serialised value, to a single key-value storage slot under the key
`"@tasks"`. The store exists twice in the source:

- **The `useTasks` hook** (`app/hook/useTasks.ts`) is modelled by module `UseTasks`.
  - It holds the list and an `isLoading` flag.
  - On mount it seeds three default tasks, then replaces them with the stored list if there is one.
  - A save effect writes the whole list on every change, but only once loading is over.
  - `addTask` trims the text it stores.
- **The to-do screen** (`app/todo.tsx`) is modelled by module `TodoScreen`.
  - It is an older inline copy that holds the input text and the list.
  - It starts from the defaults and replaces them only when the stored text is truthy.
  - Every handler writes its new list straight to the slot, with no loading gate.
  - `addTask` stores the input untrimmed.

Shared modules:

- `JsString` models `String.prototype.trim` over the ECMAScript whitespace and line-terminator
  code points.
- `Tasks` holds the `Task` record and the seed list. It also holds the `filter` behind
  `deleteTask` (`Deleted`) and the `map` behind `toggleTaskCompletion` (`Toggled`). Both copies of
  the store use the same expressions.
- `Storage` models the slot's content:
  - `Value` is either the serialisation of a task list or text that `JSON.parse` rejects.
  - `Stringify` and `Parse` form a round trip.
  - `Truthy` is JavaScript truthiness of the stored string.
  - `Written` is the slot after a whole-value `setItem`.

Both components are classes whose fields are the React state plus the slot (`slot: Option<Value>`).
Their methods are the handlers and effects. Each method is specified by the pure list function it
applies and by what it writes to the slot. The environment enters as parameters:

- the outcome of a storage read or write is a `readFails` / `writeFails` flag;
- `Date.now().toString()` is a caller-supplied `freshId`.

Id uniqueness is not guaranteed by the code. It is proved to be preserved: by delete and toggle
unconditionally, and by add whenever `freshId` is not already in the list.

Two client methods exercise the classes through their contracts alone:

- `UseTasks.FirstSessionScenario` starts from the defaults, adds "Buy milk", toggles "1" and
  deletes "2".
- `TodoScreen.StoredListScenario` loads a stored one-task list and adds an untrimmed input.

Points where the behaviour follows from the code itself:

- The screen's `addTask` tests `task.trim()` but stores `task` as typed
  (`app/todo.tsx:53`, `app/todo.tsx:56`). Its input is never trimmed.
- The screen's load test is `if (storedTasks)` (`app/todo.tsx:34`). That is the truthiness of the
  stored string, not a test for a non-empty list. A stored empty list (`"[]"`) is therefore loaded,
  and only the empty string is skipped.
- The hook's save effect runs only when `isLoading` is false (`app/hook/useTasks.ts:42`). A failed
  or unparseable read still leaves `DEFAULT_TASKS` in the list: they are set at
  `app/hook/useTasks.ts:20`, and the `catch` at `app/hook/useTasks.ts:25` keeps them. The
  `finally` at `app/hook/useTasks.ts:28` then clears the flag, and the save effect writes the
  defaults over whatever the slot held. `UseTasks.TaskStore.Load` states this behaviour, and
  `UseTasks.FailedReadOverwritesStored` shows it for any stored list other than the defaults.

The `Task` datatype models the `Task` interface (`app/todo.tsx:14-18`, imported by the hook from
`types/ToDoInterface`). `DefaultTasks` is the hook's `DEFAULT_TASKS` (`app/hook/useTasks.ts:7-11`)
and the screen's initial state (`app/todo.tsx:24-28`). The `Tasks.DefaultTasksWellFormed` row
covers both.

## Model

| member | source | states |
|---|---|---|
| `JsString.AsciiWhitespace` | app/hook/useTasks.ts:48 | among ASCII characters, trim strips exactly the space and tab through carriage return |
| `JsString.LeadingWhitespace` | app/hook/useTasks.ts:48 | the count of leading code points trim strips: all of them whitespace, and the next one is not |
| `JsString.TrailingWhitespace` | app/hook/useTasks.ts:48 | the count of trailing code points trim strips: all of them whitespace, and the one before them is not |
| `JsString.Trim` | app/hook/useTasks.ts:48 | trim's result is empty exactly when the text is all whitespace; otherwise it neither starts nor ends with whitespace; it is the slice of the text right after its leading whitespace, and only whitespace follows it |
| `JsString.TrimIdempotent` | app/hook/useTasks.ts:51 | trimming already trimmed text changes nothing |
| `Tasks.DefaultTasksWellFormed` | app/hook/useTasks.ts:7-11 | the seed list has three records with unique ids, none completed |
| `Tasks.Appended` | app/hook/useTasks.ts:49-52 | the spread keeps the old list as an unchanged prefix and adds one last record with the given id and text, not completed; the ids present are the old ones plus the new one |
| `Tasks.AppendedKeepsUnique` | app/hook/useTasks.ts:49-52 | appending a record with a fresh id keeps ids unique |
| `Tasks.Deleted` | app/hook/useTasks.ts:57-60 | the filter keeps exactly the records whose id differs, each with its original multiplicity; no record with the id remains |
| `Tasks.DeletedKeepsOrder` | app/hook/useTasks.ts:58 | the surviving records keep their original relative order (a subsequence) |
| `Tasks.DeletedAbsent` | app/todo.tsx:65 | deleting an absent id leaves the list unchanged |
| `Tasks.DeletedIdempotent` | app/hook/useTasks.ts:58 | deleting twice equals deleting once |
| `Tasks.DeletedKeepsUnique` | app/hook/useTasks.ts:58 | deleting keeps ids unique |
| `Tasks.Flipped` | app/hook/useTasks.ts:64 | the map callback keeps id and text, and changes completed exactly when the id matches |
| `Tasks.Toggled` | app/hook/useTasks.ts:62-67 | the map keeps length and every id and text, negates completed exactly on records with the id, and leaves all other records unchanged |
| `Tasks.ToggledInvolution` | app/todo.tsx:71-73 | toggling the same id twice restores the list |
| `Tasks.ToggledAbsent` | app/hook/useTasks.ts:63-65 | toggling an absent id leaves the list unchanged |
| `Tasks.ToggledKeepsUnique` | app/hook/useTasks.ts:63-64 | toggling keeps ids unique |
| `Storage.Parse` | app/hook/useTasks.ts:23 | JSON.parse succeeds only on the text JSON.stringify produced for a list, and gives back that list |
| `Storage.Truthy` | app/todo.tsx:34 | the only falsy stored text is the empty string, which does not parse |
| `Storage.Stringify` | app/hook/useTasks.ts:37 | the serialised list parses back to the same list and is never the (falsy) empty string |
| `Storage.Written` | app/hook/useTasks.ts:35-41 | setItem replaces the slot with the whole serialised list, or leaves it untouched when the write fails |
| `UseTasks.Added` | app/hook/useTasks.ts:47-55 | whitespace-only text leaves the list unchanged; otherwise the old list is an unchanged prefix of a list one longer whose last record has the fresh id, the trimmed text and completed false |
| `UseTasks.AddedLabel` | app/hook/useTasks.ts:51 | the stored text is non-empty, has no whitespace at either end and is a slice of the input |
| `UseTasks.AddedLabelIsTrimmed` | app/hook/useTasks.ts:51 | re-adding the stored text stores the same record |
| `UseTasks.AddedKeepsUnique` | app/hook/useTasks.ts:49-51 | with a fresh id, addTask keeps ids unique |
| `UseTasks.Loaded` | app/hook/useTasks.ts:18-30 | a successful read of parseable text yields the stored list; an empty slot, a failed read or unparseable text yields the defaults |
| `UseTasks.ReloadRestoresSaved` | app/hook/useTasks.ts:21-23 | a list saved by one session is the list the next session loads |
| `UseTasks.FailedReadOverwritesStored` | app/hook/useTasks.ts:19-28 | after a failed read and the save that clearing isLoading triggers, the slot holds the defaults and no longer the stored list |
| `UseTasks.LoadedKeepsUnique` | app/hook/useTasks.ts:20-24 | the loaded list has unique ids when the stored one did |
| `UseTasks.TaskStore.constructor` | app/hook/useTasks.ts:14-15 | the hook starts with an empty list and isLoading true |
| `UseTasks.TaskStore.SaveEffect` | app/hook/useTasks.ts:34-45 | while loading nothing is written; afterwards the slot gets the entire current list |
| `UseTasks.TaskStore.Load` | app/hook/useTasks.ts:17-32 | the list becomes Loaded(slot, readFails); isLoading is false on success and failure; the loaded list (the defaults after a failure) is then written back |
| `UseTasks.TaskStore.AddTask` | app/hook/useTasks.ts:47-55 | the list becomes Added(...); whitespace-only text and the loading phase write nothing; otherwise the whole new list is saved; ids stay unique for a fresh id |
| `UseTasks.TaskStore.DeleteTask` | app/hook/useTasks.ts:57-60 | the list becomes Deleted(...), saved whole unless loading; ids stay unique |
| `UseTasks.TaskStore.ToggleTaskCompletion` | app/hook/useTasks.ts:62-67 | the list becomes Toggled(...), saved whole unless loading; ids stay unique |
| `TodoScreen.Added` | app/todo.tsx:52-62 | whitespace-only input leaves the list unchanged; otherwise one record is appended with the untrimmed input and completed false, the old list an unchanged prefix |
| `TodoScreen.AddedKeepsUnique` | app/todo.tsx:54-57 | with a fresh id, the screen's addTask keeps ids unique |
| `TodoScreen.AddedAgreesWithHookIffTrimmed` | app/todo.tsx:56 | the two addTask copies agree exactly when the input is all whitespace or has nothing to trim |
| `TodoScreen.Loaded` | app/todo.tsx:30-42 | the list is replaced only on a successful read of truthy, parseable text; otherwise, or on error, the current list stands |
| `TodoScreen.LoadedAgreesWithHook` | app/todo.tsx:34 | starting from the defaults, the screen's load gives the same list as the hook's |
| `TodoScreen.ReloadRestoresSaved` | app/todo.tsx:33-35 | a list saved by one session is the list the next session loads |
| `TodoScreen.Screen.constructor` | app/todo.tsx:23-28 | the input starts empty and the list is the three default tasks |
| `TodoScreen.Screen.ChangeText` | app/todo.tsx:110 | the input handler replaces the input text and nothing else |
| `TodoScreen.Screen.Load` | app/todo.tsx:30-42 | the list becomes Loaded(current, slot, readFails); nothing is written |
| `TodoScreen.Screen.SaveTasks` | app/todo.tsx:44-50 | the slot gets the whole given list, or stays as it was when the write fails |
| `TodoScreen.Screen.AddTask` | app/todo.tsx:52-62 | on non-blank input the record is appended untrimmed, the input cleared and the new list written; blank input changes nothing |
| `TodoScreen.Screen.DeleteTask` | app/todo.tsx:64-68 | the list becomes Deleted(...) and that list is written |
| `TodoScreen.Screen.ToggleTaskCompletion` | app/todo.tsx:70-76 | the list becomes Toggled(...) and that list is written |

## Left out

- `app/_layout.tsx` is navigation and theming wiring with no logic, so it is not part of this model.
- Rendering and styles (`renderItem`, the JSX tree, `StyleSheet.create`) are UI library calls.
  Only the input's change handler is kept, as `ChangeText`.
- AsyncStorage is an abstract slot under the single key `"@tasks"`. A read or write either succeeds
  or fails, as chosen by a flag. The storage backend itself is not modelled.
- `JSON.stringify`/`JSON.parse` are a serialisation constructor and its inverse. Stored text is
  either a serialised task list or text that does not parse. Valid JSON that is not a task list
  (for example `"5"`) is not modelled.
- `Date.now()` is the caller's `freshId`. Its freshness is a hypothesis of the uniqueness
  postconditions.
- Asynchronous scheduling and React's effect ordering are not modelled. This includes:
  - interleaving a handler with the pending load;
  - fire-and-forget writes finishing out of order.

  Each handler or effect is one atomic step, with its save (if any) at the end of the step.
- `console.error` logging is not modelled; a failure leaves the state as described.
