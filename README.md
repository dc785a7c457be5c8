# OpenToDoApp: event-sourced sync and in-memory to-do stores, in Dafny

This project models the parts of OpenToDoApp that keep and change state.

**The event-sourced web client** (`web/src`) works as follows:

- An IndexedDB log of events, keyed by event id, plus a `lastSync` watermark.
- The `projectTasks` fold turns the log into a task list.
- `toggleTask` and `createTask` append "checked" and "created" events.
- `sync` pushes every local event to the backend, pulls the events newer than the watermark, puts them into the log and advances the watermark.

**The backend's `events` table** accepts each event id once and returns the events newer than a watermark in ascending timestamp order.

**The in-memory to-do stores** each keep one list of to-dos (id, text, done):

- the axum routes in Rust
- the Express server
- the Vue/Pinia board
- the React `useLists` and `useDailyTasks` hooks
- the standalone React app, whose handlers `frontend/src/App.tsx` repeats verbatim

Each core source file has its own module, in its own form:

- Code that updates state in place is a `class`, with `modifies` and the whole new state in its `ensures`: `LocalEventStore`, `Gateway`, `AddTaskForm`, `EventTable`, `TodoRoutes`, `TodoServer` and the board `Store`.
- Loops are methods with invariants: `ProjectTasks`, `GetAllEvents`, `PushAll` and `PutPulled`.
- The React hooks and handlers are functions on values.

Shared modules:

- `Events` holds the event shape, stamping, the `timestamp > t` filter and the timestamp sort.
- `Seqs` holds an order-preserving filter: JavaScript `filter`, Rust `retain` and SQL `WHERE`.
- `JsStrings` holds `String.prototype.trim`.
- `TodoLists` holds the list operations the to-do stores share.

Inputs the code takes from outside are parameters of the model:

- clock readings (`Date.now()`)
- fresh identifiers (`crypto.randomUUID()`, `uuid()`)
- the remote peer

The remote peer is a `Gateway` object. It records the events delivered to it. Two oracles decide whether a push goes through and what a pull returns.

`projectTasks` folds events in the order the object store lists them, not in timestamp order. The model follows the code; see "## Findings".

## Model

| member | source | states |
|---|---|---|
| Events.Stamp | web/src/data/eventStore.ts:9-12 | the stored event equals the input on every field except `timestamp`, which is the clock reading at append time |
| Events.RestampKeepsAllButTimestamp | web/src/data/eventStore.ts:9-12 | re-adding a stored event changes only its timestamp; a caller-supplied timestamp is discarded |
| Events.Since | web/src/data/eventStore.ts:24 | the result is exactly the events with `timestamp > t`, and only events of the input, each at most as often as in the input |
| Events.SinceExcludesBoundary | web/src/data/eventStore.ts:24 | an event whose timestamp equals the watermark is never returned |
| Events.SinceKeepsDistinctIds | web/src/data/eventStore.ts:22-25 | filtering a list of distinct events yields distinct events |
| Events.SinceAntitone | web/src/data/eventStore.ts:22-25 | filtering by a later watermark after an earlier one equals filtering by the later one, and a later watermark never yields more events |
| Events.InsertByTimestamp | backend/src/application/sync.rs:30 | inserting into a sorted list keeps it sorted and adds exactly that event |
| Events.SortByTimestamp | backend/src/application/sync.rs:30 | the result is sorted by non-decreasing timestamp and is a permutation of the input |
| Events.SortKeepsDistinctTimestamps | backend/src/application/sync.rs:30 | sorting keeps timestamps pairwise distinct |
| Events.SortedArrangementUnique | backend/src/application/sync.rs:30 | two sorted permutations of the same events with distinct timestamps are the same sequence |
| EventStore.LocalEventStore.constructor | web/src/data/db.ts:3-8 | a new database holds no events and no watermark |
| EventStore.LocalEventStore.AddEvent | web/src/data/eventStore.ts:6-15 | puts the stamped event under its id; an existing id is overwritten and the count does not grow, a new id adds one; other ids and the watermark are unchanged |
| EventStore.AddTwice | web/src/data/db.ts:5 | two puts under one id leave one event, the last one put |
| EventStore.LocalEventStore.GetAllEvents | web/src/data/eventStore.ts:17-20 | returns every stored event exactly once, in an unspecified order |
| EventStore.LocalEventStore.GetEventsSince | web/src/data/eventStore.ts:22-25 | returns exactly the stored events newer than `t`, each once, all of them stored events |
| EventStore.LocalEventStore.SaveLastSync | web/src/data/eventStore.ts:27-30 | overwrites the watermark record; events untouched |
| EventStore.LocalEventStore.GetLastSync | web/src/data/eventStore.ts:32-36 | returns the saved watermark, or 0 when none was saved |
| EventStore.SaveThenRead | web/src/data/eventStore.ts:27-36 | after two saves the read returns the last value saved, and the events are untouched |
| TaskProjection.Project | web/src/features/tasks/TaskList.tsx:15-36 | every projected task is stored under its own id |
| TaskProjection.Step | web/src/features/tasks/TaskList.tsx:19-35 | one loop iteration: a key appears only through a task "created" event; no entry but the event's own entity changes; a non-"created" event leaves that entry as it was or only sets it completed |
| TaskProjection.KeyOrder | web/src/features/tasks/TaskList.tsx:38 | the output order lists each projected id exactly once and nothing else |
| TaskProjection.ProjectTasks | web/src/features/tasks/TaskList.tsx:15-39 | the loop returns one task per projected id, in first-insertion order, each equal to the fold's entry, and covers every projected id |
| TaskProjection.LastCreate | web/src/features/tasks/TaskList.tsx:21-29 | finds the last task "created" event for an entity, or -1 when there is none |
| TaskProjection.ProjectCharacterization | web/src/features/tasks/TaskList.tsx:18-36 | an entity is projected iff it has a task "created" event; its title is that of the last such event, and it is completed iff a "checked" event for it follows that event |
| TaskProjection.NonTaskEventsIgnored | web/src/features/tasks/TaskList.tsx:19 | dropping all events whose entity type is not "task" leaves the projection unchanged |
| TaskProjection.StepLookup | web/src/features/tasks/TaskList.tsx:18-36 | one fold step changes an entity's entry only through that entity's entry, and only for an event about it |
| TaskProjection.ProjectPerEntity | web/src/features/tasks/TaskList.tsx:18-36 | each task's projection depends only on that task's events, in their relative order |
| TaskProjection.InterleavingIrrelevant | web/src/features/tasks/TaskList.tsx:18-36 | two logs that agree on one task's events project that task alike, however the other entities' events are interleaved |
| TaskProjection.StepIdempotent | web/src/features/tasks/TaskList.tsx:31-35 | folding the same event twice in a row equals folding it once |
| TaskProjection.CheckedOnlyCompletes | web/src/features/tasks/TaskList.tsx:31-35 | a "checked" event adds no task, un-completes none, is a no-op for an absent task, and completes a present one |
| TaskProjection.ToggleTask | web/src/features/tasks/TaskList.tsx:63-75 | appends exactly one "checked" event for the id, with empty payload and device "web-device", then returns the projection of the whole log read back |
| TaskProjection.AsWrittenLosesEarlierListedCheck | web/src/features/tasks/TaskList.tsx:18 | folding in listed order: a "checked" event listed before its task's "created" event is lost, though it is later in time |
| TaskProjection.TimeOrderIgnoresStorageOrder | web/src/features/tasks/TaskList.tsx:18-36 | folding in timestamp order gives the same tasks for any listing of the same events with distinct timestamps |
| TaskProjection.ProjectInTimeOrder | web/src/features/tasks/TaskList.tsx:18-36 | the corrected fold: its tasks are exactly the entities that have a task "created" event, wherever that event is listed |
| TaskProjection.TimeOrderKeepsCheck | web/src/features/tasks/TaskList.tsx:18-36 | folding in timestamp order completes the task created at 5 and checked at 10, whichever way the two are listed |
| JsStrings.Trim | web/src/features/tasks/AddTask.tsx:16 | the result is the input without its leading and trailing white space, and it is empty iff the input is all white space |
| JsStrings.TrimIdempotent | web/src/features/tasks/AddTask.tsx:16 | trimming twice equals trimming once |
| AddTask.AddTaskForm.CreateTask | web/src/features/tasks/AddTask.tsx:15-30 | a blank title changes nothing. Otherwise exactly one "created" event is stored: the two identifiers passed in (random UUIDs in the source), the untrimmed title as payload, the store's own timestamp. The input is cleared and `onAdd` is called once |
| AddTask.AddTaskForm.constructor | web/src/features/tasks/AddTask.tsx:13 | the input starts empty and `onAdd` has not been called |
| AddTask.AddTaskForm.SetTitle | web/src/features/tasks/AddTask.tsx:36 | sets the input's value |
| AddTask.FormTimestampDiscarded | web/src/features/tasks/AddTask.tsx:24 | the timestamp the form passes has no effect on what is stored |
| AddTask.CreatedTaskAppears | web/src/features/tasks/AddTask.tsx:18-26 | after the append, the projection holds an uncompleted task with the new entity id and the untrimmed title |
| SyncEngine.Gateway.PushEvent | web/src/data/syncEngine.ts:10 | a push either throws and delivers nothing, or delivers the event after the earlier ones |
| SyncEngine.Gateway.constructor | web/src/data/syncEngine.ts:2 | the remote peer starts with nothing delivered; whether it accepts a push and what it answers to a pull are fixed oracles |
| SyncEngine.Gateway.FetchEventsSince | web/src/data/syncEngine.ts:14 | the pull answer is the peer's reply for the watermark given |
| SyncEngine.AcceptedPrefix | web/src/data/syncEngine.ts:9-11 | counts the pushes that go through before the first one that throws |
| SyncEngine.PushAll | web/src/data/syncEngine.ts:9-11 | pushes in order; exactly the accepted prefix is delivered, and it reports success iff every push went through |
| SyncEngine.PutAll | web/src/data/syncEngine.ts:16-18 | after the puts, the local ids are the old ids plus the pulled ids, other events are untouched, and events stay keyed by id |
| SyncEngine.PutAllKeepsAllButTimestamp | web/src/data/syncEngine.ts:16-18 | a pulled event is stored with every field of the last pulled event with its id, except the timestamp, which is the local clock reading |
| SyncEngine.PutPulled | web/src/data/syncEngine.ts:16-18 | the append loop leaves the log equal to the puts of every pulled event, and leaves the watermark alone |
| SyncEngine.MaxTimestamp | web/src/data/syncEngine.ts:21 | the result bounds every pulled timestamp from above and is one of them |
| SyncEngine.Sync | web/src/data/syncEngine.ts:4-24 | reads the watermark first and pushes every event present at the start, in listed order. A push that throws ends the cycle with the store untouched. The pull uses the watermark read at the start; a pull that throws ends the cycle with the store untouched. Otherwise every pulled id ends up stored. The watermark stays unchanged for an empty pull and becomes the maximal remote timestamp otherwise. Local ids only grow |
| SyncEngine.WatermarkAdvances | web/src/data/syncEngine.ts:14-22 | if the peer honours the strict filter, a non-empty pull moves the watermark strictly forward, to at least every pulled timestamp |
| BackendEvents.EventTable.InsertEvent | backend/src/application/sync.rs:4-22 | an insert fails iff the id is already present, leaving the rows as they were; otherwise it adds exactly one row equal to the event |
| BackendEvents.EventTable.constructor | backend/src/infrastructure/db.rs:21-29 | the events table starts empty, so its ids are trivially distinct (the primary key) |
| BackendEvents.EventTable.GetEventsSince | backend/src/application/sync.rs:24-49 | returns exactly the rows with `timestamp > since`, as a permutation of them, sorted by non-decreasing timestamp |
| BackendEvents.InsertedIsReturned | backend/src/application/sync.rs:29 | an inserted event is read back unchanged for every watermark below its timestamp |
| BackendEvents.LaterWatermarkFewerRows | backend/src/application/sync.rs:29 | a later watermark never yields more rows |
| BackendEvents.AnswerDeterminedByTimestamps | backend/src/application/sync.rs:30 | when the selected rows have distinct timestamps, the sorted answer is unique |
| TodoLists.NewTodo | todo-vue/src/stores/board.ts:4-10 | a new to-do has the given id and text and is not done |
| TodoLists.IndexOf | backend/src/routes/todos.rs:54-57 | returns the index of the first to-do with the id, or -1 exactly when none has it |
| TodoLists.IndexOfSeesOnlyIds | backend/src/routes/todos.rs:54-57 | the search reads only ids: two lists with the same ids in the same places give the same answer, so flipping `done` never moves a later lookup |
| TodoLists.ToggleFirst | backend/src/routes/todos.rs:54-59 | flips `done` of the first to-do with the id only; with no match the list is unchanged |
| TodoLists.ToggleFirstTwice | backend/src/routes/todos.rs:54-61 | toggling the same id twice restores the list |
| TodoLists.ToggleMatching | todo-app/src/App.tsx:43-47 | flips `done` of exactly the entries with the id; ids, texts, order and length are kept. The same handler is copied at frontend/src/App.tsx:88-92, and `toggleTask` at frontend/src/features/dailyTasks/useDailyTasks.ts:17-22 does the same |
| TodoLists.ToggleMatchingTwice | todo-app/src/App.tsx:43-47 | toggling the same id twice is the identity; the same holds for frontend/src/App.tsx:88-92 and for `useDailyTasks`'s `toggleTask` |
| TodoLists.ToggleMatchingAbsent | todo-app/src/App.tsx:45 | toggling an id no entry carries changes nothing |
| TodoLists.RemoveMatching | backend/src/routes/todos.rs:71 | drops exactly the to-dos with the id, keeps every other one in order, and shrinks the list iff the id was present. The same filter is at backend/nodejs/index.js:41, todo-app/src/App.tsx:49-51 and frontend/src/App.tsx:94-96 |
| TodoLists.RemoveMatchingKeepsOrder | todo-app/src/App.tsx:49-51 | removal distributes over concatenation, so the survivors keep their order |
| TodoLists.RemoveMatchingIdempotent | backend/src/routes/todos.rs:71 | removing an id twice equals removing it once |
| TodoLists.RemoveFirst | todo-vue/src/stores/board.ts:32-35 | `findIndex` plus `splice` removes only the first task with the id: the length drops by exactly one and the rest keep their order; an absent id changes nothing |
| TodoLists.RemoveFirstKeepsLaterDuplicates | todo-vue/src/stores/board.ts:33-34 | a later task with the same id survives |
| TodoLists.ClearDone | todo-app/src/App.tsx:53-55 | keeps exactly the undone entries, all from the input, and as many as the one-by-one count of undone entries; frontend/src/App.tsx:98-100 is the same |
| TodoLists.ClearDoneKeepsOrder | todo-app/src/App.tsx:53-55 | clearing a concatenation clears each part, so the kept to-dos stay in their order; with the count in `ClearDone` this pins the result down to the ordered filter |
| TodoLists.ClearDoneIdempotent | todo-app/src/App.tsx:53-55 | clearing twice equals clearing once |
| TodoLists.Remaining | todo-app/src/App.tsx:57 | the counter equals the number of undone entries, counted one by one; frontend/src/App.tsx:102 is the same |
| TodoLists.RemainingCounts | todo-app/src/App.tsx:57 | the length of the undone filter equals the one-by-one count of undone entries |
| TodoLists.RemainingAfterClear | todo-app/src/App.tsx:53-57 | after `clearCompleted` the counter equals the list length |
| TodoRouter.TodoRoutes.GetTodos | backend/src/routes/todos.rs:26-29 | returns the whole list unchanged |
| TodoRouter.TodoRoutes.constructor | backend/src/state/app_state.rs:9-14 | the shared vector starts empty |
| TodoRouter.TodoRoutes.CreateTodo | backend/src/routes/todos.rs:31-46 | appends one undone task with the text and a fresh id at the end, and answers 201 with it |
| TodoRouter.TodoRoutes.ToggleTodo | backend/src/routes/todos.rs:48-62 | a missing id answers 404 and changes nothing; otherwise it flips the first match and answers with the updated task |
| TodoRouter.TodoRoutes.DeleteTodo | backend/src/routes/todos.rs:64-78 | removes every task with the id; answers 404 iff nothing was removed and 204 otherwise |
| TodoRouter.ToggleTwice | backend/src/routes/todos.rs:54-61 | two toggle requests for one id restore the list |
| TodoRouter.CreateThenToggle | backend/src/routes/todos.rs:37-59 | a freshly created task is found by the next toggle, which completes it |
| ExpressTodos.TodoServer.GetTodos | backend/nodejs/index.js:14-16 | returns the current array |
| ExpressTodos.TodoServer.constructor | backend/nodejs/index.js:11 | the in-memory array starts empty |
| ExpressTodos.TodoServer.PostTodo | backend/nodejs/index.js:19-28 | appends `{id, text, done: false}` with a fresh id and answers 201 with it |
| ExpressTodos.TodoServer.PatchTodo | backend/nodejs/index.js:31-37 | an unknown id answers 404 and changes nothing; otherwise it flips the first match and answers with it |
| ExpressTodos.TodoServer.DeleteTodo | backend/nodejs/index.js:40-43 | removes every to-do with the id and always answers 204 |
| ExpressTodos.PatchTwice | backend/nodejs/index.js:31-37 | two PATCH requests for one id restore the array |
| ExpressTodos.DeleteAbsent | backend/nodejs/index.js:40-43 | deleting an absent id still answers 204 and changes nothing |
| BoardStore.WithTasks | todo-vue/src/stores/board.ts:13-17 | replacing one task array leaves every other array, and every list's id and title, as they were |
| BoardStore.ToggleAt | todo-vue/src/stores/board.ts:28-30 | flips `done` of that one task and leaves every other task alone |
| BoardStore.ToggleAtTwice | todo-vue/src/stores/board.ts:28-30 | flipping a task twice restores it |
| BoardStore.Store.constructor | todo-vue/src/stores/board.ts:13-17 | the board starts with three empty arrays |
| BoardStore.Store.AddDaily | todo-vue/src/stores/board.ts:20-22 | appends one undone task to `daily`; the other arrays are untouched |
| BoardStore.Store.AddTodo | todo-vue/src/stores/board.ts:24-26 | appends one undone task to `todos`; the other arrays are untouched |
| BoardStore.Store.ToggleTask | todo-vue/src/stores/board.ts:28-30 | flips the one task in its array; nothing else changes |
| BoardStore.ToggleTwice | todo-vue/src/stores/board.ts:28-30 | toggling the same task twice leaves the whole board as it was |
| BoardStore.Store.RemoveTask | todo-vue/src/stores/board.ts:32-35 | removes the first task with the id from that array only; an absent id changes nothing |
| BoardStore.Store.AddList | todo-vue/src/stores/board.ts:37-43 | appends a list with no items; the columns are untouched |
| BoardStore.Store.AddListItem | todo-vue/src/stores/board.ts:45-47 | appends one undone task to that list's items only |
| UseLists.AddList | frontend/src/features/lists/useLists.ts:11-12 | appends `{id, title, items: []}` at the end and keeps the earlier lists |
| UseLists.AddSubItem | frontend/src/features/lists/useLists.ts:14-27 | each matching list gets one undone item at the end; the other lists and the number of lists are unchanged |
| UseLists.AddSubItemUnknownList | frontend/src/features/lists/useLists.ts:16-26 | an unknown list id leaves the state unchanged |
| UseLists.ToggleSubItem | frontend/src/features/lists/useLists.ts:29-41 | flips the matching items in the matching lists only |
| UseLists.ToggleSubItemTwice | frontend/src/features/lists/useLists.ts:29-41 | applying it twice is the identity |
| UseLists.ToggleSubItemKeepsLengths | frontend/src/features/lists/useLists.ts:29-41 | no list's item count changes |
| UseDailyTasks.AddTask | frontend/src/features/dailyTasks/useDailyTasks.ts:15-16 | appends `{id, text, done: false}` at the end; the length grows by one |
| UseDailyTasks.Apply | frontend/src/features/dailyTasks/useDailyTasks.ts:8-22 | the mount effect empties the array; `addTask` appends one undone task with the given id and text; `toggleTask` keeps the length; neither action changes the id or text of an existing task |
| UseDailyTasks.Replay | frontend/src/features/dailyTasks/useDailyTasks.ts:6-22 | starting from `useState([])`, every task in the state was added by some `addTask` with that id and text: the hook never invents a task |
| UseDailyTasks.ReplayLength | frontend/src/features/dailyTasks/useDailyTasks.ts:6-22 | starting from empty, the number of tasks is the number added since the last mount |
| UseDailyTasks.MountForgets | frontend/src/features/dailyTasks/useDailyTasks.ts:8-11 | the mount effect resets the state: nothing before it matters |
| TodoApp.HandleAdd | todo-app/src/App.tsx:29-41 | blank input changes nothing. Otherwise the trimmed text becomes a new undone to-do at index 0, the earlier to-dos follow unchanged, and the input is cleared. frontend/src/App.tsx:74-86 is the same handler |
| TodoApp.AddedTextIsTrimmed | todo-app/src/App.tsx:31-32 | a to-do is added iff the input has a non-white-space character; its text is non-empty and has no surrounding white space |
| TodoApp.SecondSubmitIgnored | todo-app/src/App.tsx:40 | a submit right after a successful one adds nothing, because the input was cleared |

## Left out

- IndexedDB, localStorage, SQLite and HTTP:
  - Each store is a map, a sequence or an object whose fields the methods update.
  - The remote peer is the `Gateway` oracle.
  - Request failures are `false` or `None` results.
  - JSON and UUID text conversions are treated as the identity.
- `getAll` order: IndexedDB lists records by key. The model leaves the order unspecified and proves what holds for every order.
- Failures of the local store: an `addEvent` or `saveLastSync` that throws is not modelled, so a cycle that fails in the pull has no appends to keep.
- `pushEvent`: its HTTP status is ignored by the client, and the model likewise only knows whether the request threw.
- The backend's `Event` type takes `id`, `entity_id` and `device_id` as UUIDs. The web client sends `device_id` "web-device", so its pushes would be rejected when the request body is parsed. That cross-component mismatch is not modelled: both sides share one event type with text ids.
- Payloads are modelled as maps from text to text. `TitleOf` gives `None` where JavaScript reads `undefined`.
- Object property-order quirks of `Object.values` are not modelled:
  - entity ids that look like array indices
  - ids such as `__proto__`
  - The model uses first-insertion order, which is right for UUID keys.
- Integer widths are not modelled. These are unbounded integers:
  - JavaScript numbers (`Date.now()`, timestamps)
  - the Rust `i64` timestamp
- Strings are sequences of Unicode scalar values, not UTF-16 code units. `JsStrings.Trim` uses the white-space set of `String.prototype.trim`.
- Concurrency is not modelled: the `Mutex` around the Rust list, async interleavings in the web client, concurrent React updates.
- BoardStore.Store.ToggleTask: a task passed by reference is modelled by its location (array and index). A task object shared by two arrays (aliasing) is not modelled.
- UseLists.AddSubItem: `uuid()` runs once per matching list. The model uses one fresh id for all of them, which differs only when several lists share the id.
- ExpressTodos.TodoServer.PostTodo: `req.body.text` is stored whatever its type. The model takes text only.
- The UI rendering, loading and saving the React app's list from localStorage, and the fetch test in frontend/src/App.tsx are not part of this model.

## Findings

| source | as written | input that shows it | evidently intended | confidence | as-written member | corrected member |
|---|---|---|---|---|---|---|
| web/src/features/tasks/TaskList.tsx:18 | `projectTasks` folds the events in the order `getAllEvents` lists them. That is the object store's key order, and keys are random UUIDs, so the order is unrelated to time. A "checked" event listed before its task's "created" event is dropped. | "created" for e1 at time 5 and "checked" for e1 at time 10, where the checked event's id sorts first: `[checked@10, created@5]` projects e1 as not completed | fold in ascending timestamp order, so e1 ends completed for any listing | high; not executed | TaskProjection.AsWrittenLosesEarlierListedCheck | TaskProjection.TimeOrderKeepsCheck |

In the model, `TaskProjection.ProjectTasks` and `TaskProjection.ToggleTask` follow the code as written. `TaskProjection.ProjectInTimeOrder` is the intended fold. `TaskProjection.TimeOrderIgnoresStorageOrder` proves that, whenever timestamps are distinct, its result does not depend on the listing.
