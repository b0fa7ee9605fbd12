# Todo boards: ownership, validation and list reconciliation

This project models the core of a small todo application. Signed-in users own boards, and boards hold todos.
The model covers four parts:

- **Backend controllers.** A document store holds two collections, boards and todos. Each REST handler is a
  method of the class `Controllers.Store`. A handler checks that the record exists, then that the caller owns
  it, then lets the schema validate the change. Deleting a board deletes its todos first.
  Each handler returns an `Outcome`, and `Responses.Respond` turns that into the HTTP reply.
- **Schemas.** `BoardModel` and `TodoModel` hold the Mongoose schemas as datatypes and validity predicates.
  They also hold the create and update operations that trim, apply defaults and validate, and the text of
  the validation error.
- **Middleware.** `AuthMiddleware.Protect` is the bearer-token guard. `ErrorHandler.Handle` is the central
  error responder.
- **Frontend.** The handlers of the three React components are pure functions. Each takes the component's
  state and the API's reply, and returns the request it sends and the next state. `TodoListView` covers the
  filtered list of one board, `BoardListView` the board sidebar and its selection, and `TodoItemView` one
  row with its toggle, edit, cancel and delete.

The supporting modules are:

- `Wrappers`: Option and Result.
- `Strings`: JavaScript `trim`, `toLowerCase`, `startsWith`, and `split`/`join` on one character.
- `Lists`: the `filter`/`map` by `_id` idioms, with subsequence and uniqueness facts.
- `Documents`: ids and validation messages.
- `Scenarios`: one whole session, end to end.

External inputs become parameters:

- The caller's uid is `uid`.
- The database clock is `now`; `createdAt` is a natural number used only for ordering.
- Firebase's readiness is a boolean.
- `verifyIdToken` is an uninterpreted function.
- An API reply is an `Option`, where `None` means the request failed and an alert was shown.

The store's ids come from one counter, so they are unique across both collections, as ObjectIds are.

Where the code and the documented behaviour of the service differ, the model follows the code:

- **Short board names.** A board name that is non-empty but shorter than three UTF-16 code units after trimming
  passes the controller's `!name` test. The schema validator then throws a `ValidationError`, and no status
  has been set on the response at that point. The error handler turns the default 200 into 500, so the
  client gets 500, not the documented 400. `Controllers.Store.CreateBoard` states this outcome as
  `Thrown(...)`, and `Responses.Respond` maps `Thrown` to 500. The same holds for every validation failure
  inside `findByIdAndUpdate`.
- **Ownership fields in update bodies.** An update body can set `userId`, and for todos also `boardId`,
  because both are schema paths. `BoardModel.Patch` and `TodoModel.Patch` include them, so an owner can hand
  a record to another uid.

## Model

| member | source | states |
|---|---|---|
| Controllers.Store.GetBoards | backend/src/controllers/boardController.js:7-14 | answers 200 with exactly the caller's boards, each once, ordered by `createdAt` descending |
| Controllers.Store.CreateBoard | backend/src/controllers/boardController.js:19-37 | a missing or empty name gives 400 and changes nothing; otherwise it succeeds iff the trimmed name has a JavaScript length (UTF-16 code units) of at least 3 and the uid is non-empty, and a failure is the schema's thrown validation error (500); on success exactly one board is added, under a fresh id, with name trimmed, `userId` set to the caller and `createdAt` set to now, and the reply is 201; todos are untouched; the store stays consistent |
| Controllers.Store.UpdateBoard | backend/src/controllers/boardController.js:42-67 | an absent id gives 404 before any ownership check; another user's board gives 401; otherwise the reply is the schema update's result, and on success only that board changes; on failure the boards are unchanged; todos are never touched |
| Controllers.Store.DeleteBoard | backend/src/controllers/boardController.js:72-95 | 404 comes before 401; it succeeds iff the board exists and is the caller's; on success the board is removed along with exactly the todos whose `boardId` is that board, so no stored todo still carries its id, and everything else is unchanged; on failure nothing changes |
| Controllers.Store.GetTodos | backend/src/controllers/todoController.js:7-38 | 404 for a missing board, then 401 for another user's board; on success exactly the stored todos matching the query, each once, newest first |
| Controllers.Store.CreateTodo | backend/src/controllers/todoController.js:43-76 | a missing or empty title gives 400 before the board lookup; then 404, then 401; it succeeds iff the trimmed title is non-empty, and on an owned board any other outcome is the schema's thrown validation error (500); the new todo is pending, owned by the caller, on the route's board, with title and description trimmed; exactly one todo is added; boards are untouched |
| Controllers.Store.UpdateTodo | backend/src/controllers/todoController.js:81-105 | the todo is found by its own id and its own `userId` is checked: 404, then 401; otherwise the reply is the schema update's result, and only that todo changes |
| Controllers.Store.DeleteTodo | backend/src/controllers/todoController.js:110-130 | 404, then 401; it succeeds iff the todo exists and is the caller's; on success exactly that todo is removed, and the other todos and all boards are unchanged |
| Controllers.StatusFilter | backend/src/controllers/todoController.js:24-30 | narrows to pending (or completed) iff the status value lower-cases to "pending" (or "completed") |
| Controllers.StatusFilterNarrowsOnlyOnEnum | backend/src/controllers/todoController.js:24-30 | an absent status, or one that lower-cases to neither enum value ("all", "", anything else), selects every todo of the board |
| Controllers.StatusFilterSelects | backend/src/controllers/todoController.js:24-30 | a status that lower-cases to an enum value selects exactly the board's todos with that status |
| Controllers.StatusFilterCaseInsensitive | backend/src/controllers/todoController.js:26-27 | "COMPLETED" and "Pending" narrow like their lower-case forms; "all" and "bogus" do not narrow |
| Controllers.InsertNewestFirst | backend/src/controllers/todoController.js:32 | inserting one key into a newest-first list keeps it newest-first, adds exactly that key and keeps the keys distinct |
| Controllers.FindNewestFirst | backend/src/controllers/boardController.js:9 | `find(filter).sort({ createdAt: -1 })`: exactly the keys whose document matches, each once, newest first |
| Controllers.Lookup | backend/src/controllers/boardController.js:9 | the documents for the found keys, in the same order |
| Controllers.RemoveBoardTodos | backend/src/controllers/boardController.js:88 | `deleteMany({ boardId })` keeps exactly the todos of other boards, unchanged |
| Controllers.AddBoardKeepsConsistent | backend/src/controllers/boardController.js:28-31 | storing a valid board under the next id keeps every record keyed by its own id, valid, below the counter, with ids unique across both collections |
| Controllers.AddTodoKeepsConsistent | backend/src/controllers/todoController.js:64-70 | the same for a new todo |
| Responses.Respond | backend/src/controllers/boardController.js:23-35 | success outcomes are sent as 200 or 201 with their data; 400, 404 and 401 keep their status; a throw with no status set becomes 500; every failure carries `success: false` and the thrown message |
| ErrorHandler.Handle | backend/src/middleware/errorHandler.js:1-11 | status 200 becomes 500, any other status is kept; `success` is false and `error` is the message; `stack` is null in production and the error's stack otherwise |
| ErrorHandler.HandleNeverOk | backend/src/middleware/errorHandler.js:2 | the responder never answers with 200 |
| AuthMiddleware.Protect | backend/src/middleware/authMiddleware.js:3-29 | a header that is absent or lacks the "Bearer" prefix gives 401 "no token"; an uninitialised provider gives 500; a rejected token gives 401 "token failed"; `next` runs iff verification succeeds, and `req.user` is then the decoded token |
| AuthMiddleware.Token | backend/src/middleware/authMiddleware.js:11 | there is a token exactly when the header contains a space, and the token contains no space |
| AuthMiddleware.TokenIsSecondField | backend/src/middleware/authMiddleware.js:11 | the token starts right after the header's first space and ends at the next space or at the end of the header |
| AuthMiddleware.NoBearerIgnoresProvider | backend/src/middleware/authMiddleware.js:6-8 | without a bearer header, neither the provider's readiness nor the verifier affects the outcome |
| AuthMiddleware.NotReadyIgnoresVerifier | backend/src/middleware/authMiddleware.js:14-17 | the readiness check comes before verification: when not ready, the verifier does not affect the outcome |
| AuthMiddleware.WellFormedHeaderToken | backend/src/middleware/authMiddleware.js:11 | "Bearer t", with `t` free of spaces, passes the prefix check and hands exactly `t` to the verifier |
| AuthMiddleware.DoubleSpaceToken | backend/src/middleware/authMiddleware.js:11 | "Bearer  t" (two spaces) hands the empty string to the verifier |
| BoardModel.NameError | backend/src/models/Board.js:4-9 | the name validators pass iff the (trimmed) name has a JavaScript length of at least 3 UTF-16 code units |
| Documents.UserIdError | backend/src/models/Board.js:10-14 | the required `userId` path, which both schemas declare alike, passes iff it is non-empty |
| BoardModel.Create | backend/src/models/Board.js:3-17 | creation succeeds iff the trimmed name has a JavaScript length of at least 3 and `userId` is non-empty; the document stored is valid and holds the trimmed name |
| BoardModel.Update | backend/src/controllers/boardController.js:57-61 | an update succeeds iff the paths the body sets pass their validators; it sets exactly those paths (name trimmed), keeps id and `createdAt`, and keeps a valid board valid |
| BoardModel.NameLengthBoundary | backend/src/models/Board.js:7 | for a name with nothing to trim, creation succeeds exactly when its JavaScript length is 3 or more, which within the Basic Multilingual Plane means 3 or more characters |
| BoardModel.AcceptedIffLongEnough | backend/src/models/Board.js:7 | a short name without whitespace is accepted exactly when its JavaScript length reaches 3 |
| BoardModel.SurrogatePairsCountTwice | backend/src/models/Board.js:7 | "a" followed by an emoji (length 3) is accepted, while the emoji alone (length 2) and "ab" are rejected |
| TodoModel.ParseStatus | backend/src/models/Todo.js:14-18 | the enum admits exactly "pending" and "completed", and parsing inverts `StatusName` |
| TodoModel.TitleError | backend/src/models/Todo.js:4-8 | the title validator passes iff the trimmed title is non-empty |
| TodoModel.StatusError | backend/src/models/Todo.js:14-18 | the status validator passes iff the value is an enum value |
| TodoModel.StoredDescription | backend/src/models/Todo.js:9-13 | a given description is stored as its trim, and a missing one defaults to the empty string |
| TodoModel.Create | backend/src/models/Todo.js:3-32 | creation succeeds iff the trimmed title is non-empty, the status (if given) is an enum value and `userId` is non-empty; the document is valid, with title and description trimmed and status defaulting to pending |
| TodoModel.BlankTitleFails | backend/src/controllers/todoController.js:64-70 | with status 'pending' and a non-empty `userId`, a title that trims to nothing fails validation, and the message names only the title as required |
| TodoModel.Update | backend/src/controllers/todoController.js:95-99 | an update succeeds iff the paths the body sets pass their validators; it sets exactly those paths, trimming the strings, keeps id and `createdAt`, and keeps a valid todo valid |
| TodoModel.StatusOnlyUpdate | backend/src/controllers/todoController.js:95-99 | a body holding only a valid status changes the status and nothing else |
| Strings.Trim | backend/src/models/Board.js:8 | the result has no whitespace at either end and is the infix of the input left once only whitespace is cut from both ends |
| Strings.TrimIdempotent | backend/src/models/Todo.js:7 | trimming a trimmed value changes nothing |
| Strings.TrimEmptyIffBlank | frontend/src/components/TodoList.jsx:31 | a string trims to empty iff it is all whitespace |
| Strings.Utf16Length | backend/src/models/Board.js:7 | JavaScript's `length`: at least the number of characters and at most twice it |
| Strings.Utf16LengthOfBmp | backend/src/models/Board.js:7 | within the Basic Multilingual Plane the length is the number of characters |
| Strings.Utf16LengthOfAstral | backend/src/models/Board.js:7 | any character above U+FFFF makes the length exceed the number of characters |
| Strings.ToLower | backend/src/controllers/todoController.js:26 | the result has the input's length and lower-cases each ASCII letter in place |
| Strings.Split | backend/src/middleware/authMiddleware.js:11 | there is at least one field, and no field contains the separator |
| Strings.SplitOnceIffNoSeparator | backend/src/middleware/authMiddleware.js:11 | the split has a single field exactly when the separator does not occur |
| Strings.JoinSplit | backend/src/middleware/authMiddleware.js:11 | joining the fields with the separator gives the header back |
| Strings.SplitJoin | backend/src/middleware/authMiddleware.js:11 | splitting the join of separator-free fields gives the fields back |
| Lists.RemoveId | frontend/src/components/TodoList.jsx:62 | `filter(t => t._id !== id)` keeps exactly the elements with another id |
| Lists.ReplaceId | frontend/src/components/TodoList.jsx:51 | `map(t => t._id === u._id ? u : t)` keeps the length and replaces exactly the elements carrying `u`'s id |
| Lists.RemoveIdIsSubsequence | frontend/src/components/TodoList.jsx:62 | the filter keeps the remaining elements in order |
| Lists.RemovePresentId | frontend/src/components/BoardList.jsx:47 | with unique ids, filtering out a present id drops exactly one element |
| Lists.RemoveIdKeepsUnique | frontend/src/components/BoardList.jsx:47 | filtering keeps the ids unique |
| TodoListView.FetchQueryAgrees | frontend/src/components/TodoList.jsx:14-23 | the server's query for `?status=<filter>` selects exactly the board's todos that the filter shows |
| TodoListView.HandleCreateTodo | frontend/src/components/TodoList.jsx:29-47 | a blank title sends nothing and changes nothing; otherwise `{ title, description }` is sent as typed; on success the todo is prepended unless the filter is 'completed', and the form is cleared and closed; on failure nothing changes |
| TodoListView.CreateKeepsShown | frontend/src/components/TodoList.jsx:38-40 | if every listed todo is admitted by the filter, that still holds after a create whose reply is pending |
| TodoListView.HandleUpdateTodo | frontend/src/components/TodoList.jsx:49-59 | a todo the filter shows is replaced in place, which covers every todo under 'all'; one it no longer shows is removed; the rest of the state is kept |
| TodoListView.UpdateKeepsShown | frontend/src/components/TodoList.jsx:50-58 | if every listed todo is admitted by the filter before an update, that still holds afterwards |
| TodoListView.UpdateHidesMismatch | frontend/src/components/TodoList.jsx:53-54 | a todo the filter no longer shows leaves the list, the rest keep their order, and with unique ids exactly one row goes |
| TodoListView.UpdateOfUnlistedIsNoop | frontend/src/components/TodoList.jsx:49-59 | an update for a todo the list does not hold leaves the state unchanged, under any filter |
| TodoListView.HandleDeleteTodo | frontend/src/components/TodoList.jsx:61-63 | exactly the todos with another id remain, in order, and the filter invariant is kept |
| TodoListView.DeleteDropsExactlyOne | frontend/src/components/TodoList.jsx:62 | with unique ids, deleting a listed id drops one row and keeps the ids unique |
| TodoListView.ToggleUnderFilterHidesRow | frontend/src/components/TodoList.jsx:53-54 | toggling a row under a status filter makes the server flip its status, and the list then drops the row |
| TodoListView.ToggleUnderAllKeepsRow | frontend/src/components/TodoList.jsx:50-51 | under 'all' the toggled row stays at its position, carrying the server's answer |
| BoardListView.HandleCreateBoard | frontend/src/components/BoardList.jsx:29-41 | a blank name sends nothing and changes nothing; on success the board is prepended, the input cleared and the new board selected; on failure nothing changes; a listed selection stays listed |
| BoardListView.SelectBoard | frontend/src/components/BoardList.jsx:94 | clicking a listed board selects it, so the selection is listed, and nothing else changes |
| BoardListView.HandleDeleteClick | frontend/src/components/BoardList.jsx:57-60 | the confirmation opens for that board, and nothing else changes |
| BoardListView.CloseDeleteModal | frontend/src/components/BoardList.jsx:117 | the confirmation closes with no id, and nothing else changes |
| BoardListView.ConfirmDeleteBoard | frontend/src/components/BoardList.jsx:43-55 | with no id it is a no-op; otherwise the delete is sent and the modal closes whatever the outcome; on success exactly the boards with another id remain, and the selection is cleared iff it was the deleted board; on failure the list and selection are kept |
| BoardListView.DeleteKeepsSelectionListed | frontend/src/components/BoardList.jsx:47-50 | after a delete the selection, if any, is still a listed board |
| TodoItemView.Mount | frontend/src/components/TodoItem.jsx:7-10 | the row starts out not editing, with the confirmation closed, and its inputs hold the todo's title and description |
| TodoItemView.ToggleTarget | frontend/src/components/TodoItem.jsx:14 | completed goes to pending and anything else to completed; the target always differs from the current status |
| TodoItemView.ToggleTwice | frontend/src/components/TodoItem.jsx:14 | toggling twice gives the original status back |
| TodoItemView.ToggleRequest | frontend/src/components/TodoItem.jsx:15 | the body sets only `status`, to the toggle target's enum spelling |
| TodoItemView.ToggleRoundTrip | frontend/src/components/TodoItem.jsx:12-20 | the server's answer to a toggle is the todo with only its status flipped, and toggling the answer gives the original todo back |
| TodoItemView.HandleEdit | frontend/src/components/TodoItem.jsx:32-46 | inputs equal to the stored values after trimming send nothing and leave edit mode; otherwise exactly `{ title, description }` is sent, the reply goes to the list, and edit mode ends only on success |
| TodoItemView.EditSendsExactlyWhenItChanges | frontend/src/components/TodoItem.jsx:34-37 | for a stored todo, a save sends a request iff the server would not answer it with the todo unchanged |
| TodoItemView.CancelEdit | frontend/src/components/TodoItem.jsx:87 | cancel restores the inputs to the todo's title and description and leaves edit mode |
| TodoItemView.SaveAfterCancelSendsNothing | frontend/src/components/TodoItem.jsx:87 | a save straight after a cancel, or straight after opening the editor, sends nothing |
| TodoItemView.ConfirmDelete | frontend/src/components/TodoItem.jsx:22-30 | the delete is sent for this todo, `onDelete` gets its id only on success, and the confirmation closes either way |
| Scenarios.NothingMatches | backend/src/controllers/todoController.js:32 | an answer holding exactly the matching todos is empty when no stored todo matches |
| Scenarios.CascadeOfOnlyTodo | backend/src/controllers/boardController.js:88 | deleting the board of a store's only todo leaves no todos |
| Scenarios.AddBoard | backend/src/controllers/boardController.js:19-37 | a valid name creates a board owned by the caller and leaves the todos alone |
| Scenarios.AddTodo | backend/src/controllers/todoController.js:43-76 | the owner adds a pending todo to their board |
| Scenarios.Complete | backend/src/controllers/todoController.js:81-105 | a status-only update by the owner makes the todo completed and changes nothing else |
| Scenarios.CompletedTodoOnNewBoard | backend/src/controllers/boardController.js:19-37 | in a fresh store, creating a board, adding a todo and completing it leaves that board owned by the caller and that one completed todo |
| Scenarios.PendingOfCompleted | backend/src/controllers/todoController.js:24-32 | when a board's only todo is completed, the pending filter answers an empty list |
| Scenarios.DeleteOnlyBoard | backend/src/controllers/boardController.js:72-91 | the owner deleting the board of the store's only todo leaves no todos, and the board's todos then answer 404 |
| Scenarios.BoardLifecycle | backend/src/controllers/todoController.js:7-38 | in a whole session, once the only todo is completed the pending filter answers an empty list, another user gets 401, and after the board is deleted its todos answer 404 and no todo is left |

## Left out

- Express wiring and startup, the route table and `listen`: these are routing only, with no logic.
- Mongoose beyond a map:
  - Lookups are map lookups.
  - ObjectId casting is left out, so the `CastError` a malformed id raises does not exist here; ids are natural numbers.
  - Database failures are left out.
  - `timestamps` are reduced to `createdAt = now`. `updatedAt` is not stored.
  - Among documents with equal `createdAt`, the order of `sort({ createdAt: -1 })` is left unspecified.
- Validation error messages: the message of a failed save follows Mongoose's `path: message` format, with the failing paths in schema order. The model does not claim Mongoose's exact wording for the enum and required-path messages.
- Request bodies are JSON: the model's body fields are strings or absent. JSON `null`, numbers and arrays are not modelled. The same holds for a repeated `?status=` parameter, which Express would turn into an array.
- Firebase: the provider's initialisation and token cryptography are out of scope. `verifyIdToken` is an uninterpreted function and readiness is a flag. The `console.error` logging is left out.
- Concurrency: the cascade delete is not atomic in the source. The model runs it as one sequential step, so the race between concurrent requests is not captured.
- The axios client and its interceptors are left out, including the forced sign-out on 401. The `alert` and `console.error` calls, and the components' `loading` and `error` flags, are left out too.
- Strings.ToLower: it lower-cases ASCII letters only, not the full Unicode mapping of `toLowerCase`. Its only use is to decide whether a status lower-cases to "pending" or "completed", and there it agrees with JavaScript. In the Unicode case tables, the only non-ASCII character that lower-cases to a lone ASCII letter is the Kelvin sign, which becomes `k`, and neither enum value contains a `k`.
- TodoListView: the `fetchTodos` state update (`setTodos(res.data.data)`) replaces the list wholesale. It is covered only by FetchQueryAgrees, which states what the server sends back; the effect that re-fetches on a filter change is not modelled. BoardList's `fetchBoards` is likewise an unmodelled wholesale replacement.
- BoardListView: the selection belongs to the parent component (`selectedBoardId`, set through `onSelectBoard`). The model carries it in the sidebar's state.
- TodoItemView: the row's local `title` and `description` are not re-synchronised when the `todo` prop changes; React keeps the initial state. The model does the same, because `HandleEdit` compares against `v.todo`, the prop. The `todo.description || ''` fallback is the description itself, because the schema default makes it a string.
- TodoItemView.HandleEdit: after a successful save the row keeps its `todo`. In the source, the parent list re-renders the row with the server's reply as the new `todo` prop (`onUpdate`, then `setTodos`), so a later save compares against the reply. That prop refresh belongs to the parent and is not carried into the row's state here.
- TodoItemView.StartEdit is a plain state change with no contract of its own.
- Rendering, styling, date formatting and the pure UI components are not modelled.
