# Helpdesk ticket store — a Dafny model

This project models the ticket API of a small helpdesk system, together with
the pure helpers of its two clients. A ticket has a submitter's name, e-mail
address and description, a status (NEW, IN_PROGRESS or RESOLVED) and a thread
of messages. The repository holds five diverging versions of the backend:

- four keep tickets in a JavaScript `Map`;
- one keeps them in two SQLite tables.

The handlers differ in what they do:

- List and get only read.
- Create only validates the body and appends a ticket; the SQLite one then
  reads the inserted row back.
- Delete only looks the ticket up and removes it.
- The status and message handlers validate, look the ticket up and then
  change it. The in-memory ones look up first, so an unknown id wins over a
  bad body; the SQLite ones validate first.

The model turns each handler into a pure function. A handler takes the store
and the request and returns an `Outcome`:

- `Ok(newStore, code, reply)`;
- `BadRequest(error)` or `NotFound(error)`, which leave the store as it was;
- `Failed(newStore)`: the handler threw after it had changed the store, and
  Express answers 500.

Layout, one module per file:

- `options.dfy`, `js_values.dfy` — `Option`, and JavaScript values as a parsed request
  body carries them. `Truthy` is ECMAScript ToBoolean. `Field` and `OrDefault`
  model destructuring, with and without a default.
- `seqs.dfy` — reverse, filter, map, and the sort that `ORDER BY` performs.
  `SubseqOf` states that order is preserved.
- `ordered_store.dfy` — an insertion-ordered map, the `Map`'s semantics:
  `Get`, `Append` (set a fresh key), `Put` (overwrite in place), `Remove`.
- `tickets.dfy` — statuses, tickets, messages, replies, outcomes and routes.
  A ticket's `Details` hold each variant's own fields.
- `memory_routes.dfy` — list, get, status update, add message and delete.
  These handlers behave identically in three `Map` variants. The file also holds
  the store invariant `WellFormed` and the lemmas about it.
- `classic_router.dfy`, `defaults_router.dfy`, `upload_server.dfy`,
  `minimal_router.dfy` — one module per `Map` variant. Each has its own create
  handler and its own route table (`Dispatch`). The minimal variant also has
  its own message handler, and `upload_server.dfy` holds the `/upload` mapping.
- `sqlite_server.dfy` — the SQLite variant, over its two tables as sequences
  of rows.
- `submit_screen.dfy` — the mobile screen's e-mail check and submit logic.
- `web_app.dfy` — the web client's filter, image list, submit payload and
  form reset.

Request bodies are maps from property name to value. A property that was not
sent reads as `undefined`. Fresh ids (`crypto.randomUUID()`) and clock readings
are parameters. Creating a ticket requires that its id is not yet in the store.

The list, get, status, message and delete handlers in
backend/src/routes/tickets.js:8-79 and backend/src/server.js:60-157 behave
identically to backend/backend/src/routes/tickets.js:15-104; only formatting
and a few `return` keywords differ. So the `MemoryRoutes`
members model all three, and the table cites the first copy.

The model follows the code:

- The SQLite variant answers 200, not 201, to create and to add-message.
- It has no status filter and no delete route.
- It checks the message body before it looks the ticket up.
- It lets an absent or falsy status through validation and writes it to the row.
- The `Map` variants never write `updatedAt`.
- The minimal variant has no list or delete route.

## Model

| member | source | states |
|---|---|---|
| `OrderedStore.Get` | backend/backend/src/routes/tickets.js:52 | `Map.get` finds a value exactly when the key is stored; with distinct keys it is that entry's value |
| `OrderedStore.Append` | backend/backend/src/routes/tickets.js:44 | setting a fresh key puts the entry last without moving the others; afterwards the key reads back its value and every other key reads as before |
| `OrderedStore.Put` | backend/backend/src/routes/tickets.js:70 | mutating a stored ticket keeps every key in its position; only the entry under that key changes |
| `OrderedStore.Remove` | backend/backend/src/routes/tickets.js:102 | `Map.delete` cuts out exactly the entry for the key, keeps the others in order, and afterwards the key is absent |
| `OrderedStore.GetConcat` | backend/backend/src/routes/tickets.js:52 | a lookup in a concatenation finds the left part's entry when it has the key, otherwise the right part's |
| `Seqs.Reverse` | backend/backend/src/routes/tickets.js:17 | the copy has the same elements, with the last first |
| `Seqs.Filter` | backend/backend/src/routes/tickets.js:19 | exactly the elements passing the test, in their original order, each as often as in the input |
| `Seqs.Map` | backend/src/server.js:44-50 | `Array.prototype.map`: one result per element, each the function applied to the element at the same index |
| `JsValues.Truthy` | backend/backend/src/routes/tickets.js:30 | ToBoolean: the falsy values are exactly `undefined`, `null`, `false`, `0` and `""`; arrays and objects, even empty, are truthy |
| `JsValues.OrDefault` | backend/src/routes/tickets.js:24-29 | a destructuring default: the sent value is kept, whatever it is, unless it is `undefined`; `undefined` becomes the default, and a defined default never yields `undefined` |
| `JsValues.OrNull` | backend/backend/src/routes/tickets.js:39 | the logical-or fallback to `null` keeps a truthy value and turns every falsy one into `null`, so it never yields `undefined` and keeps truthiness |
| `Tickets.Required` | backend/backend/src/routes/tickets.js:29-32 | a body passes the required-fields guard only when it carries all three properties |
| `SqliteServer.Seconds` | backend/server.js:51 | `datetime()` on a reading gives the whole second containing it |
| `Seqs.SortBy` | backend/server.js:51 | `ORDER BY` yields a permutation of the rows whose keys never decrease |
| `Tickets.ParseStatus` | backend/backend/src/routes/tickets.js:66-67 | `includes` accepts exactly the strings "NEW", "IN_PROGRESS" and "RESOLVED", and names the status each denotes |
| `MemoryRoutes.ListTickets` | backend/backend/src/routes/tickets.js:15-22 | with no usable filter: all tickets, newest first. With a filter naming a status: exactly the tickets with that status, each as often as stored, newest first. Any other filter value is ignored. The store is unchanged |
| `MemoryRoutes.GetTicket` | backend/backend/src/routes/tickets.js:51-55 | 404 exactly for an unknown id; otherwise the stored ticket, unchanged |
| `MemoryRoutes.PatchStatus` | backend/backend/src/routes/tickets.js:61-72 | an unknown id gives 404 before any validation. A value that names no status gives 400. Otherwise only that ticket's status changes: other fields, other tickets and the order stay |
| `MemoryRoutes.AddMessage` | backend/backend/src/routes/tickets.js:78-94 | 404 first, then 400 on a falsy body. Otherwise exactly one message is pushed at the end of the thread, with `fromAdmin` the truthiness of the input. Nothing else changes |
| `MemoryRoutes.DeleteTicket` | backend/backend/src/routes/tickets.js:99-104 | 404 exactly for an unknown id; a known id is always deleted: that entry is cut out, the rest keep their order, and the id is gone |
| `MemoryRoutes.DeleteThenGet` | backend/backend/src/routes/tickets.js:99-104 | a GET after a successful DELETE of the same id answers 404 |
| `MemoryRoutes.AnyStatusReachable` | backend/backend/src/routes/tickets.js:65-71 | status changes are unconstrained: any status can be set from any status |
| `MemoryRoutes.RefusedStatusChangesNothing` | backend/backend/src/routes/tickets.js:66-69 | an invalid status leaves the whole store unchanged |
| `MemoryRoutes.AppendKeepsWellFormed` | backend/backend/src/routes/tickets.js:33-44 | filing a complete ticket under its own fresh id keeps ids distinct, each ticket under its own id, and every required field and message body truthy |
| `MemoryRoutes.PatchKeepsWellFormed` | backend/backend/src/routes/tickets.js:61-72 | a status update keeps the store invariant |
| `MemoryRoutes.AddMessageKeepsWellFormed` | backend/backend/src/routes/tickets.js:78-94 | adding a message keeps the store invariant |
| `MemoryRoutes.DeleteKeepsWellFormed` | backend/backend/src/routes/tickets.js:99-104 | deleting keeps the store invariant |
| `MemoryRoutes.PostAllAppendsInOrder` | backend/backend/src/routes/tickets.js:85-92 | after N accepted posts to a ticket, its thread is the old thread followed by exactly those N messages, in call order |
| `ClassicRouter.CreateTicket` | backend/backend/src/routes/tickets.js:28-46 | 400 exactly when name, email or description is falsy, and every other body is accepted. The new ticket has status NEW, an empty thread and the sent fields, and goes last under the fresh id. `attachment` is null when the input is falsy. Answers 201 |
| `ClassicRouter.Dispatch` | backend/backend/src/routes/tickets.js:15-104 | every route of the router keeps the store well formed, and a successful delete removes the id |
| `ClassicRouter.Scenario` | backend/backend/src/routes/tickets.js:28-94 | create, then move to IN_PROGRESS, then add an admin reply: a GET shows status IN_PROGRESS and that one message with `fromAdmin` true |
| `ClassicRouter.BogusStatusRefused` | backend/backend/src/routes/tickets.js:65-69 | PATCH with "BOGUS" is a 400 |
| `DefaultsRouter.CreateTicket` | backend/src/routes/tickets.js:18-42 | 400 on a falsy required field, and every other body is accepted. Subject, priority, location and attachments hold what was sent, including `""` and `null`. Only an absent field gets its default: `''`, `'Medium'`, `'NYC'`, `[]`. Status NEW, empty thread |
| `DefaultsRouter.NoAttachmentNeeded` | backend/src/routes/tickets.js:24-29 | a complete body without attachments is accepted and stores `[]` |
| `DefaultsRouter.SuppliedEmptyValuesKept` | backend/src/routes/tickets.js:24-29 | a sent `""` subject and a `null` priority are stored as sent |
| `DefaultsRouter.Dispatch` | backend/src/routes/tickets.js:8-79 | every route keeps the store well formed |
| `UploadServer.CreateTicket` | backend/src/server.js:76-120 | missing fields give 400 before the attachment check. Then 400 exactly when `attachments` is absent, not an array, or empty. A complete body with a non-empty array is always stored: the seven optional fields hold what was sent, or their defaults when absent, with status NEW and an empty thread. The answer is 201, or 500 exactly when a truthy subject or the name cannot be turned into a string for the log line |
| `UploadServer.UnprintableNameStoredThenFails` | backend/src/server.js:107-117 | a name sent as `{"toString": 0}` leaves the ticket stored under its id, and the request fails with 500 |
| `UploadServer.Dispatch` | backend/src/server.js:60-157 | every route keeps the store well formed and keeps every ticket carrying at least one attachment |
| `UploadServer.AppendKeepsAttached` | backend/src/server.js:93-107 | adding a ticket that has attachments keeps every ticket attached |
| `UploadServer.RemoveKeepsAttached` | backend/src/server.js:152-156 | deleting keeps every remaining ticket attached |
| `UploadServer.UploadReply` | backend/src/server.js:43-51 | one record per file, in order. `kind` is "image" exactly when the mimetype starts with "image/", else "file". `url` is "/uploads/" followed by the stored name. Name, type and size are copied |
| `UploadServer.UrlNamesTheStoredFile` | backend/src/server.js:49 | the stored file name can be read back off the URL |
| `MinimalRouter.CreateTicket` | app/backend/routes/tickets.js:10-27 | 400 exactly on a falsy required field, and every other body is accepted. The ticket has exactly id, the three fields, `attachment` (null when falsy), status NEW and an empty thread. No creation time |
| `MinimalRouter.AddMessage` | app/backend/routes/tickets.js:51-60 | 404 first, then 400 on a falsy body. The pushed message has no `fromAdmin`, and the reply is `{ ok: true }` |
| `MinimalRouter.AddMessageKeepsWellFormed` | app/backend/routes/tickets.js:51-60 | adding a message keeps the store invariant |
| `MinimalRouter.Dispatch` | app/backend/routes/tickets.js:10-60 | exactly the list and delete requests match no route; every route keeps the store well formed |
| `SqliteServer.SelectTicket` | backend/server.js:63 | a row is found exactly when some row has the id, and the row found has it |
| `SqliteServer.UpdateStatus` | backend/server.js:85-89 | the UPDATE rewrites status and updatedAt of exactly the rows with the id; it reports no change exactly when no row has it |
| `SqliteServer.CreateTicket` | backend/server.js:16-45 | 400 exactly on a falsy required field, and every other body is inserted as one row: status NEW, `createdAt` equal to `updatedAt`, `attachment` null when falsy. The reply is that row without `updatedAt`, with code 200 |
| `SqliteServer.ReadBackInserted` | backend/server.js:36-40 | the SELECT after the INSERT reads back the inserted row |
| `SqliteServer.ListTickets` | backend/server.js:48-58 | a summary of every ticket, no filter, latest creation second first (`datetime()` drops milliseconds); the database is unchanged |
| `SqliteServer.GetTicket` | backend/server.js:61-74 | 404 exactly for an unknown id, and a known id always succeeds. The reply is the row plus exactly the messages filed under that id, earliest creation second first |
| `SqliteServer.PatchTicket` | backend/server.js:77-99 | a truthy value naming no status gives 400, checked before the lookup. Then 404 exactly when no row has the id, and a known id always succeeds. Only that row's status and updatedAt change |
| `SqliteServer.FalsyStatusWritten` | backend/server.js:79-88 | an absent or falsy status passes validation and is written as it is |
| `SqliteServer.AddMessage` | backend/server.js:102-126 | 400 on a falsy body before the 404 for an unknown ticket; a truthy body to a known ticket always succeeds. One row is appended with `fromAdmin` 1 or 0, and the reply reports the flag as a boolean |
| `SqliteServer.ReplyFlagMatchesRow` | backend/server.js:113-121 | the reply's boolean is true exactly when the stored integer is 1 |
| `SqliteServer.BodyCheckedBeforeTicket` | backend/server.js:104-108 | a bad body to an unknown ticket is a 400, the reverse of the in-memory order |
| `SqliteServer.PostedMessageIsRead` | backend/server.js:66-69 | after a message is added, the ticket's thread holds it once more than before |
| `SqliteServer.CreateKeepsConsistent` | backend/server.js:25-29 | an insert keeps the keys unique and every message attached to an existing ticket |
| `SqliteServer.PatchKeepsConsistent` | backend/server.js:84-88 | an update keeps the database consistent |
| `SqliteServer.AddMessageKeepsConsistent` | backend/server.js:104-116 | a message insert keeps the database consistent |
| `SqliteServer.Dispatch` | backend/server.js:16-126 | every route keeps the database consistent |
| `SubmitScreen.EmailShapedIffAt` | app/screens/SubmitTicketScreen.js:14 | the regex matches exactly when some whitespace-free substring reads x@y.z with x, y and z non-empty |
| `SubmitScreen.ValidateEmail` | app/screens/SubmitTicketScreen.js:14 | `validateEmail` is true exactly when some whitespace-free substring reads x@y.z with x, y and z non-empty |
| `SubmitScreen.NoAtRejected` | app/screens/SubmitTicketScreen.js:14 | a string without '@' is rejected |
| `SubmitScreen.NoDotRejected` | app/screens/SubmitTicketScreen.js:14 | a string without '.' is rejected |
| `SubmitScreen.Examples` | app/screens/SubmitTicketScreen.js:14 | "a@b.c" and "x a@b.c y" are accepted; "a@b" is not |
| `SubmitScreen.Submit` | app/screens/SubmitTicketScreen.js:34-48 | the missing-fields check precedes the e-mail check, and neither failure sends anything. The body carries the three fields, plus `attachment` exactly when the URL is non-empty. The image URI is never sent |
| `WebApp.Filtered` | helpdesk-web/src/App.jsx:102 | "ALL" returns the list unchanged; any other value keeps exactly the tickets with that status, each as often as fetched, in order |
| `WebApp.UnknownFilterShowsNothing` | helpdesk-web/src/App.jsx:102 | a filter naming no status shows no ticket |
| `WebApp.RemoveImage` | helpdesk-web/src/App.jsx:60-62 | drops exactly index i and keeps the rest in order; an out-of-range index changes nothing |
| `WebApp.PickImages` | helpdesk-web/src/App.jsx:52-58 | the new images follow the existing ones |
| `WebApp.RemovePickedKeepsEarlier` | helpdesk-web/src/App.jsx:56-61 | removing a just-picked image leaves the earlier images untouched |
| `WebApp.OnSubmit` | helpdesk-web/src/App.jsx:64-100 | a falsy required field sends nothing and keeps the state. Otherwise the payload copies the form, `cc` is sent only when enabled, and `attachments` are the images. The form returns to its initial state and the images empty |
| `WebApp.OnCancel` | helpdesk-web/src/App.jsx:244-256 | Cancel restores the initial form, the same record as after a submit, and keeps the picked images |

## Left out

- HTTP and Express plumbing is not modelled: mounting, CORS, body-size limits, request logging, `listen` and the health route. The model keeps only each handler's outcome. A request no route matches is `None` in the minimal router's `Dispatch`, where Express would send its default 404.
- The output of the "would send e-mail" `console.log` calls is left out. Only the throw that building a log line can raise is modelled, in the upload server (`UploadServer.MailLogged`).
- The upload machinery is left out: multer's disk storage, the 15 MB and 10-file limits, the generated file names and static serving. These are filesystem I/O and randomness; `UploadReply` starts from the files multer hands over.
- SqliteServer.CreateTicket: assumes name, email and description convert to strings. A JSON object with its own `toString` property makes the handler throw, either while binding the value or at the log line after the INSERT. It then answers 500 "Server error". Whether the row stays depends on the driver's binding, which is not part of this model.
- SqliteServer.AddMessage: assumes the same for the message body, which is bound and then logged after the INSERT.
- The SQLite driver in backend/db.js is not part of this model. It wraps foreign calls, and its failures are the 500 paths, which are storage faults. Columns hold the JavaScript value bound to them; the driver's conversions (undefined to NULL, booleans to integers) are not modelled. Tables are modelled with the column names backend/server.js queries.
- UUIDs and clock readings are parameters. ISO-8601 timestamps are millisecond counts that order the same way; `datetime()` is `Seconds`.
- SqliteServer.ListTickets: promises only a permutation with non-increasing creation seconds. `ORDER BY datetime(createdAt)` compares whole seconds, and SQL leaves the order of equal keys unspecified, so tickets created within one second may come in either order.
- SqliteServer.GetTicket: promises only a permutation of the ticket's messages with non-decreasing creation seconds, for the same reason.
- MemoryRoutes.GetTicket: states which ticket it returns only for a store with distinct ids; the source `Map` always has them.
- JSON numbers are reals. JSON cannot carry NaN, so zero is the only falsy number.
- UI and navigation are left out: React and React Native rendering, the admin screens (fetch and render only), the image picker and FileReader, the Lightbox zoom and pan (floating point and mouse events), and the admin note's `trim` (Unicode whitespace).
- The fetch wrappers are network clients and are left out.
- WebApp.OnSubmit: models only a `createTicket` request that succeeds. If the request is sent but rejected, the source keeps the form and the images, and that path is not modelled. This happens, for instance, when the upload server refuses a submission without images (backend/src/server.js:94-96).
- The mobile screen's loading flag, alerts and post-submit reset are left out.
- Concurrency is left out: requests interleaving on one ticket race with last-write-wins, and each handler is modelled as one atomic step.
