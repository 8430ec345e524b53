# Fort Fruit training portal: a verified model of its core

The Fort Fruit portal is an internal training site. Employees sign in and
browse learning modules (one per department). Each module holds training
videos and documents. Administrators add content, delete it and create users.
The front end is React; the back end is an Express server over four MySQL
tables.

This project models the parts of the portal that decide things:

- **Server** (`server.dfy`): the four tables (users, modules, videos,
  documents) as sequences of rows in table order, in a `Database` class. It
  covers how `GET /modules` nests the three content tables into one module
  list, and the routes that change the tables: `POST /login`, `POST /content`,
  `POST /users` and `DELETE /content/:type/:id`. The id a database would
  assign on insert is a parameter of the insert routes.
- **Storage service** (`storage.dfy`): the browser session record kept under
  one storage key, in a `SessionStore` class (login, logout, check, user and
  role). It also covers the decision each call makes from the HTTP response
  it gets. Responses are inputs: `Http.Fetched` is either something thrown
  before the status was read, or a status, a status text and a parsed body.
- **Content-management panel** (`content_panel.dfy`): the expanded
  modules and categories of the content tree, the grouping of a module's
  videos by category (a loop into a map, default category `"Geral"`), and
  the guarded delete flow around a pending deletion target.
- **Admin panel** (`admin_panel.dfy`): the category suggestions for the
  selected module, the payload a submit builds with its defaults, the
  success message, and the form reset.
- **Application shell** (`portal.dfy`): sign-in state, current user, view,
  open module, module list and loading flag, in an `AppState` class. It has
  the handlers that change them and the guards that pick the screen.
- **End to end** (`end_to_end.dfy`): server replies fed to the client's
  decisions. This covers a sign-in against the users table, the
  duplicate-user reply, the stored form of a submitted payload, and the
  replies of the content routes.
- `types.dfy`, `http.dfy` and `collections.dfy` hold the shared entities,
  the reply bodies, and the generic sequence functions (filter, dedupe) with
  their lemmas.

JavaScript's `x || fallback` on strings is written out (`Types.OrElse`,
`Types.OptOrElse`): the empty string and an absent value both take the
fallback.

## Model

| member | source | states |
|---|---|---|
| `Collections.Filter` | server.js:75-76 | the kept elements are exactly the input's elements that satisfy the predicate; never longer than the input |
| `Collections.FilterAppend` | server.js:75-76 | filtering a concatenation is the concatenation of the filtered parts, so relative order is kept |
| `Collections.FilterShrinks` | server.js:175-179 | if some row has the deleted id, at least one row goes (affected rows > 0) |
| `Collections.FilterAll` | server.js:175-179 | if no row has the deleted id, the table is unchanged (affected rows = 0) |
| `Collections.Dedupe` | components/AdminPanel.tsx:64-66 | `Array.from(new Set(..))`: no duplicates, and exactly the same elements as the input |
| `Collections.DedupeFirstOccurrenceOrder` | components/AdminPanel.tsx:64-66 | the deduplicated elements come in the order of their first occurrence in the input |
| `Types.OrElse` | components/AdminPanel.tsx:78-79 | a string or its fallback, as JavaScript's or-operator picks: a non-empty string is kept; the empty string gives the fallback |
| `Types.OptOrElse` | services/storageService.ts:97-99 | the server's message or a default: an absent or empty message gives the default, any other is kept |
| `Types.CategoryOf` | components/ContentManagementPanel.tsx:76 | a video's category is its own when non-empty, otherwise `"Geral"`; never empty |
| `Types.Categories` | components/AdminPanel.tsx:65 | one category per video, position for position |
| `Types.FindModule` | App.tsx:101 | `find` by id: the first module with the id, or none when no module has it |
| `Server.MappingIsLossless` | server.js:52-70 | the reply mapping renames `thumbnail_url`/`video_url` to camelCase, copies category and module_id, and loses nothing (it is inverted by the reverse renaming, both ways) |
| `Server.MapVideos` | server.js:52-61 | every video row is mapped, position for position |
| `Server.MapDocuments` | server.js:64-70 | every document row is mapped, position for position |
| `Server.Nest` | server.js:73-77 | one nested entry per module row |
| `Server.NestKeepsModules` | server.js:73-74 | the nested list has one entry per module row, in table order, each carrying its row unchanged |
| `Server.NestAttachesExactlyMatchingRows` | server.js:75-76 | a video or document row is attached to a module iff its module_id equals that module's id; everything attached comes from the table and carries that id |
| `Server.OrphanRowAppearsNowhere` | server.js:73-75 | a video row whose module_id names no module is attached to no module |
| `Server.OrphanDocumentAppearsNowhere` | server.js:73-76 | a document row whose module_id names no module is attached to no module |
| `Server.NestKeepsTableOrder` | server.js:75 | a module's videos are in table order: splitting the videos table splits every module's video list the same way |
| `Server.NestKeepsDocumentOrder` | server.js:76 | a module's documents are in table order: splitting the documents table splits every module's document list the same way |
| `Server.FirstMatch` | server.js:29-34 | `rows[0]`: the first user row matching both credentials, or none when none matches |
| `Server.LoginReply` | server.js:29-38 | 200 with success iff some row matches both username and password, carrying the first match's username and role; otherwise exactly the 401 "Credenciais inválidas" reply |
| `Server.Database.Login` | server.js:26-42 | answers the login reply of the current users table (200 or 401) |
| `Server.Database.GetModules` | server.js:45-79 | answers the nesting of the current tables |
| `Server.Database.AddContent` | server.js:87-115 | type "video" appends one video row built from `data`, any other type appends one document row; a missing `data` answers 500 and changes nothing; the other tables stay |
| `Server.Database.AddUser` | server.js:118-156 | a missing or empty field answers 400 and changes nothing; an existing username answers 409 and changes nothing; otherwise exactly one user row is appended and success is answered |
| `Server.Database.DeleteContent` | server.js:160-192 | a type other than video/document answers 400 and changes nothing; otherwise the type's table loses exactly the rows with the id, 404 iff no row had it, and the other tables stay |
| `Server.DeleteRemovesExactlyTheVideoId` | server.js:165-177 | after a video delete no video row with the id is left, every other row is, and in table order |
| `Server.DeleteRemovesExactlyTheDocumentId` | server.js:167-177 | after a document delete no document row with the id is left, every other row is, and in table order |
| `Storage.ModulesOrEmpty` | services/storageService.ts:35-51 | getModules: the server's list on an ok response; the empty list on a non-ok response or anything thrown |
| `Storage.AddContentOutcome` | services/storageService.ts:54-80 | addContentToModule succeeds iff the response is ok, then with the reloaded list; a non-ok response fails with the status text after the save-error prefix |
| `Storage.DeleteContentOutcome` | services/storageService.ts:83-108 | deleteContent succeeds iff the response is ok (success flag not consulted); a non-ok response fails with the server's message, or the default when there is none |
| `Storage.AddUserOutcome` | services/storageService.ts:148-180 | addUser as written: true iff ok and success; every other outcome fails with the one connection-error message |
| `Storage.AddUserOutcomeIntended` | services/storageService.ts:165-172 | addUser as its comments describe it: a refusal from the server fails with the server's message (or the default); only a thrown error gives the connection error |
| `Storage.SessionStore.Login` | services/storageService.ts:112-145 | stores `{user, role, token}` under the session key and answers true iff the response is ok with success; then check, user and role read back from it; otherwise the store is unchanged |
| `Storage.SessionStore.CheckSession` | services/storageService.ts:186-188 | true iff a session record is stored under the session key |
| `Storage.SessionStore.GetUser` | services/storageService.ts:190-193 | the stored session's user, or null without a session |
| `Storage.SessionStore.GetUserRole` | services/storageService.ts:196-200 | the stored session's role, or null without a session |
| `Storage.SessionStore.Logout` | services/storageService.ts:182-200 | removes the session key and nothing else; afterwards check is false and user and role are null |
| `ContentManagement.ToggleFlipsOnlyItsKey` | components/ContentManagementPanel.tsx:49-56 | toggling flips the membership of the given key and leaves every other key as it was |
| `ContentManagement.ToggleTwiceRestores` | components/ContentManagementPanel.tsx:50-55 | toggling the same key twice restores the set |
| `ContentManagement.CategoryKeyInjective` | components/ContentManagementPanel.tsx:63 | for module ids without '-', distinct (module, category) pairs give distinct expansion keys |
| `ContentManagement.CategoryKeysCollideWithDashedIds` | components/ContentManagementPanel.tsx:63 | with a '-' in a module id two different pairs can share one key |
| `ContentManagement.GroupedVideos` | components/ContentManagementPanel.tsx:73-81 | one group per occurring category, holding exactly that category's videos in their original order; the keys in insertion order are the distinct categories in first-occurrence order |
| `ContentManagement.EveryVideoInExactlyOneGroup` | components/ContentManagementPanel.tsx:75-78 | a video is in the group of its own category (default "Geral") and in no other |
| `ContentManagement.GroupKeepsVideoOrder` | components/ContentManagementPanel.tsx:75-78 | within a group the videos keep their relative order |
| `ContentManagement.NoGroupIsEmpty` | components/ContentManagementPanel.tsx:77-78 | every group that exists holds at least one video |
| `ContentManagement.GroupSizesSumToVideoCount` | components/ContentManagementPanel.tsx:73-80 | over any duplicate-free list of keys covering every video's category, the group sizes sum to the number of videos |
| `ContentManagement.DistinctGroupSizesSumToVideoCount` | components/ContentManagementPanel.tsx:73-80 | the sizes of the groups of the distinct categories sum to the number of videos |
| `ContentManagement.DeleteFlowOutcome` | components/ContentManagementPanel.tsx:100-111 | the list reaches `onModulesUpdated` iff the callback exists and the delete response is ok; every other case ends in the failure alert naming the content kind |
| `ContentManagement.ConfirmedDeleteAlertsWithoutCallback` | components/ContentManagementPanel.tsx:102-111 | a delete the server confirmed alerts failure when the callback is missing, and passes the reloaded list when it is present |
| `ContentManagement.ContentPanel.constructor` | components/ContentManagementPanel.tsx:35-46 | nothing expanded, not deleting, no deletion target |
| `ContentManagement.ContentPanel.ToggleModule` | components/ContentManagementPanel.tsx:49-60 | flips the module's expansion; a collapse empties every expanded category, an expansion keeps them |
| `ContentManagement.ContentPanel.ToggleCategory` | components/ContentManagementPanel.tsx:62-71 | flips exactly the key `moduleId-category`; every other key and the modules stay |
| `ContentManagement.ContentPanel.OpenDeleteModal` | components/ContentManagementPanel.tsx:85-91 | the target becomes exactly the given kind, id and title; nothing else changes |
| `ContentManagement.ContentPanel.CancelDelete` | components/ContentManagementPanel.tsx:263 | the modal's cancel clears the target; nothing else changes |
| `ContentManagement.ContentPanel.BeginDelete` | components/ContentManagementPanel.tsx:95-98 | without a target nothing happens; with one, deleting starts and the target is cleared before the request |
| `ContentManagement.ContentPanel.FinishDelete` | components/ContentManagementPanel.tsx:100-114 | the outcome is the delete flow's for the captured target, and deleting ends on success and failure alike |
| `ContentManagement.ContentPanel.ExecuteDelete` | components/ContentManagementPanel.tsx:94-115 | without a target nothing changes; otherwise the target is cleared, the outcome is that of the captured target, and deleting is false at the end |
| `Admin.ExistingCategories` | components/AdminPanel.tsx:61-67 | empty when no module has the selected id; otherwise no duplicates and exactly the selected module's video categories (default "Geral") |
| `Admin.ExistingCategoriesInFirstOccurrenceOrder` | components/AdminPanel.tsx:64-66 | the suggestions come in the order their categories first occur among the videos |
| `Admin.AdminForm.constructor` | components/AdminPanel.tsx:47-59 | the first module's id is selected, or "" without modules; the video tab, PDF, empty fields, no message |
| `Admin.AdminForm.SelectTab` | components/AdminPanel.tsx:205-215 | only the active tab changes |
| `Admin.AdminForm.SelectModule` | components/AdminPanel.tsx:241-243 | the new module is selected and the category field is cleared; nothing else changes |
| `Admin.AdminForm.HandleSubmit` | components/AdminPanel.tsx:69-99 | a video sends duration "00:00" and category "Geral" when empty, the fixed placeholder thumbnail and the url field as videoUrl; a document sends title, type and url "#" when empty, no description; the form's own success message matches the tab; afterwards the five text fields are empty and tab, module and document type are unchanged (while the form stays mounted, which under the shell it does not: see Findings) |
| `Portal.AppState.constructor` | App.tsx:17-22 | signed out, loading, no modules, no open module, dashboard view, no user |
| `Portal.AppState.LoadData` | App.tsx:26-41 | a stored session signs the stored user in; the list becomes the fetched one (empty on failure); loading ends |
| `Portal.AppState.HandleLogin` | App.tsx:47-57 | succeeds iff the service accepts the response, then signed in as the name typed, and the storage is the old one with the session key set to the reply's user and role and the token (services/storageService.ts:127-135); a refusal throws "Invalid credentials" and changes neither the shell nor the storage |
| `Portal.AppState.HandleLogout` | App.tsx:59-65 | signed out, no user, dashboard view, no open module; the storage loses the session key and nothing else, so check, user and role read nothing; the list stays |
| `Portal.AppState.HandleModuleSelect` | App.tsx:67-70 | the module's id is open in the player view; nothing else changes |
| `Portal.AppState.HandleBackToDashboard` | App.tsx:72-75 | no open module and the dashboard view; nothing else changes |
| `Portal.AppState.OpenAdmin` | App.tsx:142 | the admin view; nothing else changes |
| `Portal.AppState.CloseAdmin` | App.tsx:176 | the dashboard view; nothing else changes |
| `Portal.AppState.HandleAddContent` | App.tsx:78-99 | on success the list becomes the reloaded one, on failure it stays; loading is false at the end; nothing else changes |
| `Portal.AppState.BeginAddContent` | App.tsx:83 | the loading flag is raised before the first await, so the spinner is the whole screen |
| `Portal.AppState.FinishAddContent` | App.tsx:84-98 | the list from the outcome (reloaded on success, kept on failure), then loading ends |
| `Portal.AppState.SubmitFromAdmin` | App.tsx:83-109 | a submit from the admin panel passes through the spinner screen, so the panel comes back freshly mounted: no success message, the video tab and the first module selected; the signed-in user and open module are kept |
| `Portal.AppState.HandleAddContentInPlace` | App.tsx:84-95 | handleAddContent without the loading flag: the list from the outcome, the loading flag and the rest unchanged |
| `Portal.AppState.SubmitFromAdminKeepingPanel` | components/AdminPanel.tsx:69-101 | with the panel kept mounted, the admin screen stays, the tab's success message is shown, and tab, module and document type stay as the user left them; the signed-in user and open module are kept |
| `Portal.AppState.DeleteFromAdmin` | App.tsx:173-177 | as the shell wires the admin panel: the shell's list never changes, and a delete the server confirmed ends in the failure alert |
| `Portal.AppState.DeleteFromAdminWired` | components/AdminPanel.tsx:103-106 | with the callback passed down, a delete the server confirmed replaces the shell's list with the reloaded one; otherwise the list stays |
| `Portal.AppState.GetCurrentModule` | App.tsx:101 | none without an open module id; otherwise the first loaded module with that id, or none when no module has it |
| `Portal.AppState.CurrentScreen` | App.tsx:103-183 | loading first, then the login form when signed out; the player iff the player view has an existing module; then the admin panel iff the admin view; otherwise the dashboard |
| `EndToEnd.ClientLoginAgreesWithServer` | server.js:29-38 | the client accepts the server's login reply iff a user row matches both credentials; the session then names the typed user and the first match's role |
| `EndToEnd.SignIn` | services/storageService.ts:112-136 | a sign-in against the users table stores a session iff the credentials match a row, with that row's role; otherwise the store is unchanged |
| `EndToEnd.DuplicateUserReportedAsConnectionError` | services/storageService.ts:165-179 | the 409 duplicate-user reply reaches the caller as the connection error; the corrected decision gives "Usuário já existe." |
| `EndToEnd.RefusedUserKeepsServerMessage` | server.js:122-137 | under the corrected decision, both refusals of `POST /users` surface the server's own message |
| `EndToEnd.SubmittedPayloadStoredIntact` | server.js:91-108 | every column the server reads from `data` is a field the admin form sends, so the row built from a submitted video or document holds each field |
| `EndToEnd.StoreSubmission` | server.js:87-110 | a form submission sent to `POST /content` answers success and appends one row to its kind's table that equals the payload field for field; the other table is untouched |
| `EndToEnd.ContentRepliesAsClientSeesThem` | services/storageService.ts:69-75 | the server's content-added reply makes the client reload; its 500 reply fails with the save-error prefix |
| `EndToEnd.DeleteRepliesAsClientSeesThem` | services/storageService.ts:93-103 | the server's deletion reply makes the client reload; its 404 and 400 replies surface the server's messages |

## Left out

- Rendering, styling and icons, the AI assistant and its generative-AI
  client, the static seed data in `constants.tsx`, and the login, dashboard,
  player, modal and user-management form components. They hold no rules of
  the core.
- `fetch`, the network, JSON parsing and the MySQL pool are not modelled.
  A response is an input value. A body that is not JSON lands in the same
  catch as a network failure, so both are `Thrown`.
- Database failures and the 500 replies they cause (`/login`, `/modules`,
  `POST /content`, `/users`, `DELETE /content`) are left out. The 500 of
  `POST /content` caused by a missing `data` object is modelled.
- Server.Database.AddContent: an insert the database rejects (for instance
  a NULL in a required column) answers 500 "Erro ao salvar conteúdo"; the
  model assumes every insert succeeds and answers success whenever `data`
  is present.
- SQL comparison is not modelled; the model compares strings exactly.
  MySQL's default collation compares usernames and, in `/login`
  (server.js:29-31), passwords case-insensitively and ignoring trailing
  spaces, so `Server.LoginReply` and `Server.FirstMatch` accept only exact
  matches where the database would also accept "ADMIN" for "admin". The
  `WHERE id = ?` of `DELETE /content` (server.js:175) compares an integer
  id column with the path string by numeric conversion, so "012" would
  delete row 12; `Server.Database.DeleteContent` matches the id string
  exactly.
  Auto-increment ids are the `newId` parameter. Row order is table order,
  and inserts append.
- Ids compared with `===` in JavaScript are compared as strings here. A
  numeric `module_id` compared against a string id is not modelled.
- Server.Database.AddUser: `!field` is modelled for string fields. A
  number, boolean or object in the request body is not modelled.
- Storage.SessionStore.Login: `data.success` is modelled as an optional
  boolean. Other truthy values are not modelled.
- ContentManagement.GroupedVideos: the object it fills is modelled as a
  map plus its keys in insertion order. Inherited keys such as
  "constructor", and `Object.entries` listing integer-like keys (a category
  such as "2024") first in numeric order, are not modelled.
- Portal.AppState.LoadData: the effect re-runs whenever the sign-in flag
  changes, and requests can interleave. These asynchronous interleavings
  are not modelled; each handler runs to completion.
- Admin.AdminForm.HandleSubmit: clearing the success message after three
  seconds (a timer) is not modelled. Component lifetimes are modelled only
  where the shell's loading spinner unmounts the admin panel during a
  submit (`Portal.AppState.SubmitFromAdmin`); other remounts are not. The text-field setters are plain
  assignments and have no members.
- The delete button is disabled while a deletion runs. This is rendering,
  and concurrent deletes are not modelled.
- `storageService.init` is a no-op and is not modelled. The session record
  is stored as a value, not as a JSON string.

## Findings

| source | as written | input that shows it | evidently intended | confidence | as-written member | corrected member |
|---|---|---|---|---|---|---|
| App.tsx:173-177 | the shell renders the admin panel without `onModulesUpdated`. The panel forwards that prop to the delete flow (components/AdminPanel.tsx:104-106), so after a successful delete the call of the missing function throws inside the try, and the catch alerts failure | a pending deletion target and a 200 reply to `DELETE /content/:type/:id` | the shell's module list is replaced by the reloaded list and no failure alert is shown | high, not executed | `Portal.AppState.DeleteFromAdmin` | `Portal.AppState.DeleteFromAdminWired` |
| services/storageService.ts:165-179 | addUser throws the server's refusal message inside its own try. The catch then replaces it with the generic "could not connect" message | the 409 reply "Usuário já existe." to `POST /users` for an existing username | the caller sees the server's message, as the comment at line 168 says; only a real connection failure gives the connection error | high, not executed | `EndToEnd.DuplicateUserReportedAsConnectionError` | `Storage.AddUserOutcomeIntended` |
| App.tsx:83 | handleAddContent raises the full-screen loading flag before its first await. While loading, the shell renders only the spinner (App.tsx:103-109), so the admin panel that started the submit is unmounted and later mounted from its initial state (components/AdminPanel.tsx:46-50) | any submit of the add-content form | the panel stays on screen and shows "Vídeo adicionado com sucesso!" or "Arquivo adicionado com sucesso!" for three seconds (components/AdminPanel.tsx:83, 90, 100), keeping the tab and the selected module | medium, not executed | `Portal.AppState.SubmitFromAdmin` | `Portal.AppState.SubmitFromAdminKeepingPanel` |
