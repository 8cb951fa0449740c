# Students CRUD demo: frontend view state and backend service rules

This project models the two pieces of logic in the students demo application:

- **The frontend students view** (`App` in `src/frontend/src/App.js`). It covers:
  - the initials avatar `TheAvatar`;
  - the component state `students` / `fetching` / `showDrawer`;
  - `fetchStudents`, which refreshes the list from the backend;
  - the delete flow `removeStudent`, started from a row's confirmation prompt;
  - the add-button toggle of the drawer form;
  - the branch choice of `renderStudents`.

  Remote calls are inputs: the `Result` they settled with. Notifications are an appended log of `(kind, title, body)`.
- **The backend `StudentService`** (`getAllStudents`, `addStudent`, `deleteStudent`) over its repository. The repository is modelled as a map from id to student. The two exceptions are the variants of `ServiceError`, each with its HTTP status (400, 404).

Modules:

| file | module | contents |
|---|---|---|
| wrappers.dfy | Wrappers | `Result` |
| records.dfy | Records | the `Student` record |
| decimal.dfy | Decimal | decimal text of integers, as template literals and Java string concatenation produce it, with its inverse |
| avatar.dfy | Avatar | JavaScript `trim` and `split` on one character, `TheAvatar`, and a corrected variant |
| frontend.dfy | Frontend | error/notification texts, `removeStudent`'s effects, `renderStudents`, the class `App` |
| student_service.dfy | Service | `ServiceError`, pure `Add`/`Delete` over the repository map, the class `StudentService` |

Two invariants are proved.
- `App.Valid()`: while `fetching` is set, the list is empty, the drawer is closed and nothing has been notified. Nothing but the spinner is on the page then, and `fetching` is only ever cleared.
- `StudentService.Valid()`: no two stored students share an email; every student carries the id it is stored under; ids lie below the next id to be assigned. The service checks emails only when it adds, so the rows of the injected repository are required to satisfy this already when the service is built. The model runs requests one at a time: unique emails are proved for serial requests only (see Left out).

Where the code departs from the behaviour one would expect of the view, the model follows the code:
- The code has a boolean `fetching`, not a Loading/Ready/Failed status. `fetchStudents` never sets it back to true, so later refreshes do not show the spinner.
- After a failed read the view is not a spinner: `fetching` is cleared, and the old list is rendered (or the empty placeholder).
- The avatar letters are read from the untrimmed name (see Findings).

## Model

| member | source | states |
|---|---|---|
| Avatar.Trim | src/frontend/src/App.js:18 | `trim()` is the slice of the name between a whitespace prefix and a whitespace suffix; it is empty exactly when every character is JavaScript whitespace, and otherwise starts and ends with non-whitespace |
| Avatar.TrimIdempotent | src/frontend/src/App.js:18 | trimming an already trimmed name changes nothing |
| Avatar.Split | src/frontend/src/App.js:22 | `split(" ")` has one more part than the text has spaces (only U+0020 separates, so tabs do not split) |
| Avatar.JoinSplit | src/frontend/src/App.js:22 | joining the parts of a split with the separator gives back the text |
| Avatar.TheAvatar | src/frontend/src/App.js:17-27 | total; any text label has one or two characters |
| Avatar.AvatarGenericIffBlank | src/frontend/src/App.js:18-21 | the generic icon is shown exactly when the name is empty or all whitespace |
| Avatar.AvatarOneLetter | src/frontend/src/App.js:22-24 | a non-blank name whose trim has no space gets the single letter `name[0]` of the untrimmed name |
| Avatar.AvatarTwoLetters | src/frontend/src/App.js:26 | a name whose trim contains a space gets `name[0]` and `name[|name|-1]` of the untrimmed name |
| Avatar.AvatarTwoLettersUnpadded | src/frontend/src/App.js:26 | for names with no surrounding whitespace that contain a space, the label is their first and last character |
| Avatar.AvatarBlankExamples | src/frontend/src/App.js:19-20 | `""` and `"   "` get the generic icon |
| Avatar.AvatarOneLetterExample | src/frontend/src/App.js:23-24 | `"Bill"` gets `"B"` |
| Avatar.AvatarTwoLettersExample | src/frontend/src/App.js:26 | `"Tom Riddle"` gets `"Te"` |
| Avatar.UntrimmedLetterFinding | src/frontend/src/App.js:24 | as written, `" Bill"` gets the label `" "`, while the trimmed reading gives `"B"` |
| Avatar.TheAvatarTrimmed | src/frontend/src/App.js:17-27 | corrected label: generic icon exactly for blank names, otherwise one or two letters, none of them whitespace |
| Avatar.AvatarTrimmedIgnoresPadding | src/frontend/src/App.js:18-26 | the corrected label depends on the trimmed name only |
| Avatar.AvatarAgreesOnTrimmedNames | src/frontend/src/App.js:24-26 | for names without surrounding whitespace, the as-written and corrected labels coincide |
| Decimal.ParseIntToString | src/frontend/src/App.js:133 | the decimal text used for a status or an id reads back as that number |
| Decimal.IntToStringInjective | src/main/java/com/example/demo/student/StudentService.java:32 | distinct ids have distinct decimal texts |
| Frontend.ErrorBody | src/frontend/src/App.js:133 | the error text is exactly `message [status] [error]`: it starts with the message followed by ` [`, the status digits fill the first brackets, and it ends with `] [`, the error label and `]` |
| Frontend.ErrorBodyDeterminesStatus | src/frontend/src/App.js:39 | with the same message and error label, two error texts are equal only if the statuses are |
| Frontend.DeletedBody | src/frontend/src/App.js:31 | the success text contains the deleted student's id |
| Frontend.DeletedBodyDeterminesId | src/frontend/src/App.js:31 | two success texts are equal only for the same id |
| Frontend.FetchNotifications | src/frontend/src/App.js:129-134 | a refresh notifies once, with the parsed error text, exactly when the read failed |
| Frontend.RemoveStudent | src/frontend/src/App.js:29-43 | exactly one notification comes first: success naming the id, or the parsed error; the callback runs once on success and never on failure |
| Frontend.RenderStudents | src/frontend/src/App.js:142-184 | spinner exactly while fetching; otherwise the add button and the drawer form (with `showDrawer`); the empty placeholder exactly for an empty list; otherwise the table of exactly the list with badge count `|students|` |
| Frontend.App.constructor | src/frontend/src/App.js:121-124 | initial state: no students, fetching, drawer closed, no notifications |
| Frontend.App.FetchStudents | src/frontend/src/App.js:126-140 | on success the list is the response exactly (same order, no dedup); on failure it is unchanged and one error is notified; `fetching` is false afterwards either way; keeps the invariant |
| Frontend.App.ToggleDrawer | src/frontend/src/App.js:149 | each add-button press (here and at line 168) flips `showDrawer` and changes nothing else; the button exists only when the spinner is not shown |
| Frontend.App.SetShowDrawer | src/frontend/src/App.js:153-157 | the drawer form sets `showDrawer` and changes nothing else |
| Frontend.App.ConfirmDelete | src/frontend/src/App.js:77-80 | confirming a row's delete appends `removeStudent`'s notification; only on a successful delete does it run the refresh, and only through that refresh does the list change |
| Service.ServiceError.HttpStatus | src/main/java/com/example/demo/student/exception/BadRequestException.java:7 | BadRequest maps to 400 and StudentNotFound to 404 |
| Service.Add | src/main/java/com/example/demo/student/StudentService.java:20-27 | refused with a 400 `Email <email> taken` exactly when some stored student has the email, leaving the repository unchanged; otherwise the student is stored under the new id and every other entry is unchanged |
| Service.Delete | src/main/java/com/example/demo/student/StudentService.java:29-35 | refused with a 404 `Student with the id of <id>does not exist` exactly when the id is absent, repository unchanged; otherwise exactly that key is removed and every other entry is unchanged |
| Service.DeleteUndoesAdd | src/main/java/com/example/demo/student/StudentService.java:26-34 | deleting a student just saved under a fresh id succeeds and gives back the repository as it was before the save |
| Service.AddPreservesUniqueEmails | src/main/java/com/example/demo/student/StudentService.java:22-26 | adding preserves "no two stored students share an email" |
| Service.DeletePreservesUniqueEmails | src/main/java/com/example/demo/student/StudentService.java:34 | deleting preserves the same invariant |
| Service.DeleteTwiceNotFound | src/main/java/com/example/demo/student/StudentService.java:31-34 | after a successful delete, deleting the same id is refused with NotFound |
| Service.AddTwiceBadRequest | src/main/java/com/example/demo/student/StudentService.java:22-25 | after a successful add, adding any student with the same email is refused with BadRequest |
| Service.ErrorMessageExamples | src/main/java/com/example/demo/student/StudentService.java:24-32 | the messages read `Email tom@example.com taken` and `Student with the id of 7does not exist` (no space before "does") |
| Service.StudentService.constructor | src/main/java/com/example/demo/student/StudentService.java:11-14 | a service over an injected repository (possibly already holding rows) and its next id; the invariant holds from the start provided the stored rows have unique emails, carry their keys as ids, and lie below the next id |
| Service.StudentService.GetAllStudents | src/main/java/com/example/demo/student/StudentService.java:16-18 | returns every stored student, each stored under its own id, nothing else, strictly ascending by id (so no student twice), and changes nothing |
| Service.ListedSound | src/main/java/com/example/demo/student/StudentService.java:17 | every student in the listing of ids below `n` is the one stored under its id, with an id in [1, n) |
| Service.ListedComplete | src/main/java/com/example/demo/student/StudentService.java:17 | every student stored under an id in [1, n) is in the listing |
| Service.ListedAscending | src/main/java/com/example/demo/student/StudentService.java:17 | the listing is strictly ascending by id |
| Service.StudentService.AddStudent | src/main/java/com/example/demo/student/StudentService.java:20-27 | behaves as `Add` with the next id, and keeps the invariant |
| Service.StudentService.DeleteStudent | src/main/java/com/example/demo/student/StudentService.java:29-35 | behaves as `Delete`, and keeps the invariant |

`Frontend.Session` is only a worked example: it mounts the view, refreshes twice, has one refresh fail and deletes a student. Its assertions follow from the contracts above. It has no contract of its own.

## Findings

| source | as written | input that shows it | evidently intended | confidence | as-written member | corrected member |
|---|---|---|---|---|---|---|
| src/frontend/src/App.js:24 | the blank test and the split use `name.trim()`, but the letters come from the untrimmed `name` | `" Bill"` shows the label `" "` (and `"Tom Riddle "` shows `"T "`) | letters from the trimmed name: `"B"` | medium, not executed | Avatar.UntrimmedLetterFinding (on Avatar.TheAvatar) | Avatar.TheAvatarTrimmed |

`Avatar.TheAvatar` stays the model of the code. No other member uses the avatar.

## Left out

- Network transport, promises and their scheduling. Each remote call is the `Result` it settled with.
- The ordering of the asynchronous error notification. It happens in a promise that the `catch` handler does not return, so it may come after `setFetching(false)`. The final state is the same either way.
- The parse `err.response.json()`. The error body is taken as already parsed.
- The crash when a caught error has no `response`, when `res.json()` fails on a successful read, and the text `undefined` for missing error fields.
- `console.log`, and the rendering of notifications. Only `(kind, title, body)` is recorded.
- Overlapping refreshes, where the last response to settle wins. Each FetchStudents call is one settled response.
- `StudentDrawerForm` beyond what it does to this state: it sets `showDrawer` (SetShowDrawer) and may call `fetchStudents` (FetchStudents).
- The cancel button of the delete prompt (it does nothing), and the unwired Edit button.
- The table's column layout, pagination and scrolling. The avatar column uses TheAvatar; the actions column is ConfirmDelete.
- The `Sider` `collapsed` state, the static menu, the breadcrumb and the page layout: presentation only.
- Character width. JavaScript `charAt` returns one UTF-16 code unit; the model's `char` is a whole Unicode scalar value, so names containing surrogate pairs are not modelled.
- Integer width. Ids and statuses are unbounded integers: the Java `Long` range and JavaScript number precision above 2^53 are not modelled.
- Id assignment is not visible in the service. The model assumes the persistence layer hands out fresh ids 1, 2, 3, … and ignores any id in the request. Saving over an existing id (a merge) therefore never happens in the model.
- Service.StudentService.GetAllStudents: the repository promises no order. The model returns ascending id order, which is one of the orders `findAll` may produce.
- Email matching in `selectExistsEmail` is exact string equality. Database collation and case rules are not modelled.
- Concurrent requests. `addStudent` checks the email and then saves, which is not atomic, and no lock, transaction or unique constraint is visible. Two simultaneous adds with the same email could both be saved. The model runs requests one at a time, and unique emails are proved only for that.
- Spring annotations, dependency injection, JPA internals, and the exceptions' inheritance from `RuntimeException` (only their variant and status are kept).
