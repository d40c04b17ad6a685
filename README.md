# Employee leave tracker: a verified model

This project is a Dafny model of a small employee leave-request tracker. Employees ask for leave, and administrators approve or reject the requests. The model covers five pieces:

- **Leave store** (`leaves.dfy`, module `Leaves`). A map from record id to leave record, plus the six controller operations:
  - create, with field validation, date-order validation and the inclusive day count;
  - list own and list all, newest first;
  - update status;
  - get by id, with the ownership check;
  - delete, where an employee may remove only their own Pending records.
- **Leave routes** (`leave_routes.dfy`, module `LeaveRoutes`). The route table says which requests need only an authenticated caller and which need the `admin` role. `Handle` runs that guard and then the controller operation.
- **Identity service** (`auth.dfy`, module `Auth`). A user registry with:
  - registration checks in the source's order: required fields, then email/username uniqueness, then employee-id uniqueness;
  - the role default;
  - a login whose two failure causes give identical replies.
- **Account form** (`create_account.dfy`, module `CreateAccount`). The client's registration form:
  - `validateForm`, with ECMAScript `trim`, `\S`, and `length` counted in UTF-16 code units;
  - the change handler;
  - submit gating, the request body, and how the reply is shown.
- **Client session** (`session.dfy`, module `Session`). The top-level client component: restoring the session at startup, the 30-minute inactivity expiry, login, logout over a storage map, and choosing the screen by role.

`common.dfy` (module `Common`) holds the shared types: `Option`, `Result`, `Outcome`, `Error(status, message)`, the caller, the public user record, the two role names, and `Present`. `Present` models JavaScript truthiness of an optional string: it must exist and be non-empty.

Dates and clock readings are integer milliseconds. The caller passes in "now". Roles are plain strings, as in the source. For that reason, the rules that test `role === 'employee'` give every other role the same rights as `admin`, and the model keeps that behaviour.

The code and its own comments disagree in a few places. The model follows the code:

- `createLeave` and `getMyLeaves` are commented "Employee only". The route table lets any authenticated caller reach them, admins included.
- Get-by-id and delete grant full rights to every role other than `employee`, not only to `admin`.
- A status update applies to a record in any status. There is no terminal-state guard.

## Model

| member | source | states |
|---|---|---|
| Leaves.CeilDiv | Backend/controllers/leaveController.js:34 | `Math.ceil` of an integer quotient: the least q with a <= q*d |
| Leaves.DayCount | Backend/controllers/leaveController.js:33-34 | the day count n brackets the gap: (n-2) days < end-start <= (n-1) days; ordered dates give n >= 1 |
| Leaves.DayCountExampleThreeDays | Backend/controllers/leaveController.js:33-34 | 2024-01-10 to 2024-01-12 counts 3 days |
| Leaves.DayCountExamplePartialDay | Backend/controllers/leaveController.js:33-34 | equal dates count 1; any part of a further day counts as a whole day |
| Leaves.Decision | Backend/controllers/leaveController.js:113-115 | a status is accepted iff it is exactly "Approved" or "Rejected"; an accepted value gives the status of that name, never Pending |
| Leaves.InsertNewestFirst | Backend/controllers/leaveController.js:71 | insertion keeps createdAt non-increasing and adds exactly one element (multiset) |
| Leaves.UpdateKeepsRecord | Backend/controllers/leaveController.js:124-126 | a status update keeps the record well formed and keeps owner, dates, day count and creation time |
| Leaves.LeaveStore.Create | Backend/controllers/leaveController.js:13-46 | missing fields give 400 before the dates are compared; end < start gives 400; otherwise exactly one new Pending record owned by the caller with the day count; store unchanged on errors |
| Leaves.LeaveStore.Query | Backend/controllers/leaveController.js:69-71 | returns exactly the stored records of the selected owner (or all), each once, newest first |
| Leaves.LeaveStore.MyLeaves | Backend/controllers/leaveController.js:67-77 | exactly the caller's records, newest first, no duplicates, count = length |
| Leaves.LeaveStore.AllLeaves | Backend/controllers/leaveController.js:87-97 | every record, newest first, no duplicates, count = length |
| Leaves.LeaveStore.UpdateStatus | Backend/controllers/leaveController.js:107-126 | an invalid status gives 400 even for an unknown id; an unknown id gives 404; otherwise only status and updatedAt of that record change, whatever its prior status |
| Leaves.LeaveStore.GetById | Backend/controllers/leaveController.js:144-156 | 404 for an unknown id whatever the role; 403 iff the caller is an employee and not the owner; otherwise the stored record |
| Leaves.LeaveStore.Delete | Backend/controllers/leaveController.js:171-190 | 404, then employee non-owner 403, then employee non-Pending 400; otherwise exactly that record is removed |
| LeaveRoutes.GuardOf | Backend/routes/leaves.js:13-23 | only list-all and update-status carry `authorize('admin')`; every route carries `protect` |
| LeaveRoutes.Gate | Backend/routes/leaves.js:14-23 | passes iff there is a caller and, on list-all and update-status, the caller is admin; 401 iff no caller; 403 iff a non-admin on an admin route |
| LeaveRoutes.AnyAuthenticatedCallerMayCreateAndListOwn | Backend/routes/leaves.js:13-23 | any authenticated caller, of any role, passes the guard of create, list own, and get and delete of every record id |
| LeaveRoutes.NonAdminCannotDecide | Backend/routes/leaves.js:18-19 | a non-admin is refused list-all and update-status by the guard, whatever the status value or id |
| LeaveRoutes.Handle | Backend/routes/leaves.js:14-23 | a failed guard answers its error and leaves the store unchanged (so it wins over every controller error); otherwise each route gives the controller's reply and new store: the full new record on create, the listing, the updated record, the read or the removal, with the id counter moved only by a successful create |
| Auth.PublicHidesCredentials | Backend/controllers/authController.js:41-47 | the reply's user object does not depend on the stored password or employee id |
| Auth.AddUserKeepsWellFormed | Backend/controllers/authController.js:68-89 | adding a user whose email, username and employee id are unused keeps every one of them unique |
| Auth.UserRegistry.Register | Backend/controllers/authController.js:58-103 | missing username/email/password/fullName gives 400; then a shared email or username gives 400; then a given, taken employee id gives 400; otherwise exactly one new user with defaulted role and a token for it; users unchanged on errors |
| Auth.UserRegistry.Login | Backend/controllers/authController.js:14-48 | missing email or password gives 400; otherwise it succeeds iff some user with that email has a matching password, and every other failure is the same 401 "Invalid credentials"; success returns that user's public record and token |
| CreateAccount.Set | Frontend/src/components/CreateAccount/CreateAccount.jsx:91-94 | the named input takes the value and no other input changes |
| CreateAccount.TrimStartShape | Frontend/src/components/CreateAccount/CreateAccount.jsx:20 | `trim` drops exactly a leading run of whitespace |
| CreateAccount.TrimEndShape | Frontend/src/components/CreateAccount/CreateAccount.jsx:20 | `trim` drops exactly a trailing run of whitespace |
| CreateAccount.TrimEmptyIffAllSpace | Frontend/src/components/CreateAccount/CreateAccount.jsx:20-28 | a value is blank after trimming iff every character is whitespace |
| CreateAccount.EmailShapedAt | Frontend/src/components/CreateAccount/CreateAccount.jsx:30 | a non-space, `@`, a non-space run, `.`, a non-space anywhere in the string satisfies the pattern |
| CreateAccount.EmailShapedAccepts | Frontend/src/components/CreateAccount/CreateAccount.jsx:30 | "a@b.c" matches |
| CreateAccount.EmailShapedAcceptsInside | Frontend/src/components/CreateAccount/CreateAccount.jsx:30 | "see: x@y.z" matches, because the search is unanchored |
| CreateAccount.EmailShapedRejects | Frontend/src/components/CreateAccount/CreateAccount.jsx:30 | "a@b", "@b.c" and "a @b.c" do not match |
| CreateAccount.EmailShapedIsNotBlank | Frontend/src/components/CreateAccount/CreateAccount.jsx:28-32 | an email matching the pattern is never blank, so the two email errors exclude each other |
| CreateAccount.Utf16LengthBounds | Frontend/src/components/CreateAccount/CreateAccount.jsx:36 | the length in code units lies between the number of characters and twice that |
| CreateAccount.ReportsDetermines | Frontend/src/components/CreateAccount/CreateAccount.jsx:17-46 | the per-input rules (`Reports`: an entry iff the input's rule fails, with that rule's message, and no submit entry) fix the error dictionary uniquely |
| CreateAccount.ValidateForm | Frontend/src/components/CreateAccount/CreateAccount.jsx:17-48 | the dictionary built is the one `Reports` describes; true iff it is empty iff the form is acceptable |
| CreateAccount.HandleChange | Frontend/src/components/CreateAccount/CreateAccount.jsx:89-101 | only the named input changes; only that input's error is cleared, other errors and the key set stay |
| CreateAccount.HandleSubmit | Frontend/src/components/CreateAccount/CreateAccount.jsx:50-70 | the errors shown are exactly `validateForm`'s dictionary; a request is sent iff the form validates; it carries username = employee id and role `employee`; loading is set exactly when it is sent |
| CreateAccount.SentRequestHasRequiredFields | Frontend/src/components/CreateAccount/CreateAccount.jsx:62-69 | a request from an accepted form always passes the server's required-field check and asks for role `employee` |
| CreateAccount.ReplyOf | Frontend/src/components/CreateAccount/CreateAccount.jsx:72-74 | a registration result reads as `ok && success` iff it succeeded, and a failure carries the server message |
| CreateAccount.FinishSubmit | Frontend/src/components/CreateAccount/CreateAccount.jsx:72-85 | loading always ends; created iff ok and success; otherwise exactly one submit error: the server message, the fallback text, or the unreachable text |
| CreateAccount.RejectionShowsServerMessage | Frontend/src/components/CreateAccount/CreateAccount.jsx:78 | a rejected registration shows the server's message and nothing else |
| Session.ExpiryBoundary | Frontend/src/App.jsx:13-25 | exactly 30 minutes does not expire; one millisecond more does; a time `parseInt` cannot read never expires |
| Session.ExpiryMonotone | Frontend/src/App.jsx:22-25 | an expired session stays expired at every later time, and an earlier activity time expires no later |
| Session.App.constructor | Frontend/src/App.jsx:9-10 | first render: nobody logged in, the create-account form hidden, storage as saved |
| Session.App.Startup | Frontend/src/App.jsx:16-38 | no saved user: nothing changes; saved user with an expired activity time: logout and a notice; otherwise the user is restored and the activity time becomes now |
| Session.App.CheckInactivity | Frontend/src/App.jsx:41-59 | logs out with a notice iff logged in, an activity entry is present and its time has expired; otherwise nothing changes, including when the entry is gone |
| Session.App.RecordActivity | Frontend/src/App.jsx:62-85 | while logged in, an input event sets the activity time to now; otherwise nothing changes |
| Session.App.HandleLogin | Frontend/src/App.jsx:87-92 | the user is current and stored, and the activity time is now |
| Session.App.HandleLogout | Frontend/src/App.jsx:94-100 | no current user; exactly the four session keys are removed and every other key keeps its value; a login or account form is shown |
| Session.App.SetShowCreateAccount | Frontend/src/App.jsx:102-112 | the show/back/created handlers set the create-account flag |
| Session.App.Screen | Frontend/src/App.jsx:114-126 | admin dashboard iff the user is an admin; employee dashboard iff an employee; otherwise the account form iff it was asked for, else login |

`Valid()` on each class is its invariant, and every state-changing method preserves it:

- For `LeaveStore`: ids are below the next id, each record knows its own id, and each record is well formed.
- For `UserRegistry`: required fields are non-empty, and email, username and employee id are unique.
- For `App`: a logged-in user is stored, along with a numeric activity time.

`Leaves.Scenario` replays a request's lifecycle: create, approve, a foreign employee's read, and the owner's refused delete.

## Left out

- Token signing and verification are not modelled. A token is the id of the user it names. The 30-day expiry is not modelled.
- Password hashing is not modelled. `comparePassword` is an uninterpreted function the registry is constructed with.
- The internals of `protect` and `authorize` are not part of this model. Their replies are placeholders with status 401 and 403.
- `getMe` is not modelled. It reads the user that `protect` resolved, and that middleware is not part of this model.
- Parsing date strings is not modelled: dates arrive as valid integer milliseconds. Invalid dates, for which JavaScript's `NaN` makes `end < start` false, are not modelled.
- The `Math.ceil` of a floating-point quotient is modelled as exact integer ceiling division.
- Leaves.LeaveStore.Create: `!startDate` is modelled as absence, so an empty date string is not distinguished from a missing one.
- The `populate` joins of owner details are not modelled. Replies carry the owner id only.
- Every `catch` that answers 500 is not modelled. This includes a malformed id, which the store rejects with an exception.
- `console` output is not modelled.
- Record ids and user ids come from a counter, not from store-generated object ids.
- `createdAt` is the caller's "now" at creation.
- Leaves.LeaveStore.Query: the order among records with equal `createdAt` is left open.
- Auth.UserRegistry.Register: a uniqueness race between two concurrent registrations, which a store index would catch, is outside this single-threaded model.
- The `fetch` call, `alert` and `e.preventDefault()` are not modelled. The network reply is the `Reply` value, and `handleSubmit` is split into `HandleSubmit` (up to the request) and `FinishSubmit` (after the reply).
- Session.App.Startup: a saved `currentUser` entry that is not a serialised user object is excluded by its precondition. This covers text on which `JSON.parse` throws, and also JSON that parses to some other value (a number, a string, `null`, an object of another shape), which the component would take as the current user.
- Session.App.CheckInactivity: no operation models another tab writing the shared storage. The contracts of `CheckInactivity` and `RecordActivity` do not require the storage to match the shown user, so they cover a `lastActivity` entry removed elsewhere, but nothing in the model produces that state.
- Timers and event-listener registration are not modelled. The model keeps the decision each timer tick makes (`CheckInactivity`) and the listener callback (`RecordActivity`).
- The dashboards and the login screen are not modelled.
