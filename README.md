# Blood-donation back end: record store, validators and request handlers

This project models the server side of a blood-donation web application.
The public site takes donor applications and contact messages, and admins
log in to review applications and approve or reject them.

There are three parts:

- **The in-memory record store** (`Storage`, from `server/storage.ts`). The
  `MemStorage` class keeps three keyed tables: admins, donors and contact
  messages. It is seeded with one admin. It inserts records under fresh ids
  with a creation time. It looks admins up by exact username and donors by id.
  It sets a donor's status in place and lists donors and messages newest first.
  A JavaScript `Map` iterates in insertion order, and both the username lookup
  and the tie order of the listings depend on that. So each table keeps its
  keys' insertion order beside it.
- **The input schemas** (`Schema`, from `shared/schema.ts`). These are the
  record shapes and the two zod schemas the forms are checked with. A schema
  gives back either the typed record or the list of problems, field by field.
- **The HTTP handlers** (`Routes` from `server/routes.ts`, `DonorController` from
  `server/Controller/donor.controller.ts`). Register, login, logout and
  session check run over an admin collection and one session slot. Contact
  submit and list run over a message collection. Donor add, list, status
  update and delete run over a donor collection. Each collection is a
  sequence of the stored documents. Each handler returns a
  status code and a JSON body. The routes take their decision in a pure
  function (`DecideRegister`, `DecideLogin`, `DecideContact`,
  `CheckedStatusUpdate`) and then apply it to the state.

`Collections` holds what the parts share. `FirstWith` is the first-match
lookup behind `Array.prototype.find`. `SortNewestFirst` is the newest-first
sort, proved to be a sorted permutation that keeps equal timestamps in
their input order. `Http.Response` is the status and body pair.

Where the code and the intended design differ, the model follows the code:

- No donor route and no contact listing checks the session.
- The contact route does not check the email format. Only the client-side
  schema does (`ContactRouteSkipsEmailCheck`).
- Deleting a donor answers 200 or 404 rather than a boolean.
- Registration compares usernames exactly, so admins whose names differ
  only in case can coexist. The login lookup ignores case and has no sort,
  so the database decides which of them it answers with. The model takes
  that answer as a parameter `found`, constrained to be a match. Of two such
  admins with different passwords, at most one can log in
  (`CaseVariantsCannotBothLogIn`).
- As written, the status update accepts any string. The model keeps that
  update as `UpdateAsWritten` and builds the handler on the corrected one
  (see Findings).

Ids come from a counter in each class. It stands in for `randomUUID` and
database ids, and every id it hands out is fresh. Clock readings are a `now`
parameter. The email-format test is a parameter `isEmail`. JSON numbers are
`real`, so the schema's whole-number check has something to refuse. String
lengths in the schemas are counted in UTF-16 code units, as JavaScript
counts them.

## Model

| member | source | states |
|---|---|---|
| `Collections.FirstWith` | server/storage.ts:49-51 | the index found is the first whose key matches; none is found exactly when no element matches |
| `Collections.FirstWithAppend` | server/storage.ts:54-59 | appending a record never changes which earlier record a lookup finds; on a miss, the lookup finds the new one exactly when it matches |
| `Collections.SortNewestFirst` | server/storage.ts:62-66 | the listing holds exactly the input's elements (same multiset, same length), ordered by timestamp non-increasing |
| `Collections.SortKeepsNewestFirst` | server/storage.ts:63-65 | an input already newest first comes back unchanged (ties keep their order) |
| `Collections.SortIdempotent` | server/storage.ts:63-65 | sorting a listing a second time changes nothing |
| `Collections.SortWithKey` | server/storage.ts:63-65 | the sort is stable: for every timestamp, the elements carrying it come out in the order they went in |
| `Schema.ParseStatus` | shared/schema.ts:43 | exactly "pending", "approved" and "rejected" name a status, each naming its own |
| `Schema.ParseContactMessage` | shared/schema.ts:13-18 | accepted exactly when name, subject and message have at least one character and the email is an address; success copies the four fields; failure reports at least one issue, each on one of the four fields |
| `Schema.ParseDonor` | shared/schema.ts:26-33 | accepted exactly when name, blood type and address are non-empty, the phone has at least 5 UTF-16 code units, the email is an address and the age is a whole number above 0; success copies the six fields |
| `Schema.PositiveIntegerIssues` | shared/schema.ts:31 | an age has no issue exactly when present, whole and above 0; a fraction is reported as not whole and a value of 0 or below as not positive, both when both hold |
| `Schema.ShortPhoneRejected` | shared/schema.ts:29 | a phone shorter than 5 UTF-16 code units fails the donor schema with a too-short issue on "phone" |
| `Schema.Utf16Length` | shared/schema.ts:29 | a string's JavaScript length lies between its character count and twice that, and is 0 exactly for the empty string |
| `Schema.AstralPhoneAccepted` | shared/schema.ts:29 | three characters above U+FFFF are six code units and pass the phone's minimum length of 5 |
| `Schema.NonPositiveAgeRejected` | shared/schema.ts:31 | an age of 0 or below fails the donor schema with a not-positive issue on "age" |
| `Schema.FractionalAgeRejected` | shared/schema.ts:31 | an age with a fraction fails the donor schema with a not-whole issue on "age" |
| `Schema.AnyBloodTypeAccepted` | shared/schema.ts:30 | the blood type is checked only for being non-empty: any non-empty text is accepted in place of a valid one |
| `Storage.MemStorage.constructor` | server/storage.ts:32-45 | a new store holds one admin, with username "admin", password "password" and name "Admin User", and no donors or messages |
| `Storage.MemStorage.GetAdminByUsername` | server/storage.ts:48-52 | the result's username equals the argument exactly and it is the first such admin in insertion order; nothing is found exactly when no stored admin has that username |
| `Storage.MemStorage.CreateAdmin` | server/storage.ts:54-59 | one admin is added under a fresh id with the given fields and listed last; there is no duplicate check, and an earlier admin with the same username is still the one a lookup finds; the other tables are unchanged |
| `Storage.MemStorage.GetAllDonors` | server/storage.ts:62-66 | a permutation of the stored donors (every stored donor once, nothing else) ordered by application time non-increasing; reading changes nothing; donors with equal application times keep their insertion order |
| `Storage.MemStorage.GetDonor` | server/storage.ts:68-70 | a donor is found exactly when its id is stored, and it carries that id |
| `Storage.MemStorage.CreateDonor` | server/storage.ts:72-82 | the new donor has the given fields, status pending and application time now, under a fresh id; the table grows by one and every other donor and table is unchanged |
| `Storage.MemStorage.UpdateDonorStatus` | server/storage.ts:84-91 | an absent id gives nothing and leaves the table as it was; a present id gives the donor with only its status changed, stored in place, with the key set, the listing order and every other donor unchanged |
| `Storage.MemStorage.CreateContactMessage` | server/storage.ts:94-105 | the new message has the given fields and creation time now under a fresh id, is listed last, and the other tables are unchanged |
| `Storage.MemStorage.GetAllContactMessages` | server/storage.ts:107-111 | a permutation of the stored messages ordered by creation time non-increasing; messages with equal creation times keep their insertion order |
| `Routes.DecideRegister` | server/routes.ts:51-61 | a missing or empty field refuses first; then a username some admin has exactly (case-sensitive) is taken; otherwise the admin is created from the three fields |
| `Routes.Server.Register` | server/routes.ts:49-68 | 400 "All fields are required" or 400 "Username already exists" store nothing; otherwise 201 and exactly one admin with a fresh id is appended; the session and messages are untouched |
| `Routes.CaseVariantRegisters` | server/routes.ts:56-59 | a username that differs from every stored one, even if only in case, registers a new admin |
| `Routes.SameIgnoringCaseIff` | server/routes.ts:81-83 | two names match exactly when they have the same length and each character pairs with itself or with the other case of the same letter A-Z |
| `Routes.DecideLogin` | server/routes.ts:73-97 | a missing or empty field refuses first; an unknown user is one whose name matches no admin up to case; otherwise the password is compared exactly with that of the matching admin the lookup answers with, which may be any match |
| `Routes.Server.Login` | server/routes.ts:71-116 | 400 when a field is missing; 401 exactly for the unknown user and the wrong password, both leaving the session as it was; on success the session holds the id, stored username and name of the admin the lookup answered with (no password) and the answer gives only username and name |
| `Routes.UniqueMatchDecidesLogin` | server/routes.ts:81-97 | when exactly one admin matches up to case, the lookup answers with it and login succeeds exactly with its password |
| `Routes.CaseVariantsCannotBothLogIn` | server/routes.ts:56-97 | of two admins whose names differ only in case and whose passwords differ, at most one logs in with their own name and password, whichever admin the lookup answers with |
| `Routes.Server.Logout` | server/routes.ts:119-126 | the session is cleared and the answer is 200 with success true |
| `Routes.Server.CheckSession` | server/routes.ts:129-135 | 200 with the stored session admin, or null when there is none |
| `Routes.LogoutThenCheck` | server/routes.ts:119-135 | after logout the session check answers admin null |
| `Routes.LoginThenCheck` | server/routes.ts:100-135 | after a successful login the session check answers the id, username and name of the admin found |
| `Routes.DecideContact` | server/routes.ts:150-154 | a message is accepted exactly when all four fields are present and non-empty, and it is built from them as given |
| `Routes.ContactRouteSkipsEmailCheck` | server/routes.ts:150-162 | a message whose email the contact schema refuses is still accepted by the route |
| `Routes.SchemaValidContactAccepted` | server/routes.ts:150-162 | a message the contact schema accepts is accepted by the route with the same fields |
| `Routes.Server.SubmitContact` | server/routes.ts:148-170 | 400 "All fields are required" stores nothing; otherwise 201 with the saved message, created now under a fresh id and appended; admins and session untouched |
| `Routes.Server.ListContacts` | server/routes.ts:172-179 | 200 with every stored message once, newest first; no session is consulted |
| `DonorController.DonorApi.AddDonor` | server/Controller/donor.controller.ts:5-13 | a request the save refuses gives 500 and stores nothing; otherwise 201 with the one appended document, its fields copied, status pending unless given and applied now unless given, under a fresh id |
| `DonorController.DonorApi.GetDonors` | server/Controller/donor.controller.ts:16-23 | 200 with every stored document once, newest application first; nothing changes |
| `DonorController.UpdateAsWritten` | server/Controller/donor.controller.ts:31-35 | the update as issued: an unknown id changes nothing, otherwise the document with that id gets the request's status whatever it is |
| `DonorController.AsWrittenStoresUnknownStatus` | server/Controller/donor.controller.ts:31-35 | as written, updating a donor with status "banana" stores a status outside the three |
| `DonorController.CheckedStatusUpdate` | server/Controller/donor.controller.ts:26-45 | an unknown status or an unknown id changes nothing; otherwise only the status of the document with that id changes; a collection whose statuses are all known stays so |
| `DonorController.DonorApi.UpdateDonorStatus` | server/Controller/donor.controller.ts:26-45 | the corrected handler: an unknown status gives 500 and an unknown id 404, both changing nothing; otherwise 200 with the updated document, where only that document's status has become the requested one |
| `DonorController.RemoveAtById` | server/Controller/donor.controller.ts:51 | removing a document leaves exactly the documents with other ids, with distinct ids and known statuses kept |
| `DonorController.DonorApi.DeleteDonor` | server/Controller/donor.controller.ts:48-61 | a stored id's document is removed, and only it, with 200; an unknown id gives 404 and changes nothing |
| `DonorController.RemovedIdIsGone` | server/Controller/donor.controller.ts:51-55 | after the removal no document has that id |
| `DonorController.DeleteTwice` | server/Controller/donor.controller.ts:48-61 | deleting the same stored donor twice answers 200 and then 404 |
| `DonorController.SubmitThenApprove` | server/Controller/donor.controller.ts:5-41 | an application added answers 201 with status pending; once approved, the listing holds the document with that id, and every listed document with that id is the added one with status approved |

## Left out

- Session cookies: the secret, the cookie flags and the 24-hour lifetime (server/routes.ts:29-42) are library settings. The session is one optional value.
- Failures of the database or the runtime, which answer 500 from the `catch` blocks, and a failing session destroy on logout (500 "Logout failed"). The one 500 that is modelled is a refused save (and the refused status update, see Findings).
- Id generation and casting: ids are naturals from a counter. A malformed id in the URL, which the database refuses with a cast error (500), is not modelled.
- `randomUUID`, `new Date()` and `Date.now` become the counter and a `now` parameter.
- The login lookup builds a regular expression from the raw username (server/routes.ts:82). The model compares names for equality up to ASCII case. Pattern characters in the username and case folding beyond ASCII are not modelled.
- Email syntax is the parameter `isEmail`. The texts of the schema's error messages are not modelled, and neither are NaN and infinite ages.
- Request bodies hold strings or nothing. Other JSON values (numbers, objects, arrays) in string fields are not modelled, nor a body that sets `_id`.
- The database's own `createdAt`/`updatedAt` timestamps on every document.
- A status update whose body has no `status`: what the database does with an undefined field depends on the library version.
- Concurrent requests, including two registrations of one username at once, which the unique index would turn into a 500.
- Admin-only access to donor routes and to the contact listing: the code has none, so the model asserts none.
- The approve and reject endpoints that the client calls, which the server never registers.
- The client pages (React rendering), logging and the HTTP server set-up.
- `MemStorage` is modelled on its own, because the handlers use the database collections and not this store.
- `Routes.DecideLogin`: which admin the lookup answers with when several match up to case is a parameter, because the query has no sort and the database's choice is not part of the code.
- `DonorController.DonorApi.UpdateDonorStatus`: the handler validates the new status; the code as written stores any string and answers 200, or 404 for an unknown id. `DonorController.UpdateAsWritten` models that update.
- `Routes.Server.ListContacts`: the order of messages with equal creation times is left open, as the database sort leaves it.
- `DonorController.DonorApi.GetDonors`: the order of documents with equal application times is left open, as the database sort leaves it.

## Findings

| source | as written | input that shows it | evidently intended | confidence | as-written member | corrected member |
|---|---|---|---|---|---|---|
| server/Controller/donor.controller.ts:31-35 | the status update runs without validators, so the request's status is written as it comes, although the schema limits status to pending, approved and rejected (server/models/donor.model.ts:22, shared/schema.ts:43) | `PUT /api/donors/<id of a stored donor>/status` with body `{"status": "banana"}` stores "banana" and answers 200 | a status outside the three is refused and the document keeps its status; the handler `DonorController.DonorApi.UpdateDonorStatus` is built on the corrected update | medium, not executed | `DonorController.AsWrittenStoresUnknownStatus` | `DonorController.CheckedStatusUpdate` |
