# RollCall in Dafny

RollCall is the attendance tracker of an Air Force ROTC detachment. It is a
set of Streamlit pages over a MongoDB database. Cadets and staff log in
against a users file. Staff see an attendance matrix of events by cadets,
manage cadet profiles and flights, and approve or deny the waivers that
cadets file against their absences. A seeding script fills the database
with a demo detachment.

This project models that core and proves properties of it:

- `common.dfy` (`Common`): documents as maps from field names to values.
  It also models the Python built-ins the pages rely on: `dict.get`,
  `str.strip`, `str.lower`, `in` on strings, `str()` of an ObjectId and of
  `None`, and the "last write wins" dictionary comprehension.
- `store.dfy` (`Store`): the MongoDB collections as a pure state.
  - The state is `DbState`: the eight collections, a connection flag, an
    index flag and the next fresh id.
  - It supports `insert_one`, the `$set` form of `update_one`,
    `delete_one`, `drop_collection`, `create_indexes` and the `find` forms
    the pages use.
  - Error paths are explicit. An unreachable store (`get_collection`
    returns `None`) gives `Unavailable`/`NoCollection`. A unique-index
    violation gives `DuplicateKey`/`Clash`.
- `crud.dfy` (`Crud`): the data-access layer, `utils/db_schema_crud.py`.
  - The document builders and the getters are functions.
  - The `Database` class holds the store's fields and is updated in place.
    Each writer is a method proved equal to the pure store operation.
- `auth.dfy` (`Auth`): credential loading, the cached authenticator, the
  current user and the role gate (`utils/auth.py`).
- `dashboard.dfy` (`Dashboard`): the attendance matrix page. It covers
  status normalisation, cadet columns sorted case-insensitively by name,
  event rows newest first, the status lookup and the grid with absent as
  the default.
- `attendance_submission.dfy` (`AttendanceSubmission`): the six-digit
  session password and the "reported" latch.
- `cadet_admin.dfy` (`CadetAdmin`): the add-cadet form's input check (the
  two regular expressions as languages), the rank index and adding a
  cadet profile.
- `flight_admin.dfy` (`FlightAdmin`): the cadet display map, flight
  creation, assignment and deletion.
- `waiver_submission.dfy` (`WaiverSubmission`): a cadet's waivers,
  absences without a waiver, the record dropdown and the waiver form with
  its session slot.
- `waiver_review.dfy` (`WaiverReview`): the approver lookup, the status,
  flight and search filters, newest-first ordering, the review cards and
  the approve/deny decision.
- `ordering.dfy` (`Ordering`): Python's stable `sorted` (optionally
  `reverse=True`) over keys that are datetimes, strings or
  `datetime.min`. The comparison is proved to be a total order. The sort
  is proved to be ordered, a permutation and stable.
- `seed.dfy` (`Seed`): `scripts/seed_users.py`. Its constant tables, the
  dictionaries it builds and `populate` itself are modelled, run against
  the `Database` class. The proof shows every collection ends exactly as
  described and that the rebuilt unique indexes accept the seeded data.

Clocks, random draws and password hashes are parameters: `now`, `draw`,
`hash` and the events' start and end `times`.

## Model

| member | source | states |
|---|---|---|
| Common.Get | utils/db_schema_crud.py:37 | a field read yields a value exactly when the key is present, and then the stored value |
| Common.TextOf | pages/6_Waiver_Review.py:81 | yields text exactly when the field holds a string, and that string |
| Common.RefOf | pages/6_Waiver_Review.py:93 | yields an id exactly when the field holds a reference, and that id |
| Common.TimeOf | pages/1_Dashboard.py:102-103 | yields a moment exactly when the field holds a datetime |
| Common.Strip | pages/1_Dashboard.py:28 | the result has no whitespace at either end, and it is empty exactly when the input is all whitespace |
| Common.StripIsInfix | pages/1_Dashboard.py:28 | the result is one contiguous piece of the input |
| Common.Lower | pages/1_Dashboard.py:28 | the result has the input's length and maps every upper-case ASCII letter to lower case, position by position |
| Common.StripLower | pages/6_Waiver_Review.py:62 | stripping and lower-casing commute |
| Common.StripKeeps | pages/5_Waivers.py:120 | stripping text without surrounding whitespace returns it unchanged |
| Common.LowerKeeps | pages/6_Waiver_Review.py:66 | lower-casing text with no upper-case letters returns it unchanged |
| Common.FirstIndexOf | pages/5_Waivers.py:101-104 | the first position holding the element, or none exactly when it is absent |
| Common.LastIndexOf | pages/5_Waivers.py:97 | the last position holding the element, or none exactly when it is absent |
| Common.ContainsIsInfix | pages/6_Waiver_Review.py:129 | the substring test holds exactly when the needle occurs at some position of the haystack |
| Common.EmptyContained | pages/6_Waiver_Review.py:127 | the empty string is contained in every string |
| Common.IdText | pages/5_Waivers.py:73 | `str()` of an ObjectId is 24 characters with no space |
| Common.FieldText | pages/4_Flight_Management.py:50-51 | a missing field formats as the empty string and a present one as its text (`Show`; a datetime as its day, see Left out) |
| Common.PyText | pages/6_Waiver_Review.py:110 | `None` formats as "None" and a string as itself |
| Common.LastWinsKeys | pages/5_Waivers.py:97 | a key is in the comprehension's dictionary exactly when some element produces it |
| Common.LastWinsValue | pages/5_Waivers.py:97 | a key maps to the value of the last element that produces it |
| Common.LastWinsStep | pages/4_Flight_Management.py:46-52 | one more element adds or overwrites its own key and leaves the rest of the dictionary as it was |
| Store.IndexKey | utils/create_indexes.py:31-37 | the compound key lists each indexed field's value, with null for a missing field |
| Store.FindId | utils/db_schema_crud.py:37 | a found entry belongs to the collection and carries the id; none means no entry has it |
| Store.FindFirst | utils/db_schema_crud.py:44 | `find_one` returns a matching entry of the collection; none means no entry matches |
| Store.FindFirstIsFirst | utils/db_schema_crud.py:44 | the entry returned is the earliest match in collection order |
| Store.FindAll | utils/db_schema_crud.py:172 | `find` returns exactly the matching entries and nothing when none match |
| Store.ById | utils/db_schema_crud.py:33-37 | a lookup by id succeeds exactly when the store is reachable and an entry has that id |
| Store.Follow | pages/6_Waiver_Review.py:93-95 | following a reference field looks up the id it holds, and fails when the field holds none |
| Store.One | utils/db_schema_crud.py:40-44 | a result matches and belongs to a reachable store; none on a reachable store means nothing matches |
| Store.Many | utils/db_schema_crud.py:168-172 | the result is exactly the matching entries of a reachable store |
| Store.Every | pages/4_Flight_Management.py:21-25 | the whole collection when reachable, empty otherwise |
| Store.Replace | utils/db_schema_crud.py:47-51 | only the entry with the id is replaced; positions and the other entries are kept |
| Store.Without | utils/db_schema_crud.py:54-58 | the result holds exactly the entries whose id differs |
| Store.InsertAppends | utils/db_schema_crud.py:21-30 | `insert_one` fails exactly when the store is unreachable, or the unique index is built and clashes; on success the document is appended under a fresh id; nothing else changes |
| Store.Insert | utils/db_schema_crud.py:21-30 | `insert_one` is unavailable exactly when the store is unreachable; a failed insert changes nothing; a successful one returns the fresh id and advances it (the document itself: InsertAppends) |
| Store.InsertKeepsValid | utils/create_indexes.py:11-90 | inserting keeps ids distinct and fresh and keeps every unique index satisfied |
| Store.UpdateSetsOnlySuppliedFields | utils/db_schema_crud.py:47-51 | `$set` changes only the matched entry: supplied keys take the new values, other keys keep theirs; a miss acknowledges 0; a failure changes nothing |
| Store.Update | utils/db_schema_crud.py:47-51 | `update_one` fails exactly when the store is unreachable and acknowledges 0 exactly when no entry has the id; anything but one acknowledged document leaves the store unchanged; ids and the index flag are kept |
| Store.UpdateKeepsValid | utils/create_indexes.py:11-90 | updating keeps the store's invariants, including unique keys |
| Store.UpdateOffIndexSucceeds | utils/db_schema_crud.py:98-102 | an update of an existing entry that touches no unique field is acknowledged for one document |
| Store.FindIdReplace | utils/db_schema_crud.py:47-51 | after replacing an existing entry, a lookup by its id finds the new document |
| Store.UpdateThenFind | utils/db_schema_crud.py:47-51 | after a `$set` off the unique fields, the entry reads back as the old document merged with the updates |
| Store.DeleteRemovesOnlyThatId | utils/db_schema_crud.py:54-58 | `delete_one` removes exactly the entries with the id and reports 1 or 0; an unreachable store reports failure and changes nothing |
| Store.Delete | utils/db_schema_crud.py:54-58 | `delete_one` fails, changing nothing, exactly when the store is unreachable, and acknowledges 1 exactly when an entry has the id; ids and the index flag are kept |
| Store.DeleteKeepsValid | utils/db_schema_crud.py:54-58 | deleting keeps the store's invariants |
| Store.UnavailableChangesNothing | utils/db_schema_crud.py:18-20 | when no collection is available, every write fails without effect and every read is empty |
| Store.DropKeepsValid | scripts/seed_users.py:106-116 | dropping a collection keeps the store's invariants |
| Store.Drop | scripts/seed_users.py:116 | an unreachable store is left as it is; otherwise the collection is empty afterwards and the unique indexes are gone |
| Store.CreateIndexesKeepsValid | utils/create_indexes.py:6-90 | building the unique indexes fails exactly when the store is unreachable or existing data already clashes; on success they are in force |
| Store.CreateIndexes | utils/create_indexes.py:6-90 | the indexes are built exactly when the store is reachable and no existing data clashes; the documents and ids are untouched |
| Crud.UserDoc | utils/db_schema_crud.py:21-30 | the user document has exactly the six fields, holding the given email, roles and hash |
| Crud.CadetDoc | utils/db_schema_crud.py:64-81 | the cadet document holds the user and rank, and a flight field only when a flight is given |
| Crud.EventDoc | utils/db_schema_crud.py:139-158 | the event document has exactly its six fields |
| Crud.AssignmentDoc | utils/db_schema_crud.py:199-214 | the assignment document has exactly its four fields, holding the event and the cadet |
| Crud.RecordDoc | utils/db_schema_crud.py:248-265 | the record document has exactly its five fields, holding the event, the cadet and the status |
| Crud.WaiverDoc | utils/db_schema_crud.py:308-325 | the waiver document has exactly its five fields, holding the record, the reason, the status and the submitter |
| Crud.ApprovalDoc | utils/db_schema_crud.py:368-385 | the approval document has exactly its five fields, holding the waiver, the approver, the decision and the comments |
| Crud.FlightDoc | utils/db_schema_crud.py:419-428 | the flight document has exactly a name and a commander |
| Crud.GetUserById | utils/db_schema_crud.py:33-37 | finds a user exactly when the store is reachable and the id exists |
| Crud.GetUserByEmail | utils/db_schema_crud.py:40-44 | a found user has that email; none on a reachable store means no user has it |
| Crud.GetCadetById | utils/db_schema_crud.py:84-88 | finds a cadet exactly when the store is reachable and the id exists |
| Crud.GetCadetByUserId | utils/db_schema_crud.py:91-95 | a found profile references the user; none on a reachable store means no profile does |
| Crud.GetEventById | utils/db_schema_crud.py:161-165 | finds an event exactly when the store is reachable and the id exists |
| Crud.GetEventsByType | utils/db_schema_crud.py:168-172 | exactly the events of that type |
| Crud.GetEventsByCreator | utils/db_schema_crud.py:175-179 | exactly the events that user created |
| Crud.GetEventAssignmentById | utils/db_schema_crud.py:217-221 | finds an assignment exactly when the store is reachable and the id exists |
| Crud.GetAssignmentsByEvent | utils/db_schema_crud.py:224-228 | exactly the assignments to that event |
| Crud.GetAssignmentsByCadet | utils/db_schema_crud.py:231-235 | exactly the assignments of that cadet |
| Crud.GetAttendanceRecordById | utils/db_schema_crud.py:268-272 | finds a record exactly when the store is reachable and the id exists |
| Crud.GetAttendanceByEvent | utils/db_schema_crud.py:275-279 | exactly the records for that event |
| Crud.GetAttendanceByCadet | utils/db_schema_crud.py:282-286 | exactly the records for that cadet |
| Crud.GetWaiverById | utils/db_schema_crud.py:328-332 | finds a waiver exactly when the store is reachable and the id exists |
| Crud.GetWaiverByAttendanceRecord | utils/db_schema_crud.py:335-341 | a found waiver references the record; none on a reachable store means no waiver does |
| Crud.GetWaiversByStatus | utils/db_schema_crud.py:344-348 | exactly the waivers with that status |
| Crud.GetAllWaivers | pages/6_Waiver_Review.py:64 | every waiver in collection order, or none when unreachable |
| Crud.GetWaiverApprovalById | utils/db_schema_crud.py:388-392 | finds an approval exactly when the store is reachable and the id exists |
| Crud.GetApprovalsByWaiver | utils/db_schema_crud.py:395-399 | exactly the approvals of that waiver |
| Crud.GetApprovalsByApprover | utils/db_schema_crud.py:402-406 | exactly the approvals by that approver |
| Crud.GetAllFlights | utils/db_schema_crud.py:431-435 | every flight in collection order, or none when unreachable |
| Crud.GetFlightById | pages/6_Waiver_Review.py:118 | finds a flight exactly when the store is reachable and the id exists |
| Crud.FindAllAppend | utils/db_schema_crud.py:275-279 | the matches of a longer collection are the old matches followed by the new entry when it matches |
| Crud.CadetIfNotExistsNeverClashes | utils/db_schema_crud.py:112-133 | when the user has no profile, the guarded insert cannot hit the unique index on user_id |
| Crud.CadetIfNotExistsOnce | utils/db_schema_crud.py:112-133 | one guarded call creates a profile exactly when the user has none, leaves the store unchanged otherwise, and afterwards the user has a profile |
| Crud.CadetIfNotExistsTwice | utils/db_schema_crud.py:112-133 | a profile is created exactly when the user has none; a second call creates nothing and changes nothing, so the user ends with one profile |
| Crud.CadetIfNotExists | utils/db_schema_crud.py:112-133 | a profile id is returned only on a reachable store where the user had no profile, and it is the fresh id; no id returned means nothing changed (partners: the three lemmas above) |
| Crud.AssignToFlight | utils/db_schema_crud.py:452-460 | assignment fails exactly when the store is unreachable, acknowledges 0 exactly when no cadet has the id, and changes nothing unless one cadet is acknowledged (partner: AssignChangesOnlyFlight) |
| Crud.AssignChangesOnlyFlight | utils/db_schema_crud.py:452-460 | assigning an existing cadet on a reachable store always acknowledges one document (flight_id is in no unique index), changes only that cadet's flight_id, and leaves every other collection as it was |
| Crud.DeleteFlightKeepsCadets | utils/db_schema_crud.py:445-449 | deleting a flight leaves every cadet profile, including its stale flight reference, as it was |
| Crud.Database.constructor | utils/create_indexes.py:6-9 | a new handle has empty collections, reachable or not as given |
| Crud.Database.InsertOne | utils/db_schema_crud.py:21-30 | the object's state and the result are those of the store's insert |
| Crud.Database.UpdateOne | utils/db_schema_crud.py:47-51 | the object's state and the result are those of the store's `$set` update |
| Crud.Database.DeleteOne | utils/db_schema_crud.py:54-58 | the object's state and the result are those of the store's delete |
| Crud.Database.DropCollection | scripts/seed_users.py:116 | the object's state is that of the store's drop |
| Crud.Database.BuildIndexes | utils/create_indexes.py:6-90 | the object's state and the verdict are those of the store's index build |
| Crud.Database.CreateUser | utils/db_schema_crud.py:11-30 | inserts the user document |
| Crud.Database.UpdateUser | utils/db_schema_crud.py:47-51 | `$set`s the updates on the user |
| Crud.Database.DeleteUser | utils/db_schema_crud.py:54-58 | deletes the user |
| Crud.Database.CreateCadet | utils/db_schema_crud.py:64-81 | inserts the cadet document |
| Crud.Database.UpdateCadet | utils/db_schema_crud.py:98-102 | `$set`s the updates on the cadet |
| Crud.Database.DeleteCadet | utils/db_schema_crud.py:105-109 | deletes the cadet |
| Crud.Database.CreateCadetIfNotExists | utils/db_schema_crud.py:112-133 | behaves as the guarded insert whose idempotence is proved in CadetIfNotExistsTwice |
| Crud.Database.CreateEvent | utils/db_schema_crud.py:139-158 | inserts the event document |
| Crud.Database.UpdateEvent | utils/db_schema_crud.py:182-186 | `$set`s the updates on the event |
| Crud.Database.DeleteEvent | utils/db_schema_crud.py:189-193 | deletes the event |
| Crud.Database.CreateEventAssignment | utils/db_schema_crud.py:199-214 | inserts the assignment document |
| Crud.Database.DeleteEventAssignment | utils/db_schema_crud.py:238-242 | deletes the assignment |
| Crud.Database.CreateAttendanceRecord | utils/db_schema_crud.py:248-265 | inserts the record document |
| Crud.Database.UpdateAttendanceRecord | utils/db_schema_crud.py:289-295 | `$set`s the updates on the record |
| Crud.Database.DeleteAttendanceRecord | utils/db_schema_crud.py:298-302 | deletes the record |
| Crud.Database.CreateWaiver | utils/db_schema_crud.py:308-325 | inserts the waiver document |
| Crud.Database.UpdateWaiver | utils/db_schema_crud.py:351-355 | `$set`s the updates on the waiver |
| Crud.Database.DeleteWaiver | utils/db_schema_crud.py:358-362 | deletes the waiver |
| Crud.Database.CreateWaiverApproval | utils/db_schema_crud.py:368-385 | inserts the approval document |
| Crud.Database.DeleteWaiverApproval | utils/db_schema_crud.py:409-413 | deletes the approval |
| Crud.Database.CreateFlight | utils/db_schema_crud.py:419-428 | inserts the flight document |
| Crud.Database.UpdateFlight | utils/db_schema_crud.py:438-442 | `$set`s the updates on the flight |
| Crud.Database.DeleteFlight | utils/db_schema_crud.py:445-449 | deletes the flight |
| Crud.Database.AssignCadetToFlight | utils/db_schema_crud.py:452-460 | sets the cadet's flight, with the effect proved in AssignChangesOnlyFlight |
| Auth.Project | utils/auth.py:17-21 | a credential exists exactly when name and password are present; it copies them, with the email defaulting to "" |
| Auth.LoadCredentials | utils/auth.py:11-22 | the loop builds the credentials of every user in the file, fails exactly when one lacks a name or password, and keys the result by the file's usernames |
| Auth.GetCurrentUser | utils/auth.py:45-56 | a user exactly when authenticated, with the session's username and name; the role is "unknown" exactly when the file gives none |
| Auth.Field | utils/auth.py:52-56 | the current-user record has only username, name and role; email is not among them |
| Auth.FileEmail | utils/auth.py:50-51 | the email recorded in the users file for the session's username, or "" |
| Auth.RequireRole | utils/auth.py:65-71 | redirects exactly the unauthenticated, admits exactly users whose role is listed, forbids the rest |
| Auth.NoRoleHierarchy | utils/auth.py:69 | roles are matched literally: an admin cannot open the cadet page, a cadet cannot open staff pages, an unknown role opens neither |
| Auth.AuthCache.constructor | utils/auth.py:27 | a fresh session has no cached authenticator |
| Auth.AuthCache.InitAuth | utils/auth.py:25-42 | the first call caches the credentials and the raw file; later calls reuse the cache unchanged |
| Dashboard.StatusCode | pages/1_Dashboard.py:29-35 | the code of a cleaned status is P, A or E; P exactly for "present", E exactly for "excused" or "waived" |
| Dashboard.NormalizeStatus | pages/1_Dashboard.py:25-35 | yields P, A or E; P exactly for "present" and E exactly for "excused"/"waived", ignoring case and surrounding whitespace; everything else, missing included, is A |
| Dashboard.NormalizeIgnoresCase | pages/1_Dashboard.py:28 | statuses that differ only in case normalise alike |
| Dashboard.NormalizeIgnoresPadding | pages/1_Dashboard.py:28 | padding around a status does not change its normalisation |
| Dashboard.NormalizeNotIdempotent | pages/1_Dashboard.py:29-35 | normalising a code a second time always gives A: the grid's own P and E are not statuses |
| Dashboard.UserName | pages/1_Dashboard.py:82 | a display name is never empty and has no surrounding whitespace |
| Dashboard.UserNameJoinsNames | pages/1_Dashboard.py:82 | with both names present, the display name is first name, space, last name |
| Dashboard.Project | pages/1_Dashboard.py:80 | a projection keeps exactly the requested fields that exist, with their values |
| Dashboard.CadetUser | pages/1_Dashboard.py:79-80 | a found user is the one the cadet references |
| Dashboard.ColumnNameAsWrittenIsUnknown | pages/1_Dashboard.py:80-87 | with the projection as written, every column is named "Unknown" |
| Dashboard.ColumnName | pages/1_Dashboard.py:81-88 | the column names the cadet's user by full name, or "Unknown" when there is no such user |
| Dashboard.ProjectionHidesNames | pages/1_Dashboard.py:80-84 | for every cadet whose user has non-empty first and last names, the corrected column reads "first last", the column as written reads "Unknown", and the two differ |
| Dashboard.SpacedNameIsKnown | pages/1_Dashboard.py:84 | a name joined with a space from two non-empty parts is never the "Unknown" placeholder |
| Dashboard.Columns | pages/1_Dashboard.py:74-88 | one column per cadet, in collection order, carrying its id and name |
| Dashboard.ColumnPairs | pages/1_Dashboard.py:90 | every column is keyed by its lower-cased name |
| Dashboard.SortedColumnKeys | pages/1_Dashboard.py:90 | after sorting, each key is still its column's lower-cased name |
| Dashboard.ColumnsAlphabetical | pages/1_Dashboard.py:90-92 | sorted columns are in case-insensitive alphabetical order |
| Dashboard.ColumnsPermuted | pages/1_Dashboard.py:90-92 | sorting neither loses nor duplicates a column |
| Dashboard.ColumnsStable | pages/1_Dashboard.py:90 | columns with equal names keep their collection order |
| Dashboard.EventKey | pages/1_Dashboard.py:101-103 | a datetime start sorts by its time; anything else sorts as text |
| Dashboard.Take10 | pages/1_Dashboard.py:19 | slicing to ten characters yields a prefix of at most ten |
| Dashboard.EventTitle | pages/1_Dashboard.py:21 | the title, when there is one, is truthy |
| Dashboard.RowLabel | pages/1_Dashboard.py:14-22 | the label is the date alone, or the date, an em dash and the title |
| Dashboard.SeparatorIsMisdecodedEmDash | pages/1_Dashboard.py:22 | the written separator is the em dash's UTF-8 bytes read as Windows-1252, so every titled row differs from the intended label |
| Dashboard.RowPairs | pages/1_Dashboard.py:95-108 | one row per event, keyed by its start date, labelled from its projection |
| Dashboard.RowsNewestFirst | pages/1_Dashboard.py:106 | rows are in descending key order, a permutation of the events, and stable among equal keys |
| Dashboard.RowIds | pages/1_Dashboard.py:107 | the event ids in row order |
| Dashboard.ColumnIds | pages/1_Dashboard.py:91 | the cadet ids in column order |
| Dashboard.RecordsFor | pages/1_Dashboard.py:111-116 | exactly the records whose event is one of the rows |
| Dashboard.StatusByPairCodes | pages/1_Dashboard.py:118-121 | every stored code is P, A or E |
| Dashboard.StatusByPairDomain | pages/1_Dashboard.py:118-121 | a pair is in the lookup exactly when some record carries it |
| Dashboard.StatusByPairLastWins | pages/1_Dashboard.py:118-121 | a pair maps to the normalised status of its last record |
| Dashboard.BuildStatusByPair | pages/1_Dashboard.py:118-121 | the loop builds the lookup described by StatusByPair |
| Dashboard.RecordStatus | pages/1_Dashboard.py:121 | a record's status is P, A or E; P exactly when it holds text that is "present" after strip and lower, E exactly when that text is "excused" or "waived"; a missing status is A |
| Dashboard.StatusByPair | pages/1_Dashboard.py:118-121 | the lookup built from the records; no contract of its own, stated by StatusByPairDomain, StatusByPairLastWins and StatusByPairCodes |
| Dashboard.CellFromRecords | pages/1_Dashboard.py:128 | a cell with no record is A, otherwise the last record's code; always P, A or E |
| Dashboard.BuildGrid | pages/1_Dashboard.py:124-129 | the grid has a row per event and a column per cadet, each cell looked up with absent as default |
| Dashboard.Render | pages/1_Dashboard.py:48-129 | the page redirects, forbids, reports an unconfigured store, no cadets or no events exactly in those cases; otherwise it shows the sorted rows and columns and the looked-up grid |
| AttendanceSubmission.Padded | pages/2_Attendance_Submission.py:10 | zero-padding yields exactly the width, all digits |
| AttendanceSubmission.PaddedValue | pages/2_Attendance_Submission.py:10 | the padded digits spell the number modulo ten to the width |
| AttendanceSubmission.Password | pages/2_Attendance_Submission.py:10 | a password is six digits |
| AttendanceSubmission.PasswordSpellsDraw | pages/2_Attendance_Submission.py:10 | a password spells its draw, so distinct draws give distinct passwords |
| AttendanceSubmission.LatchAllSetsOnce | pages/2_Attendance_Submission.py:32-36 | once reported, always reported; from a fresh session, reported exactly when some press carried the right answer |
| AttendanceSubmission.StatusLine | pages/2_Attendance_Submission.py:24-27 | the status line carries the page's prefix and says "Reported" exactly when the password was accepted |
| AttendanceSubmission.AttendanceSession.constructor | pages/2_Attendance_Submission.py:9-11 | a new session has no password and is not reported |
| AttendanceSubmission.AttendanceSession.Run | pages/2_Attendance_Submission.py:9-39 | the password is drawn once per session; a press with the right answer latches the flag; feedback only on a press before reporting |
| CadetAdmin.NameCheckIsPattern | pages/3_Cadets.py:73 | the name check accepts exactly the words of letters, apostrophes and hyphens joined by single spaces |
| CadetAdmin.EmailCheckIsPattern | pages/3_Cadets.py:74 | the email check accepts exactly local@domain.tld with the pattern's character classes and a top-level part of two or more letters |
| CadetAdmin.EmailHasOneAt | pages/3_Cadets.py:74 | an accepted email has exactly one at-sign |
| CadetAdmin.CheckInput | pages/3_Cadets.py:70-86 | accepted exactly when the message is empty and all three fields match; empty fields are reported first, then first name, last name, email in order |
| CadetAdmin.NameRefusals | pages/3_Cadets.py:73 | a name with a double space or a character outside the class is refused |
| CadetAdmin.RankIndex | pages/3_Cadets.py:137-138 | the index selects the stored rank when it is one of the options, otherwise the first option |
| CadetAdmin.NumericRankStartsAtFirst | pages/3_Cadets.py:138 | a numeric rank, as the seed stores, selects the first option |
| CadetAdmin.AddCadetNeedsUser | pages/3_Cadets.py:89-94 | adding fails without effect exactly when no user has the email; otherwise the profile is appended for that user without a flight |
| CadetAdmin.AddCadetTwiceRefused | pages/3_Cadets.py:89-94 | with the unique index built, adding the same user's profile twice is refused |
| CadetAdmin.AddCadetToDb | pages/3_Cadets.py:89-94 | the database changes as AddCadet describes |
| CadetAdmin.AddCadet | pages/3_Cadets.py:89-94 | adding reports "user not found" exactly when no user has the email; only an added profile changes the store, and it gets the fresh id (partners: AddCadetNeedsUser, AddCadetTwiceRefused) |
| FlightAdmin.GetCadetsByFlight | pages/4_Flight_Management.py:28-32 | exactly the cadets whose flight is the given one |
| FlightAdmin.DisplayText | pages/4_Flight_Management.py:49-51 | the display text ends with the rank in parentheses |
| FlightAdmin.CadetKey | pages/4_Flight_Management.py:47-48 | a cadet gets an entry exactly when its user is found |
| FlightAdmin.DisplayMapKeys | pages/4_Flight_Management.py:46-52 | a text is in the map exactly when some cadet with a user produces it |
| FlightAdmin.DisplayMapValue | pages/4_Flight_Management.py:52 | a text maps to the last cadet that produces it |
| FlightAdmin.BuildCadetDisplayMap | pages/4_Flight_Management.py:35-54 | the loop builds the map of all cadets |
| FlightAdmin.DisplayMap | pages/4_Flight_Management.py:46-52 | the display map; no contract of its own, stated by DisplayMapKeys and DisplayMapValue |
| FlightAdmin.CreateNeedsNameAndCommander | pages/4_Flight_Management.py:74-80 | nothing is written exactly when the name is empty or no commander is chosen; otherwise the flight is appended with the chosen commander |
| FlightAdmin.SameNameRefused | utils/create_indexes.py:80 | with the index built, a second flight of the same name is refused |
| FlightAdmin.OnlyOneFlight | pages/4_Flight_Management.py:129 | a cadet whose flight is F appears under no other flight |
| FlightAdmin.AssignMovesCadet | pages/4_Flight_Management.py:118-122 | after an acknowledged assignment the cadet is listed under the new flight and under no other |
| FlightAdmin.DeletedFlightKeepsMembers | pages/4_Flight_Management.py:144-147 | deleting a flight removes it but leaves its members pointing at it |
| FlightAdmin.CreateFlightButton | pages/4_Flight_Management.py:74-80 | the database changes as CreateFlightAction describes |
| FlightAdmin.CreateFlightAction | pages/4_Flight_Management.py:74-80 | an insert is tried only with a non-empty name, and the store changes only when a flight is inserted (partner: CreateNeedsNameAndCommander) |
| FlightAdmin.AssignButton | pages/4_Flight_Management.py:118-124 | the database changes as AssignAction describes |
| FlightAdmin.AssignAction | pages/4_Flight_Management.py:118-124 | nothing is attempted exactly when the chosen text is not in the display map, and the store changes only when one cadet is acknowledged |
| WaiverSubmission.EmailLookupRaises | pages/5_Waivers.py:161 | the current-user record has no email, so the lookup as written raises |
| WaiverSubmission.Identify | pages/5_Waivers.py:158-176 | redirects the unauthenticated and forbids non-cadets; for an admitted cadet: no account exactly when the file's email is empty or no user has it, not a cadet exactly when that user has no profile, identified exactly when the user and the profile exist |
| WaiverSubmission.Tagged | pages/5_Waivers.py:27-35 | the waiver keeps its fields and gains event name and date, "Unknown event"/"Unknown date" when the event is missing; when the event resolves, its `event_name` (null when absent) and its start day or "Unknown date" |
| WaiverSubmission.WaiversOfOne | pages/5_Waivers.py:24-36 | a record contributes its tagged waiver, or nothing when it has none |
| WaiverSubmission.WaiversOfAppend | pages/5_Waivers.py:24-36 | the waivers of concatenated records are the concatenation |
| WaiverSubmission.WaiversOf | pages/5_Waivers.py:20-36 | no more waivers than records (contents: WaiversOfOne and WaiversOfAppend) |
| WaiverSubmission.GetAllWaiversForCadet | pages/5_Waivers.py:21-37 | the loop returns the tagged waivers of the cadet's records in record order |
| WaiverSubmission.Badge | pages/5_Waivers.py:14-18 | the three written statuses, in any case, get their badge; anything else is shown as is |
| WaiverSubmission.WrittenStatusesHaveBadges | pages/6_Waiver_Review.py:165 | every status the app writes has a badge |
| WaiverSubmission.WithoutWaiverMembers | pages/5_Waivers.py:80-85 | exactly the records that have no waiver |
| WaiverSubmission.WithoutWaiver | pages/5_Waivers.py:76-85 | no more records than given (contents: WithoutWaiverMembers and WithoutWaiverAppend) |
| WaiverSubmission.GetAbsentRecords | pages/5_Waivers.py:76-85 | the loop returns the absent records without a waiver |
| WaiverSubmission.OfferedRecords | pages/5_Waivers.py:76-85 | offered are exactly the cadet's records with status "absent" and no waiver |
| WaiverSubmission.WithoutWaiverAppend | pages/5_Waivers.py:81-84 | filtering concatenated records is the concatenation of the filters |
| WaiverSubmission.AbsentIsCaseSensitive | pages/5_Waivers.py:78 | "Absent" is not offered although the dashboard counts it as absent |
| WaiverSubmission.DropdownRow | pages/5_Waivers.py:65-73 | without an event the row is the record id; with one it is the start day (or "Unknown date"), " - " and the event name (or "Unknown event") |
| WaiverSubmission.DropdownRowKinds | pages/5_Waivers.py:65-73 | a row contains a space exactly when it was built from an event |
| WaiverSubmission.Labels | pages/5_Waivers.py:97 | one label per record, in order |
| WaiverSubmission.Distinct | pages/5_Waivers.py:109 | the option list holds each label once and nothing else |
| WaiverSubmission.LabelTarget | pages/5_Waivers.py:97 | a label selects a record exactly when some record produces it, and that record produces it |
| WaiverSubmission.LabelsAppend | pages/5_Waivers.py:97 | labels of concatenated records concatenate |
| WaiverSubmission.LaterRecordWins | pages/5_Waivers.py:97 | when two records share a label, the later one is submitted |
| WaiverSubmission.FirstIdIndex | pages/5_Waivers.py:101-104 | the first record whose id text matches, or none when none does |
| WaiverSubmission.DefaultIndex | pages/5_Waivers.py:99-104 | the loop finds the default index |
| WaiverSubmission.Selected | pages/5_Waivers.py:107-123 | the chosen record is one of the offered records |
| WaiverSubmission.NoFormWithoutAbsent | pages/5_Waivers.py:92-95 | the form is withheld, writing nothing, exactly when nothing is offered |
| WaiverSubmission.BlankReasonWritesNothing | pages/5_Waivers.py:120-121 | a blank reason writes nothing and submits nothing |
| WaiverSubmission.SubmittedWaiver | pages/5_Waivers.py:119-134 | a submission had a non-blank reason and an offered record, and appends a pending waiver for it by that user |
| WaiverSubmission.SubmitSucceeds | pages/5_Waivers.py:119-129 | on a reachable store a pressed submit with a reason and a selected record is saved |
| WaiverSubmission.NoWaiverNoClash | utils/create_indexes.py:57-63 | a waiver for a record without one cannot clash on the unique index |
| WaiverSubmission.SelectRecord | pages/5_Waivers.py:106-123 | the method selects the record Selected describes |
| WaiverSubmission.FormSession.constructor | pages/5_Waivers.py:143-144 | the record slot starts empty |
| WaiverSubmission.FormSession.WaiverForm | pages/5_Waivers.py:88-134 | the slot is read and cleared, and the database changes as Form describes |
| WaiverReview.ResolveApprover | pages/6_Waiver_Review.py:41-51 | a missing email is reported exactly when the email is empty; a resolved approver is a user with that email |
| WaiverReview.ApproverAlwaysMissing | pages/6_Waiver_Review.py:41-44 | for every authenticated session, the email read from the current-user record resolves to "missing", while the email in the session's users-file entry, when non-empty, does not |
| WaiverReview.ShownStatus | pages/6_Waiver_Review.py:81 | a waiver without status shows as pending; otherwise its status lower-cased |
| WaiverReview.FilterStatus | pages/6_Waiver_Review.py:64-66 | "all" keeps every waiver; otherwise exactly those whose lower-cased status is the choice |
| WaiverReview.CadetName | pages/6_Waiver_Review.py:110 | "Unknown cadet" without a user, "None" for a user without a name, else the name as text |
| WaiverReview.EventName | pages/6_Waiver_Review.py:134 | "Unknown event" without an event, "None" for an event without a name, else the name as text |
| WaiverReview.EventDate | pages/6_Waiver_Review.py:28-31 | the event's start day when the event resolves and has a datetime start, "Unknown date" otherwise |
| WaiverReview.CardOf | pages/6_Waiver_Review.py:76-132 | a card exists only for a waiver whose attendance record resolves, carries the waiver id and shown status, is decidable exactly when pending, and passes the flight and search filters |
| WaiverReview.NoStatusMatchesOnlyAll | pages/6_Waiver_Review.py:66 | a waiver without status is listed under "all" only, though it is shown as pending |
| WaiverReview.CreatedKey | pages/6_Waiver_Review.py:68 | a waiver without a creation time sorts as the earliest moment |
| WaiverReview.CreatedPairs | pages/6_Waiver_Review.py:68 | each waiver is keyed by its creation time |
| WaiverReview.NewestFirst | pages/6_Waiver_Review.py:68 | the sort keeps the number of waivers |
| WaiverReview.NewestFirstOrder | pages/6_Waiver_Review.py:68 | waivers are newest first, those without a time last, a permutation, and stable among equal times |
| WaiverReview.FlightName | pages/6_Waiver_Review.py:113-120 | the flight shown is "Unassigned" (always so without a cadet) or the name stored on some flight |
| WaiverReview.Cards | pages/6_Waiver_Review.py:76-132 | no more cards than waivers |
| WaiverReview.CardsSnoc | pages/6_Waiver_Review.py:76-132 | each waiver adds its card or nothing, in order |
| WaiverReview.ShowWaivers | pages/6_Waiver_Review.py:74-184 | the loop shows exactly the cards and notes whether any was shown |
| WaiverReview.SkippedOnlyWithoutRecord | pages/6_Waiver_Review.py:83-89 | unfiltered, a waiver is skipped exactly when its record is missing; missing event or cadet fall back to "Unknown event", "Unknown cadet", "" and "Unassigned" |
| WaiverReview.FlightFilterKeepsFlight | pages/6_Waiver_Review.py:123-124 | with a flight chosen, every card is of that flight |
| WaiverReview.CardsFrom | pages/6_Waiver_Review.py:76-132 | every card comes from one of the waivers |
| WaiverReview.SearchIsSubstring | pages/6_Waiver_Review.py:127-130 | a waiver passes the search exactly when the query is empty or occurs in "name email" lower-cased |
| WaiverReview.QueryIgnoresCase | pages/6_Waiver_Review.py:62 | queries that differ in case search alike |
| WaiverReview.DecisionOnlyWhenPending | pages/6_Waiver_Review.py:147 | the decision form is offered exactly for waivers shown as pending |
| WaiverReview.Remark | pages/6_Waiver_Review.py:175 | the stored comment is never empty: the stripped comment, or "Approved." |
| WaiverReview.DenyNeedsComments | pages/6_Waiver_Review.py:162-163 | a denial with blank comments writes nothing |
| WaiverReview.DecideRecordsApproval | pages/6_Waiver_Review.py:165-180 | a decision on a reachable store is saved and appends exactly one approval with the decided status and comment |
| WaiverReview.DecidedStatus | pages/6_Waiver_Review.py:165-166 | a decided waiver no longer shows as pending |
| WaiverReview.DecideWaiversTable | pages/6_Waiver_Review.py:165-171 | the waivers collection after a decision is the one after the status update |
| WaiverReview.DecideSetsStatus | pages/6_Waiver_Review.py:165-176 | a decided existing waiver reads back with the new status, so it leaves the pending list |
| WaiverReview.Submit | pages/6_Waiver_Review.py:161-181 | the database changes as Decide describes |
| WaiverReview.Decide | pages/6_Waiver_Review.py:165-180 | comments are demanded exactly for a blank denial; a blank denial or a failed status update changes nothing; an unreachable store fails the update; a saved approval gets the fresh id (partners: DecideRecordsApproval, DecideSetsStatus) |
| WaiverReview.FlightChoices | pages/6_Waiver_Review.py:58-59 | "All flights" first, then one choice per flight |
| WaiverReview.Render | pages/6_Waiver_Review.py:34-184 | the page redirects, forbids, stops without an approver, and reports no waivers exactly in those cases; otherwise it lists the filtered, newest-first cards |
| Ordering.LexLeTotal | pages/1_Dashboard.py:90 | any two strings are comparable |
| Ordering.LexLeAntisymmetric | pages/1_Dashboard.py:90 | strings ordered both ways are equal |
| Ordering.LexLeTransitive | pages/1_Dashboard.py:90 | string order is transitive |
| Ordering.KeyLeTotalOrder | pages/6_Waiver_Review.py:68 | the key order is reflexive, total, antisymmetric and transitive |
| Ordering.SortByKeySorted | pages/1_Dashboard.py:106 | the sort output is ordered and a permutation of its input |
| Ordering.SortByKeyStable | pages/1_Dashboard.py:106 | elements with equal keys keep their input order |
| Ordering.SortByKey | pages/1_Dashboard.py:106 | the sort keeps the length (order, permutation and stability: SortByKeySorted, SortByKeyStable) |
| Seed.StatusMap | scripts/seed_users.py:96 | exactly P, A and E have a status |
| Seed.Usernames | scripts/seed_users.py:29-45 | the usernames in table order |
| Seed.CadetRoleNamesSound | scripts/seed_users.py:84 | every name kept belongs to a user with role cadet |
| Seed.RankNames | scripts/seed_users.py:47-60 | the profile usernames in table order |
| Seed.FlightNames | scripts/seed_users.py:62-65 | the flight names in table order |
| Seed.FilterAllCadets | scripts/seed_users.py:84 | the filter keeps a list of cadets whole |
| Seed.FilterSkipsStaff | scripts/seed_users.py:84 | the filter drops a leading run of staff users |
| Seed.StaffFirst | scripts/seed_users.py:29-45 | the first five users are staff and the last ten cadets |
| Seed.CadetUsernamesInOrder | scripts/seed_users.py:84 | the roster is the ten cadets in order, then fc1 and fc2 |
| Seed.UsernamesDistinct | scripts/seed_users.py:29-45 | usernames are distinct |
| Seed.EmailsDistinct | scripts/seed_users.py:29-45 | emails are distinct, so the email index accepts them |
| Seed.RanksFollowUsers | scripts/seed_users.py:47-60 | the profile list is the users from fc1 on, in order |
| Seed.CadetUsernamesHaveProfiles | scripts/seed_users.py:84 | every roster name has a profile |
| Seed.ProfileOf | scripts/seed_users.py:201 | each roster position maps to a profile position |
| Seed.ProfileOfInjective | scripts/seed_users.py:201 | distinct roster positions have distinct profiles |
| Seed.MembersAreProfiles | scripts/seed_users.py:67-70 | every flight member is a profile |
| Seed.PatternsUseKnownLetters | scripts/seed_users.py:86-94 | one pattern per event, every letter mapped |
| Seed.IdsByNameAll | scripts/seed_users.py:119-136 | with distinct names, each name maps to its insertion id |
| Seed.SeedUserDoc | scripts/seed_users.py:123-134 | the seeded user has ten fields, a one-role list, and the same hash as password and password_hash |
| Seed.SeedCadetDoc | scripts/seed_users.py:145-153 | the seeded profile has five fields with its user and numeric rank |
| Seed.StatusAt | scripts/seed_users.py:202 | a position past the pattern's end is present |
| Seed.RecordDocs | scripts/seed_users.py:198-212 | twelve records per event |
| Seed.EventRecords | scripts/seed_users.py:201-211 | twelve records for one event, one per roster position |
| Seed.Entries | scripts/seed_users.py:135 | consecutive inserts take consecutive ids |
| Seed.SetFlight | scripts/seed_users.py:172-175 | one assignment changes only its cadet |
| Seed.ApplyMoves | scripts/seed_users.py:169-175 | the assignments keep every entry's position and id |
| Seed.ApplyMovesKeepsOtherFields | scripts/seed_users.py:172-175 | the assignments change no field but flight_id |
| Seed.LastMoveWins | scripts/seed_users.py:169-175 | a cadet ends in the flight of its last assignment |
| Seed.FlightMoves | scripts/seed_users.py:169-175 | each flight assigns its six members |
| Seed.MembersGetTheirFlight | scripts/seed_users.py:169-175 | every member ends in its flight and keeps its user |
| Seed.OneRecordPerPair | scripts/seed_users.py:198-212 | the record at each (event, roster position) has that event, that cadet and the pattern's status |
| Seed.RecordsUnique | utils/create_indexes.py:44-50 | no two seeded records share an event and a cadet |
| Seed.UsersUnique | utils/create_indexes.py:11-15 | no two seeded users share an email |
| Seed.CadetsUnique | utils/create_indexes.py:17-21 | no two seeded profiles share a user |
| Seed.FlightsUnique | utils/create_indexes.py:78-83 | no two seeded flights share a name |
| Seed.SeedTablesUnique | scripts/seed_users.py:216 | every seeded collection satisfies its unique indexes |
| Seed.RankNamesDistinct | scripts/seed_users.py:47-65 | profile and flight names are distinct |
| Seed.CreatorsAreUsers | scripts/seed_users.py:74-82 | every event creator is a user |
| Seed.CommandersAreProfiles | scripts/seed_users.py:62-65 | every commander has a profile |
| Seed.ClearAll | scripts/seed_users.py:106-116 | every collection is emptied and the indexes are gone |
| Seed.InsertNamed | scripts/seed_users.py:119-136 | the loop appends the documents under fresh ids and returns name to id |
| Seed.InsertListed | scripts/seed_users.py:179-194 | the loop appends the documents and returns their ids in order |
| Seed.AssignMembers | scripts/seed_users.py:169-175 | the nested loop leaves the profiles as the assignments describe |
| Seed.InsertEventRecords | scripts/seed_users.py:201-212 | the inner loop appends one event's twelve records and counts them |
| Seed.InsertRecordAt | scripts/seed_users.py:201-212 | one inner iteration appends the record of that event and roster position under the next id |
| Seed.InsertRecords | scripts/seed_users.py:198-212 | the outer loop appends all records and counts 7 x 12 |
| Seed.UserDict | scripts/seed_users.py:119-136 | user_id_by_username maps profiles, creators and cadre1 to their user ids |
| Seed.CadetDict | scripts/seed_users.py:140-154 | cadet_id_by_username maps profiles, commanders and roster names to their profile ids |
| Seed.FlightDict | scripts/seed_users.py:158-167 | flight_id_by_name maps each flight to its id |
| Seed.SeedUsers | scripts/seed_users.py:119-136 | the users loop fills users as described and touches nothing else |
| Seed.SeedCadets | scripts/seed_users.py:140-154 | the profiles loop fills cadets as described and touches nothing else |
| Seed.SeedFlights | scripts/seed_users.py:158-167 | the flights loop fills flights as described and touches nothing else |
| Seed.SeedEvents | scripts/seed_users.py:179-194 | the events loop fills events and returns their ids in order |
| Seed.SeedPeople | scripts/seed_users.py:119-156 | users and profiles are inserted as described, the name-to-id dicts map each username to its document, and no other collection changes |
| Seed.SeedUnits | scripts/seed_users.py:158-177 | flights are inserted as described, the members are moved into their flights, and no other collection changes |
| Seed.RosterTables | scripts/seed_users.py:119-177 | the users, profiles and flights left by the two roster phases are the seeded tables |
| Seed.SeedRoster | scripts/seed_users.py:119-177 | users, profiles, flights and memberships are as described; events, records, assignments, waivers and approvals stay empty |
| Seed.SeedAttendance | scripts/seed_users.py:179-214 | events and records are as described and the other collections are kept |
| Seed.SeededTables | scripts/seed_users.py:179-214 | after the events and records are added to the roster, every collection is its seeded table |
| Seed.SeededStoreIndexes | scripts/seed_users.py:216 | the seeded store accepts its unique indexes unchanged |
| Seed.Populate | scripts/seed_users.py:99-216 | an unreachable store ends the run with nothing written; otherwise every collection ends as described, the indexes are in force and 84 records are counted |

## Left out

- The Streamlit widgets, layout, styling, `st.rerun`, `st.stop`, success
  timers and `time.sleep` are not modelled. Each page is a function or
  method from the session, the store and the user's inputs to the outcome
  the page shows or writes.
- `utils/db.py` (the MongoDB client and the `MONGODB_URI` setting) is not
  part of this model. A reachable store is the `connected` flag.
- `bcrypt`, `secrets.randbelow`, `datetime.now` and `timedelta` are not
  modelled. Hashes, draws and times are parameters, and an event's start
  and end are given, not computed from days and hours.
- `strftime`: a moment carries its own date text (`Moment.day`).
- Common.Lower: only ASCII letters are lower-cased (Python's `str.lower`
  folds all of Unicode); stripping follows `str.isspace()`.
- Common.Show: a datetime's text is its "%Y-%m-%d" day, not the full
  timestamp that `str(datetime)` gives. A datetime put into an f-string
  directly is therefore shown shorter than the page would show it.
- Store.Follow: a reference field that is present but not an ObjectId
  reads as missing instead of being passed to the lookup. The app only
  writes ObjectIds there.
- WaiverReview.ShownStatus: a status that is present but not a string
  reads as missing ("pending") instead of raising on `.lower()`. The app
  only writes strings there.
- WaiverReview.FilterStatus: follows ShownStatus, so a non-string status
  is filtered as "pending" instead of raising. The app only writes
  strings there.
- Dashboard.RecordStatus: a status that is present but not a string reads
  as missing (A) instead of raising on `.strip()`. The app only writes
  strings there.
- WaiverReview.EventDate: on the waivers page a start date that is present
  but not a datetime reads as "Unknown date" instead of raising on
  `strftime`. The app only writes datetimes there.
- Common.Get: ObjectIds are compared as the ids themselves. The string
  round trip (`ObjectId(str(id))`) that the pages use is taken to be the
  identity.
- `streamlit_authenticator` is not modelled: its login widget, cookie and
  password check. The session's authentication flag, username and name
  are inputs.
- Store.InsertAppends: a duplicate key is a result value, not a raised
  `DuplicateKeyError`. All unique indexes share a single built/not-built
  flag. Non-unique indexes are left out because they do not change
  behaviour.
- Concurrent page sessions writing the same collections are not modelled.
  Each operation is atomic.
- `list.sort` on the waiver list is modelled as reassigning the sorted
  sequence.
- Ordering.SortByKeySorted: an insertion sort that is stable like
  Python's Timsort, not Timsort itself. Comparing a datetime with a
  string (which raises `TypeError` in Python) is the dashboard's
  `Unorderable` view.
- WaiverReview.CreatedKey: a `created_at` that is present but not a
  datetime sorts as `datetime.min` instead of raising `TypeError`. The
  app only ever writes datetimes there.
- Crud.Database.CreateCadetIfNotExists: the default rank of 100 is passed
  in by the caller.
- Crud.GetAllWaivers and Crud.GetFlightById are imported by the review
  page but not defined in `utils/db_schema_crud.py`. They are modelled as
  "all documents" and "by id" like their siblings.
- The Cadets page's hard-coded cadet list and its edit/remove widgets are
  not modelled. Only the input check, the rank index and adding a profile
  are.
- The Flight Management page's commander line is display only and not
  modelled. Neither is the order of the selectbox options beyond the
  dictionary's keys.
- The Attendance Submission page's display of the password ("testing
  password") and of the weekday is not modelled.
- The Event Schedule Config, Home and Login pages are not modelled.
- Seed: the `user_info` lookup is folded into the prebuilt profile
  documents. The `print` lines and `sys.exit` become the `ok` result.
  `create_indexes` opening its own connection is the same `Database`.

## Findings

| source | as written | input that shows it | evidently intended | confidence | as-written member | corrected member |
|---|---|---|---|---|---|---|
| pages/1_Dashboard.py:80-84 | the user query projects only `name`, then reads `first_name` and `last_name` | any cadet whose user has first and last names, e.g. Ada Lovelace | project the name fields so columns show full names | not executed | Dashboard.ColumnNameAsWrittenIsUnknown | Dashboard.ProjectionHidesNames |
| pages/1_Dashboard.py:22 | the separator is the em dash's UTF-8 bytes decoded as Windows-1252 ("â€”") | any event with a name | an em dash between date and name | not executed | Dashboard.SeparatorIsMisdecodedEmDash | Dashboard.RowLabel |
| pages/6_Waiver_Review.py:41 | the approver email is read from `get_current_user()`, which never returns an email | any authenticated reviewer, e.g. cadre1 with an email in the users file | look up the email recorded for the username in the users file | not executed | WaiverReview.ApproverAlwaysMissing | WaiverReview.Render |
| pages/5_Waivers.py:161 | `current_user["email"]` on a record without that key raises `KeyError` | any authenticated cadet | look up the email recorded for the username in the users file | not executed | WaiverSubmission.EmailLookupRaises | WaiverSubmission.Identify |
