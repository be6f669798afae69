# A verified model of the main-enginev1 user backend

The backend keeps signed-in users and four kinds of data they own:
- an extended profile, at most one per user;
- approvers, whom a user may only delete while two others remain;
- recipients;
- notes, each of which may name some of the user's recipients.

Every model method in `src/models/*` talks to PostgreSQL. The route
handlers in `src/routes/users.ts` check the request body, call a model and
choose an HTTP status. `src/config/passport.ts` keeps an in-memory user
list for the Google login callback.

The model replaces PostgreSQL with the class `Store.Database`. It holds:
- one map per table created in `src/config/database.ts`: users by their
  Google id, profiles by their UNIQUE `user_id`, and approvers, recipients
  and notes by their SERIAL key;
- the SERIAL counters;
- a `clock` standing for `CURRENT_TIMESTAMP` and `new Date()`;
- `readTime`, the server's reading of a text as a timestamp, fixed when
  the database is made.

`Database.Valid()` states the constraints the DDL declares:
- unique emails;
- one profile per user;
- every `user_id` references a user;
- SERIAL keys lie below their counter.

Every state-changing operation preserves `Valid()`.

Statements the models build at run time are not SQL text. They are
`Sql.Statement` values: a list of `column = $n` or
`column = CURRENT_TIMESTAMP` items, the bound values, and the WHERE
placeholders. The `Sql` module interprets a statement against a table.
It keeps the rules of PostgreSQL that the code meets, in the order the
server applies them:
- before any row is read: an unknown column, a column named twice or a
  placeholder without a value; then a text longer than its VARCHAR(n)
  column takes (a longer text is taken only when the excess is spaces,
  which are cut), a `created_at` text that does not read as a timestamp,
  or an id outside the INTEGER range of a SERIAL key;
- on the matched or inserted row: NULL written into a NOT NULL column, or
  an owner that is not a user.

An update whose WHERE clause matches no row raises only the errors of the
first group.

The shared approver and recipient update builder,
`ContactUpdate.BuildContactUpdate`, is a loop over the body's entries,
with invariants. `NotesModel.BuildNoteUpdate` and
`UserModel.BuildProfileUpdate` are straight-line code, one conditional
push per field, as in the source. Each builder is proved to produce the
statement its shape predicate describes. Separate lemmas then prove what
executing that statement does to the row.

The JavaScript string functions the code relies on are modelled as
follows:
- `String.prototype.trim` strips the WhiteSpace and LineTerminator
  characters of ECMAScript from both ends.
- `length` counts UTF-16 code units: two for a character outside the
  Basic Multilingual Plane.
- The column rewrite `replace(/([A-Z])/g, '_$1').toLowerCase()` puts `_`
  before each ASCII capital. `toLowerCase` then lowers the ASCII capitals
  and maps the two non-ASCII characters whose lower case contains ASCII
  letters: U+212A KELVIN SIGN to `k`, and U+0130 to `i` followed by
  U+0307.
- The address check is the regular expression `^[^\s@]+@[^\s@]+\.[^\s@]+$`.
- `parseInt` is decimal.

The model follows the code where the code misbehaves:
- `addApprover` names a column `approver_phone` that the table does not
  have. It always fails, so POST /profile/approvers never answers 201.
- The camelCase rewrite turns `approverContactNumber1` into
  `approver_contact_number1`, but the column is `approver_contact_number_1`.
  An update that names a contact number is therefore rejected
  (`ContactUpdate.ContactNumberUpdateFails`).
- The update filter drops the keys `id` and `userId` only. A body key
  `user_id` passes it and moves the row to another owner
  (`ContactUpdate.PatchedOwner`, constrained by the foreign key).

Other behaviour of the code that the model keeps:
- An empty `recipientIds` list skips the ownership check.
- `updateNote` does not stamp `updated_at`.
- `updateNote` with no field supplied throws, and the route answers 500.
  `updateApprover` and `updateRecipient` instead return null, which the
  routes answer with 404, like a missing row.
- The columns of an approver or recipient update come from the run-time
  rewrite above, not from a fixed table.
- `src/config/database.ts` creates no `user_notes` table, so notes are not
  deleted with their user.
- The login callback uses the in-memory list from `src/config/passport.ts`.

Modules:
- `Common` holds `Option`, `Result`, JavaScript string fields (`JsText`),
  truthiness and `||` null.
- `Schema` holds rows, records and the row-to-record mappings.
- `Store` is the database, its invariant and `ORDER BY`.
- `Sql` holds statements and the store's execution of them.
- `SqlText` holds the SET clause of the contact updates as the text the code sends.
- `JsStrings` holds trim, snake case and `parseInt`.
- `CamelKeys` holds the body keys and their rewrites.
- `ContactInsert` is the ten-column insert.
- `ContactUpdate` is the shared update builder.
- `NotesModel`, `UserProfileModel`, `RecipientProfileModel` and `UserModel`
  are one module per model file.
- `UsersRoutes` holds the route handlers.
- `Passport` holds the in-memory login store.

## Model

| member | source | states |
|---|---|---|
| Common.OrNull | src/models/RecipientProfile.ts:20-26 | the `or null` default keeps a value exactly when it is truthy, that is a non-empty string, and gives NULL otherwise |
| Common.StoredVarchar | src/config/database.ts:74-108 | a text stored in VARCHAR(n) is a prefix of at most n characters, the whole text when it is no longer than n, and, for a text the column takes, the part cut off is spaces |
| Schema.ToUser | src/models/User.ts:15-24 | the `User` record built from a row carries the row's id and all six other columns unchanged |
| Schema.MapRowToNote | src/models/NotesModel.ts:229-238 | `mapRowToNote` copies every column; a NULL `recipient_ids` reads back as `[]` |
| Schema.FieldOfColumnName | src/config/database.ts:74-108 | each approver or recipient column name is recognised as its own field again, so no two fields share a column |
| Schema.ColumnNameIsPrefixed | src/config/database.ts:78-86 | every person column starts with the table's prefix and is none of `id`, `user_id`, `created_at` and `updated_at` |
| Sql.PrepareError | src/config/database.ts:74-108 | a statement the store accepts names each column once, only existing columns, and only writable ones with an in-range placeholder |
| Sql.ContactValueError | src/config/database.ts:74-108 | only texts fail to convert; a text for `user_id` or a person column converts exactly when the column takes it, and one for `created_at` exactly when it reads as a timestamp |
| Sql.ApplyContactSets | src/config/database.ts:74-108 | applying a SET list changes `created_at` only through an item naming it, leaves the row owned by a user (`REFERENCES users(id)`), and keeps `updated_at` when no item stamps it |
| Sql.ApplyAccepts | src/config/database.ts:74-108 | a SET list is applied without error exactly when each item is acceptable on its own: a known writable column, a bound placeholder, a value that converts to the column, and no NULL in a NOT NULL column or unknown owner |
| Sql.ApplyContactSetsEffect | src/config/database.ts:74-108 | after a SET list with distinct columns, each field holds the value of the item naming its column cut to the column width, or its old value when none does; `user_id` and `created_at` likewise; `updated_at` is now exactly when stamped |
| Sql.CreatedWritten | src/config/database.ts:74-108 | an item naming `created_at` leaves in it the time its value reads as |
| Sql.ExecContactInsert | src/config/database.ts:92-108 | an inserted row belongs to an existing user, has `updated_at` equal to now, and `created_at` equal to now when the insert does not name that column |
| Sql.ExecNoteUpdate | src/models/NotesModel.ts:117-124 | an updated note is an existing row and keeps its owner |
| Sql.ExecUserUpdate | src/config/database.ts:29-40 | an updated user is an existing row and keeps its unique email |
| JsStrings.Trim | src/routes/users.ts:408 | `trim()` returns the slice between the leading and the trailing white space; it is empty exactly when the input is all white space, and otherwise starts and ends with a non-space |
| JsStrings.TrimIdempotent | src/routes/users.ts:428 | a trimmed note is unchanged by trimming it again |
| JsStrings.SnakeCase | src/models/UserProfile.ts:184 | the column rewrite adds one character per ASCII capital and per U+0130, and leaves no character that the modelled `ToLower` would change |
| JsStrings.ToLower | src/models/UserProfile.ts:184 | `toLowerCase` maps an ASCII capital to its small letter, U+212A to `k`, U+0130 to `i` and U+0307, leaves every other character, and returns only characters it leaves alone |
| JsStrings.SnakeCaseAppend | src/models/UserProfile.ts:184 | the rewrite acts character by character: it distributes over concatenation |
| JsStrings.SnakeCasePlain | src/models/UserProfile.ts:184 | a key of characters the rewrite and `toLowerCase` leave alone is its own column name |
| JsStrings.SnakeCaseKelvin | src/models/UserProfile.ts:184 | a Kelvin sign passes the regular expression and is lowered to `k` without a `_` |
| JsStrings.Utf16Length | src/routes/users.ts:414 | `length` counts at least one and at most two code units per character, exactly one when every character lies in the Basic Multilingual Plane |
| JsStrings.Utf16LengthAppend | src/routes/users.ts:414 | `length` adds up over concatenation |
| JsStrings.Utf16LengthTrim | src/routes/users.ts:408-414 | trimming never makes a text longer in code units |
| JsStrings.ParseInt | src/routes/users.ts:191-193 | decimal `parseInt` is NaN exactly when no digit follows the optional white space and sign; otherwise it is the signed value of the longest digit prefix |
| JsStrings.ParseIntDecimal | src/routes/users.ts:191-193 | `parseInt` of an integer's decimal form, followed by anything that does not start with a digit, is that integer |
| CamelKeys.CamelKeyColumn | src/models/UserProfile.ts:184 | the rewrite turns each approver or recipient body key into the table prefix followed by the field's derived suffix |
| CamelKeys.CamelKeyIsColumn | src/models/RecipientProfile.ts:61 | for every field but the two contact numbers, the rewritten body key is that field's column |
| CamelKeys.KelvinKeyIsColumn | src/models/UserProfile.ts:184 | a LinkedIn body key spelled with a Kelvin sign for its `k` still names the LinkedIn column |
| ContactInsert.BoundFor | src/models/RecipientProfile.ts:16-27 | each optional field is bound with the `or null` default; the name and email are bound as given |
| ContactInsert.InsertColumns | src/models/RecipientProfile.ts:9-12 | the insert lists `user_id` and then the nine person columns in table order |
| ContactInsert.InsertValues | src/models/RecipientProfile.ts:16-27 | the ten values are the owner and then each field's bound value, position for position with the columns |
| ContactInsert.StoredContact | src/models/RecipientProfile.ts:16-27 | every field of the stored person holds the cell its bound value leaves in a VARCHAR column of that width |
| ContactInsert.ColumnsDistinct | src/models/RecipientProfile.ts:9-12 | the ten columns are distinct and none is `updated_at` |
| ContactInsert.InsertPrepares | src/models/RecipientProfile.ts:8-27 | the store accepts the ten-column statement for any body |
| ContactInsert.InsertEffect | src/models/RecipientProfile.ts:8-30 | the insert succeeds exactly when every bound text fits its VARCHAR column, the owner exists and a name and an email are given; the row then holds them cut to width, the falsy-to-NULL optional fields and the current time |
| ContactInsert.RunContactInsert | src/models/RecipientProfile.ts:29-30 | running the insert has the outcome `InsertEffect` describes |
| ContactUpdate.KeptEntries | src/models/UserProfile.ts:182-183 | the entries the loop keeps are exactly those with a defined value and a key other than `id` and `userId` |
| ContactUpdate.BuildContactUpdate | src/models/UserProfile.ts:178-203 | no statement exactly when nothing is kept; otherwise each kept entry becomes `snake_case(key) = $j` in order, then `updated_at = CURRENT_TIMESTAMP`, and `WHERE id = $n` with n the number of values, the id last, and no owner predicate |
| ContactUpdate.PatchedWritten | src/models/UserProfile.ts:185-186 | after the update, a field whose column a kept key names holds that entry's value, cut to the column width |
| ContactUpdate.PatchedUntouched | src/models/UserProfile.ts:182-189 | a field no kept key names is unchanged |
| ContactUpdate.PatchedStamp | src/models/UserProfile.ts:195 | the updated row has `updated_at` equal to now, and its old `created_at` when no kept key names `created_at` |
| ContactUpdate.PatchedCreated | src/models/UserProfile.ts:183-186 | a kept key that rewrites to `created_at` leaves in it the time its value reads as, or NULL |
| ContactUpdate.PatchedOwner | src/models/UserProfile.ts:183-184 | a kept key that rewrites to `user_id` holds a string, which becomes the row's owner |
| ContactUpdate.KeptOwner | src/models/UserProfile.ts:183-184 | without such a key the owner is unchanged |
| ContactUpdate.ContactUpdateEffect | src/models/UserProfile.ts:198-211 | the row an accepted statement updates is the one with that id, patched as the four properties above say |
| Sql.ExecContactUpdate | src/models/UserProfile.ts:198-205 | an update that succeeds has a statement that prepares and binds an INTEGER id; a row is returned only when it has that id and owner, and nothing is returned only when no row does |
| ContactUpdate.ContactUpdateOutcomeExec | src/models/UserProfile.ts:198-205 | the built statement fails exactly when `ContactUpdateOutcome` is Rejected, matches nothing exactly when it is NoMatch, and updates a row exactly when it is Matched |
| ContactUpdate.RunContactUpdate | src/models/RecipientProfile.ts:55-88 | an error exactly when `ContactUpdateOutcome` is Rejected; null exactly when nothing is kept or no row has the id; an updated row is the row with that id, whoever owns it, patched as `ContactPatched` says, and still owned by a user |
| ContactUpdate.ContactNumberKeyUnknown | src/config/database.ts:80-81 | the rewrite of `approverContactNumber1` or `…2`, and of the recipient keys, names no column of the table |
| ContactUpdate.ContactNumberUpdateFails | src/models/UserProfile.ts:184-205 | an update whose body sets a contact number is rejected by the store |
| SqlText.JoinItemsInjective | src/models/UserProfile.ts:185-200 | a SET clause joined with `, ` from items whose columns are identifiers and whose right-hand sides hold no comma can be read as such items in one way only |
| SqlText.IdentifierKeysReadOnce | src/models/RecipientProfile.ts:62-77 | when every kept key rewrites to an identifier, the only such reading of the text the code sends is the structured SET list the rest of the model runs, one item per kept key plus `updated_at` |
| SqlText.NonIdentifierKeyRejected | src/models/UserProfile.ts:182-187 | a kept key whose rewrite is not an identifier makes `ContactUpdateOutcome` Rejected |
| SqlText.InjectedKeyText | src/models/UserProfile.ts:184-200 | for the body key `approver_relationship = approver_email, approver_twitter` the text sent reads as three SET items, not the two the model builds, while the model rejects the update |
| Store.OrderByTime | src/models/User.ts:133-136 | `ORDER BY created_at` lists every row exactly once, in order of its time; ties come in any order |
| Store.FirstByTime | src/models/User.ts:133-136 | the scan returns a key of the set whose time comes first in the ordering |
| NotesModel.AddNote | src/models/NotesModel.ts:33-67 | a present, non-empty recipient list naming a recipient the user does not own is rejected with nothing inserted; otherwise exactly one new row holds the note, with a falsy attachment or list as NULL and the current time, and is returned |
| NotesModel.AddNoteFalsyDefaults | src/models/NotesModel.ts:59-66 | a note added without an attachment or a list reads back with no attachment and `recipientIds == []` |
| NotesModel.BuildNoteUpdate | src/models/NotesModel.ts:89-122 | no statement exactly when no field is supplied; otherwise `$1..$k` are note, attachment and recipient ids in that order, as supplied, with the id at `$k+1` and the owner at `$k+2`, matching the value positions |
| NotesModel.NoteUpdatePrepares | src/models/NotesModel.ts:113-122 | the store accepts that statement |
| NotesModel.NoteUpdateApplies | src/models/NotesModel.ts:94-107 | applying its SET list changes exactly the supplied fields, and not `updated_at` |
| NotesModel.NoteUpdateEffect | src/models/NotesModel.ts:114-128 | the statement updates the note only when both its id and its owner match, and otherwise matches nothing |
| NotesModel.UpdateNote | src/models/NotesModel.ts:70-131 | a failing recipient check and an empty update are errors that write nothing; otherwise only the note with that id and owner is patched and returned, and a missing or foreign note is null |
| NotesModel.DeleteNote | src/models/NotesModel.ts:134-143 | true exactly when a note with that id and owner existed, and only that note is removed |
| NotesModel.GetNoteById | src/models/NotesModel.ts:213-226 | a note is found exactly when it has that id and owner |
| NotesModel.AddedNoteFound | src/models/NotesModel.ts:213-226 | a stored note reads back through its owner and is invisible to every other user |
| NotesModel.GetNotesByUserId | src/models/NotesModel.ts:146-155 | lists every note of the user exactly once, mapped, newest first, and nothing else |
| NotesModel.ResolveRecipients | src/models/NotesModel.ts:183-184 | the join yields, for the listed ids, exactly the recipients that belong to the note's owner; other users' ids and missing ids yield nothing |
| NotesModel.ResolveMultiplicity | src/models/NotesModel.ts:183-184 | a recipient appears in the join as often as the note lists its id when the note's owner owns it, and never otherwise |
| NotesModel.GetNotesWithRecipients | src/models/NotesModel.ts:158-210 | the user's notes, newest first, each with the multiset of recipients its ids resolve to, `[]` when none |
| UserProfileModel.ProfileValues | src/models/UserProfile.ts:95-104 | each of the seven values takes the `or null` default: an absent or zero age and empty strings become NULL |
| UserProfileModel.UpsertValueError | src/config/database.ts:58-72 | the upsert values convert exactly when the user id and every text fit their columns and the age is within INTEGER; an age outside it is reported as out of range |
| UserProfileModel.Upserted | src/models/UserProfile.ts:77-93 | the upsert leaves one row for the user holding all seven new values and the current `updated_at`; an existing row keeps its id and `created_at`; other users' rows are unchanged |
| UserProfileModel.UpsertOverwrites | src/models/UserProfile.ts:82-91 | a second upsert overwrites all seven fields, not only the supplied ones |
| UserProfileModel.UpsertKeepsOwned | src/config/database.ts:58-72 | the upsert keeps profiles one per existing user with distinct ids |
| UserProfileModel.UpsertProfile | src/models/UserProfile.ts:75-126 | a value that does not convert is an error that draws no id and changes nothing; otherwise an id is drawn, an unknown user is a foreign-key error that changes no profile, and a known one gets the profiles `Upserted` describes and the stored row returned |
| UserProfileModel.NoPhoneColumn | src/config/database.ts:74-90 | `user_approvers` has no `approver_phone` column |
| UserProfileModel.AddApproverUnprepared | src/models/UserProfile.ts:130-137 | the insert as written is refused for naming `approver_phone` |
| UserProfileModel.AddApproverRejected | src/models/UserProfile.ts:130-152 | whatever the body, the store rejects that insert |
| UserProfileModel.AddApprover | src/models/UserProfile.ts:128-174 | `addApprover` always throws the undefined-column error and stores nothing |
| UserProfileModel.UpdateApprover | src/models/UserProfile.ts:176-231 | an error exactly when `ContactUpdateOutcome` is Rejected and null exactly when nothing is kept or no row has the id, both changing nothing; a returned approver is the row with that id, whoever owns it, patched as `ContactPatched` says, with every other row unchanged |
| UserProfileModel.ValidateMinimumApprovers | src/models/UserProfile.ts:257-267 | true exactly when the user owns two distinct approvers |
| UserProfileModel.TwoOrMore | src/models/UserProfile.ts:265-267 | `count >= 2` holds exactly when two distinct rows are counted |
| UserProfileModel.DeleteApprover | src/models/UserProfile.ts:233-255 | an id outside the INTEGER range is an error; with fewer than two other approvers of the user, an error and no deletion; otherwise true exactly when the row with that id and owner existed, and only it is removed |
| UserProfileModel.DeleteKeepsMinimum | src/models/UserProfile.ts:235-250 | after a permitted deletion the user still has two approvers, and every other user's approvers are unchanged |
| UserProfileModel.GetCompleteProfile | src/models/UserProfile.ts:6-73 | null exactly when the user row is missing; otherwise the user, the profile or none, and every approver of the user exactly once, oldest first |
| RecipientProfileModel.AddRecipient | src/models/RecipientProfile.ts:6-51 | stored exactly when the values fit their columns, the owner exists and a name and an email are given: one new row under a fresh id as `InsertEffect` describes, returned; otherwise an error and the table unchanged; an id is drawn unless a value does not fit |
| RecipientProfileModel.UpdateRecipient | src/models/RecipientProfile.ts:53-108 | the same as `UpdateApprover`, on the recipients table |
| RecipientProfileModel.DeleteRecipient | src/models/RecipientProfile.ts:110-120 | an id outside the INTEGER range is an error; otherwise true exactly when the row with that id and owner existed; only that row is removed; there is no minimum count |
| UserModel.FindByGoogleId | src/models/User.ts:6-29 | a user is found exactly when the id is a key, with that row's email |
| UserModel.FindByEmail | src/models/User.ts:32-55 | null exactly when no user has that email; otherwise the only user with it |
| UserModel.CreateValueError | src/config/database.ts:29-38 | the insert values convert exactly when id, email, name and provider fit their VARCHAR columns |
| UserModel.Create | src/models/User.ts:58-96 | a value too long for its column is an error that changes nothing; then a taken id or email, after cutting to width, is a unique-violation error that changes nothing; otherwise one row with the cut values, a falsy picture as NULL and `created_at == last_login` is added, returned, and then found by id and by email |
| UserModel.LastLoginEffect | src/models/User.ts:101-112 | the statement changes only `last_login` and `updated_at`, both to now, of the row with that id, and matches nothing otherwise |
| UserModel.UpdateLastLogin | src/models/User.ts:99-128 | a missing user gives null and no change; otherwise only the two timestamps of that user change, and the updated user is returned |
| UserModel.FindAll | src/models/User.ts:131-153 | every user exactly once, newest `created_at` first |
| UserModel.BuildProfileUpdate | src/models/User.ts:161-189 | no statement exactly when neither name nor picture is truthy; otherwise the truthy ones in order at `$1..`, `updated_at`, and `WHERE id = $n` with n the number of values |
| UserModel.ProfileUpdatePrepares | src/models/User.ts:181-191 | the store accepts that statement |
| UserModel.ProfileUpdateApplies | src/models/User.ts:165-181 | when the name fits VARCHAR(255), applying it writes each truthy field, leaves a falsy one, and stamps `updated_at` |
| UserModel.ProfileUpdateEffect | src/models/User.ts:184-195 | a name too long for its column is an error whether or not the user exists; otherwise it updates the user with that id and matches nothing when there is none |
| UserModel.UpdateProfile | src/models/User.ts:156-211 | with no truthy field, no write and the current user by id; a name too long for its column is an error with no write; otherwise null for a missing user, or that user patched and returned |
| UserModel.Delete | src/models/User.ts:214-224 | true exactly when the user existed; the user's row, profile, approvers and recipients are gone and every other row stays |
| UsersRoutes.IsValidEmailMatchesPattern | src/routes/users.ts:153-159 | the address check accepts exactly the strings `[^\s@]+@[^\s@]+\.[^\s@]+` matches in full |
| UsersRoutes.NewNoteText | src/routes/users.ts:407-418 | a note is accepted exactly when present, not blank after trimming and at most 10000 UTF-16 code units before trimming; the trimmed text is passed on |
| UsersRoutes.NewNoteTextTrimmed | src/routes/users.ts:428 | an accepted note is non-empty, at most 10000 UTF-16 code units, without surrounding white space, and trimming it again changes nothing |
| UsersRoutes.NoteUpdateData | src/routes/users.ts:465-487 | the body is refused exactly when a defined note is not a non-blank string of at most 10000 UTF-16 code units, or a defined `recipientIds` is not a list; otherwise only the defined fields are passed on, with the note trimmed |
| UsersRoutes.EmptyNoteUpdateReachesModel | src/routes/users.ts:484-489 | a body with no known field passes the checks and reaches `updateNote` as an empty update |
| UsersRoutes.AcceptedAge | src/routes/users.ts:95-105 | an accepted extended profile has a truthy first contact number and an age that is absent or within 13..120 once stored |
| UsersRoutes.StatusOf | src/routes/users.ts:201-216 | a thrown error is 500, null is 404 and a record is 200 |
| UsersRoutes.GetUsers | src/routes/users.ts:11-22 | 200 with every user, newest first |
| UsersRoutes.PutMe | src/routes/users.ts:30-54 | 500 when the name does not fit its column; otherwise 200 exactly when the signed-in user exists, else 404; no change except on 200 |
| UsersRoutes.GetCompleteProfile | src/routes/users.ts:59-78 | 200 exactly when the user exists, otherwise 404 |
| UsersRoutes.PutExtendedProfile | src/routes/users.ts:81-128 | 400 with no change for a falsy first contact number or a truthy age outside 13..120; otherwise 200 exactly when every value fits its column and the user exists, else 500 and no profile changes |
| UsersRoutes.PostApprover | src/routes/users.ts:131-185 | 400 exactly when the name or email is missing or the email is malformed; every other body ends in 500 |
| UsersRoutes.PutApprover | src/routes/users.ts:188-218 | 400 for an id that does not parse; otherwise 404 exactly when nothing is kept or no row has the id, 500 exactly when the store rejects the update, 200 exactly when a row is patched, as `ContactPatched` says; no change unless 200 |
| UsersRoutes.DeleteApprover | src/routes/users.ts:221-251 | 400 for an unparsable id; 500 for an id outside the INTEGER range or when fewer than two other approvers remain; otherwise 200 exactly when the user's approver with that id existed, and then the table is the old one less that id, else 404 |
| UsersRoutes.PostRecipient | src/routes/users.ts:254-308 | 400 with no change for a rejected body; otherwise 201 exactly when every value fits its column and the user exists, storing the row `InsertEffect` describes, else 500 and no new recipient |
| UsersRoutes.PutRecipient | src/routes/users.ts:311-341 | as `PutApprover`, for recipients |
| UsersRoutes.DeleteRecipient | src/routes/users.ts:344-374 | 400 for an unparsable id; 500 for an id outside the INTEGER range; otherwise 200 exactly when the user's recipient with that id existed, and then the table is the old one less that id, else 404 and no change |
| UsersRoutes.GetNotes | src/routes/users.ts:379-395 | 200 with the user's notes, newest first, each with its resolved recipients |
| UsersRoutes.PostNote | src/routes/users.ts:398-444 | 400 with no change for a rejected note or a truthy non-list `recipientIds`; otherwise 201 exactly when the recipient check passes, adding exactly one row under the next free id, holding the user, the trimmed note, the attachment or null, the resolved recipient ids and the current time as both stamps; else 500 and no new note |
| UsersRoutes.PutNote | src/routes/users.ts:447-508 | 400 for an unparsable id or a refused body; 500 for a failing recipient check or an empty update; 200 with the note patched when the user's note exists; 404 otherwise; no change except on 200 |
| UsersRoutes.DeleteNote | src/routes/users.ts:511-541 | 400 for an unparsable id; 200 exactly when the user's note with that id existed, deleting only it; else 404 and no change |
| UsersRoutes.GetNote | src/routes/users.ts:544-575 | 400 for an unparsable id; 200 exactly when the note has that id and belongs to the user, otherwise 404 |
| Passport.NewUser | src/config/passport.ts:38-46 | a new user takes the first email or `''`, the first photo or none, and the same time for `createdAt` and `lastLogin` |
| Passport.Find | src/config/passport.ts:64 | `users.find` yields none exactly when no user has the id, and otherwise a stored user with it |
| Passport.FindAt | src/config/passport.ts:29 | `find` yields the user at the first position holding the id |
| Passport.AppendedUnique | src/config/passport.ts:29-48 | appending a user whose id was not found keeps ids unique |
| Passport.ReplacedUnique | src/config/passport.ts:29-34 | replacing a user by one with the same id keeps ids unique |
| Passport.Serialize | src/config/passport.ts:58-60 | the session key of a user is exactly the user's id |
| Passport.SerializeRoundTrip | src/config/passport.ts:58-66 | while ids are unique, deserializing a stored user's serialized id finds that user |
| Passport.MemoryUserStore.FindIndex | src/config/passport.ts:29 | the linear search returns the first index holding the id, or -1 exactly when there is none |
| Passport.MemoryUserStore.Verify | src/config/passport.ts:26-53 | a known id changes only that user's `lastLogin` and adds nothing; an unknown one appends exactly one `NewUser`; ids stay unique and the returned user is what `find` then yields |
| Passport.MemoryUserStore.Deserialize | src/config/passport.ts:63-66 | `deserializeUser` yields what `find` yields, null for an unknown id |

## Left out

- Connection pooling, the DDL statements themselves, and the driver's I/O in `src/config/database.ts` are left out. The table shapes and constraints are kept as `Database.Valid()`.
- The Express layer, `requireAuth`, sessions, and the session table are left out. The signed-in user's id is a parameter of each handler.
- GET /me is left out: it only echoes the session's user.
- The Google strategy setup and its environment checks in `src/config/passport.ts` are left out, because they configure an external OAuth provider.
- `console` logging and the development-only error messages of the 500 answers are left out.
- `validate_recipient_ids` is an SQL function whose body is not shown. The model uses the rule its error message states: every id names a recipient of the same user.
- `ORDER BY is_primary` in `getCompleteProfile` is left out. The shown DDL has no such column; the model orders approvers by `created_at` only.
- The order of recipients inside a note is left out, because `json_agg` has no ORDER BY. The model states the multiset of recipients only.
- No `user_notes` DDL is shown, so notes have no foreign key, no cascade, no column widths, no INTEGER range on their ids, and no column constraints beyond those the code implies.
- Request bodies hold strings, `null` or nothing. Numbers, booleans and objects in string fields are left out, except that `age` is an optional integer.
- `parseInt` is modelled with radix 10, after the same white space `trim` strips. The hexadecimal `0x` and `0X` prefixes are left out.
- `new Date()` and `CURRENT_TIMESTAMP` are one abstract clock value per call. `Passport.NewUser` therefore gives `createdAt` and `lastLogin` the same instant, where the code calls `new Date()` twice.
- The SERIAL counters advance on every insert attempt whose values convert, including attempts that then fail on NOT NULL or the foreign key, as `nextval` does. An attempt with a value too long for its column draws no key. The numbering of keys beyond this is left out.
- UserProfileModel.AddApprover: the intended ten-value insert is not modelled as succeeding. The code's insert names a missing column; the statement that would work is `ContactInsert.InsertEffect` on the approvers table.
- The check-then-delete race in `deleteApprover` and all concurrency are left out. Calls are modelled one at a time.
- Passport.MemoryUserStore.Verify: the returned user is a copy. In the code it is the same object as the stored one, so later changes to it would show in the list; aliasing is left out.
- Date conversions such as `new Date(row.created_at)` are left out. Timestamps keep their stored value.
- The syntax PostgreSQL accepts for a `timestamptz` text is left out. `Database.readTime` stands for it: a fixed, abstract reading of a text as a time or as no time, and an update whose `created_at` text reads as no time fails.
- JsStrings.ToLower: only the ASCII capitals, U+212A and U+0130 are lowered. `toLowerCase` also lowers the other non-ASCII capitals, which the model leaves unchanged. Either way the result is not an ASCII column name, so the update fails with an unknown column in both; only the column named in the error differs.
- JavaScript strings are modelled as sequences of characters, so a lone surrogate half cannot occur in a model string.
- ContactUpdate.RunContactUpdate: each kept key is read as exactly one column name, as if quoted. The code pastes the rewritten key into the SQL text unquoted, so the server parses a key that is not an identifier (white space, punctuation, SQL) as SQL text. That parse is not modelled: the model rejects every such key, where the server may run it (see "## Findings").
- UserProfileModel.UpdateApprover: a body key that is not an identifier after the rewrite is rejected in the model; the parse the server makes of it is not modelled, as for `ContactUpdate.RunContactUpdate`.
- RecipientProfileModel.UpdateRecipient: a body key that is not an identifier after the rewrite is rejected in the model; the parse the server makes of it is not modelled, as for `ContactUpdate.RunContactUpdate`.
- UsersRoutes.PutApprover: the 500 stated for a body key that is not an identifier after the rewrite is the model's reading; the server may parse and run such a key, as for `ContactUpdate.RunContactUpdate`.
- UsersRoutes.PutRecipient: the 500 stated for a body key that is not an identifier after the rewrite is the model's reading; the server may parse and run such a key, as for `ContactUpdate.RunContactUpdate`.
- ContactInsert.InsertEffect: which error a failing insert reports, when more than one applies, is not stated. Only that it fails is stated.
- Ages are integers. A fractional `age` and the range of a JavaScript number are left out.

## Findings

| source | as written | input that shows it | evidently intended | confidence | as-written member | corrected member |
|---|---|---|---|---|---|---|
| src/models/UserProfile.ts:184-200 | the rewritten body key is pasted unquoted before ` = $n` in the SET clause, so a key can carry SQL (the same at src/models/RecipientProfile.ts:61-77) | the users router's `PUT /profile/approvers/:approverId` with body `{"approver_relationship = approver_email, approver_twitter": "x"}`, or its camel-case spelling: the text sent sets `approver_relationship` to the approver's email and `approver_twitter` to `x` | each body key names one column, and any other key makes the update fail | not executed | SqlText.InjectedKeyText | SqlText.NonIdentifierKeyRejected |
