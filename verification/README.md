# Princess Angel Salon booking rules, modelled in Dafny

This project models the rule-bearing core of the salon's Express server
(`server.js`) and its SQLite set-up script (`database.js`), and proves
properties of that model:

- **Appointments.** The book-appointment handler applies its admission
  checks in this order: past instant, configuration row, daily cap on
  non-cancelled bookings, salon-hours window. After that the INSERT's
  NOT NULL constraints and its foreign key on `user_id` decide. The cancel, reschedule, status-update and
  complete handlers then change the table.
- **Login and one-time passwords.** The `otp` table is a small state
  machine:
  - login and forgot-password overwrite the user's codes;
  - resend appends a code;
  - verify-otp picks the newest matching code and applies a five-minute
    expiry;
  - update-password deletes the user's codes.

  The Two-Factor Authentication setting gates the OTP step of login.
- **Accounts.** The module covers register, change-password, the admin's
  delete-user, and the superadmin's add-admin and update-admin forms. The
  add-admin form is checked by three regular expressions: a Gmail address,
  an `09` phone number and a strong password.
- **Loading the database.** Loading creates the tables, migrates the
  feedback table and repairs missing columns (`ensureColumnExists`). It
  also resets the security settings and seeds the default configuration
  and the default superadmin.

The store is one `Database` object (module `Tables`). It holds a sequence
of rows per table and the schema as a map from table to column names.
AUTOINCREMENT counters are fields. The table constraints (CHECK on role,
UNIQUE email, primary keys, rating 1..5) form the invariant `Valid`.
Every handler is a method on that store. Each method is specified by a
verdict function or by the functions describing the new table contents,
and lemmas prove what the source promises about those functions.

Modelling conventions:

- A request field is `Option<string>`, with `None` meaning absent. An
  absent field binds as SQL NULL. It matches nothing in a WHERE clause,
  and it breaks a NOT NULL column when written. A template literal or
  `RegExp.prototype.test` reads it as the text "undefined".
- The clock is a parameter `now`, in milliseconds. Every `new Date(...)`
  is a parameter `parse` applied to the exact string the handler builds,
  with `None` for an Invalid Date. A comparison with an Invalid Date is
  false.
- The random OTP is a parameter in 1000..9999. Its stored form is the
  4-digit text.
- Three behaviours of the code are easy to misread:
  - **Unparsable booking date or time.** The book handler has no format
    check. Such a booking passes the past check and the hours check. The
    daily cap still applies, because it counts rows by the date text. The
    booking is stored when its fields are present and its user exists.
    Only reschedule checks the format.
  - **Hours window.** `salon_hours` is split on `-`, and the handler builds
    `${date}T${open}` / `${date}T${close}`. For the seeded
    `10:00 AM - 8:00 PM` these are not ISO times, so the window then
    restricts nothing. With no `-`, the close time is `undefined` and only
    the opening bound can apply.
  - **Configuration row.** The configuration is seeded only into an empty
    table, and booking reads the row with id 1.
- Foreign keys are enforced: better-sqlite3 builds SQLite with them on,
  and database.js leaves them on. The statements that can break one check
  them: the booking INSERT, the user DELETE and the feedback copy of the
  migration.

## Model

| member | source | states |
|---|---|---|
| Common.FirstIndex | server.js:1128-1130 | `.get()` yields the first row in table order that satisfies the WHERE clause; `None` exactly when no row does |
| JsStrings.Trim | server.js:89 | `trim` returns the slice of the string after its leading white space; everything cut off on either side is white space, and none is left at either end |
| JsStrings.Split | server.js:89 | `split('-')` gives at least one piece, no piece holds the separator, and joining the pieces with it gives the string back |
| JsStrings.SplitAtOnlySeparator | server.js:89 | a string with exactly one `-` splits into the two pieces around it |
| JsStrings.EqualsIgnoringCaseIff | database.js:5-17 | comparing names character by character, ignoring ASCII case, is position-wise equality of the lower-cased strings (SQLite identifiers, the regex `i` flag) |
| Tables.UsersOkAppend | database.js:22-31 | an INSERT with the next id, an allowed role and a free email keeps the users constraints |
| Tables.UserByEmailUnique | database.js:26 | with UNIQUE email, the lookup by a user's email finds that user |
| Tables.SetPassword | server.js:1218 | `UPDATE users SET password = ? WHERE id = ?` changes exactly the password of the rows with that id |
| Tables.Database.InsertUser | database.js:22-31 | appends the row and advances the counter, keeping `Valid` |
| Tables.Database.SetUserPassword | server.js:228-229 | the password update keeps `Valid` |
| Tables.Database.constructor | database.js:1-2 | a new database file has no tables and empty rows, with every counter at 1 |
| Startup.WithColumn | database.js:9-10 | `ADD COLUMN` extends the column list by exactly one column when none matches it ignoring case, and otherwise leaves it unchanged |
| Startup.EnsureColumnEstablishes | database.js:5-17 | afterwards an existing table has the column, its old columns are a prefix of the new list, and no other table changes |
| Startup.EnsureColumnIdempotent | database.js:5-17 | calling `ensureColumnExists` twice equals calling it once |
| Startup.HasColumn | database.js:7 | the `.some` scan finds the column exactly when that exact name is in the list |
| Startup.EnsureColumnExists | database.js:5-17 | the scan plus the caught ALTER has the net effect `EnsureColumn`: a failed ALTER (table missing, or a name differing only in case) changes nothing |
| Startup.CreateTable | database.js:22-31 | `CREATE TABLE IF NOT EXISTS` adds the table only when absent |
| Startup.HasListedColumns | database.js:101-105 | a table resolves every column it lists, in any order |
| Startup.MigratedColumns | database.js:77-108 | after the migration `feedback` exists and `feedback_old` does not |
| Startup.MigrationPaths | database.js:77-108 | whether or not the old table existed, a completed migration leaves the same tables |
| Startup.MigrateFeedback | database.js:77-108 | succeeds exactly when the rename does not clash and the copy passes the new table's constraints and foreign keys; on success the new table holds exactly the legacy rows, ids included, and `feedback_old` is gone; on failure either nothing changed (rename clash) or the rows sit in `feedback_old` beside an empty new table, and both tables exist |
| Startup.RenameFeedbackTable | database.js:79-82 | the rename fails when `feedback_old` exists; otherwise the rows move to `feedback_old` |
| Startup.CopyAndDropLegacyFeedback | database.js:99-108 | the copy succeeds exactly when the legacy columns cover the new ones, every rating is in 1..5, and every row's user exists and its stylist id is NULL or names a stylist (foreign keys); then the rows are copied and the old table is dropped |
| Startup.MigrationRerunSucceeds | database.js:77-108 | a second migration, at the next start, succeeds again with the same users and stylists |
| Startup.MigrationRerunKeepsRows | database.js:77-108 | a second migration keeps the migrated rows and the tables |
| Startup.DisableAll | database.js:169-172 | every setting keeps its row and has `enabled = 0` |
| Startup.StartupDisablesTwoFactor | database.js:169-197 | after loading, the 2FA row exists and is disabled, so login skips the OTP step; all rows are disabled, and at most one row was added |
| Startup.SettingsStartupIdempotent | database.js:169-197 | loading again adds no second 2FA row and changes no setting |
| Startup.DisableAllKeepsIds | database.js:169-172 | the reset keeps the primary-key rule |
| Startup.ResetSecuritySettings | database.js:169-197 | the settings become `SettingsAfterStartup` of the old rows, and the counter advances by the rows added |
| Startup.InsertSetting | database.js:191-196 | appends the row with the next id, keeping `Valid` |
| Startup.SeedConfigFacts | database.js:201-208 | an existing configuration is untouched; an empty table gets exactly the one row `(next id, '10:00 AM - 8:00 PM', 40, 'Sundays 9:00 PM')`; seeding again changes nothing |
| Startup.SeedDefaultConfig | database.js:201-208 | the configuration table becomes `SeedConfig` of the old rows |
| Startup.SuperadminSeedFacts | database.js:211-221 | seeding adds at most one row, a superadmin, only when none exists; a superadmin exists afterwards unless the INSERT failed; seeding again adds nothing |
| Startup.SeedDefaultSuperadmin | database.js:211-221 | fails exactly when there is no superadmin and the seed email is taken (UNIQUE); otherwise the users become `SeedSuperadmin` of the old rows |
| Startup.CreatedTables | database.js:20-167 | after every CREATE TABLE and the migration, every table but `feedback_old` exists |
| Startup.RepairColumnsExtends | database.js:225-229 | the five repairs keep the set of tables and give appointments, users and feedback their late columns |
| Startup.StartupSchema | database.js:20-229 | after a complete load every table but `feedback_old` exists, with the repaired columns |
| Startup.CreateTablesBeforeFeedback | database.js:20-73 | the four CREATE TABLE statements before the migration |
| Startup.CreateTablesAfterFeedback | database.js:112-167 | the five CREATE TABLE statements after the migration |
| Startup.RepairMissingColumns | database.js:225-229 | the five `ensureColumnExists` calls |
| Startup.CreateSchema | database.js:20-167 | the schema steps succeed exactly when the migration does; on failure the feedback tables are as the failed migration left them |
| Startup.SeedDefaults | database.js:169-221 | the seeding steps succeed exactly when the superadmin seed does |
| Startup.SeedAndRepair | database.js:169-229 | settings and configuration are always seeded; the superadmin seed and then the column repairs run unless the seed clashes, which leaves users and columns unchanged |
| Startup.LoadDatabase | database.js:1-229 | the whole load: `ok` exactly when neither the migration nor the superadmin seed throws; then schema, feedback, settings, configuration and users are the functions above of the old state. After a failed migration the feedback tables are as it left them and nothing is seeded. After a clashing seed, everything before it has run and the users are unchanged |
| Startup.FailedMigrationRepeats | database.js:77-82 | a failed migration leaves both `feedback` and `feedback_old`, so every later start fails at the rename |
| Booking.CountActive | server.js:74-79 | the count of the date's non-cancelled rows is at most the number of rows, and 0 for a missing date (NULL matches nothing) |
| Booking.RowsWithId | server.js:139-145 | the `changes` of an UPDATE or DELETE by id is 0 exactly when no row has the id |
| Booking.RowsWithIdAtMostOne | database.js:49 | with the primary key, an id selects at most one row |
| Booking.SetStatus | server.js:141 | the UPDATE sets the status of the rows with that id and changes no other row |
| Booking.SetSchedule | server.js:168-172 | the UPDATE sets date, time and 'Rescheduled' on the row with that id only |
| Booking.RemoveId | server.js:840 | the DELETE keeps exactly the rows with other ids |
| Booking.RemoveIdKeepsOk | database.js:49 | deleting rows keeps the key constraints |
| Booking.BookPastIff | server.js:57-63 | a booking is refused as past exactly when its instant parses and is at or before now, before the configuration is read; an unparsable instant is never past |
| Booking.BookCapacityIff | server.js:73-85 | with a non-zero cap, a booking that passed the earlier checks is refused exactly when the date's non-cancelled count is at least the cap; a cap of 0 never refuses |
| Booking.BookHoursIff | server.js:88-100 | the hours check refuses exactly when the booking is before opening or at/after closing; each bound is skipped when one of its instants does not parse |
| Booking.BookedIff | server.js:53-116 | a booking is accepted exactly when every check passes, userId, service, date and time are present (NOT NULL) and userId names a user (foreign key) |
| Booking.DefaultHoursSplit | database.js:206 | the seeded hours split into "10:00 AM" and "8:00 PM" |
| Booking.SeededHoursNeverReject | server.js:88-100 | with the seeded hours, when those two times do not parse, the hours check refuses nothing |
| Booking.SeededConfigIsRowOne | server.js:66-70 | on a fresh store the seeded configuration is the row booking reads (id 1); seeded under another id, booking finds none |
| Booking.CountActiveAppend | server.js:74-79 | an appended row adds one to its date's count when it is not cancelled |
| Booking.BookingCounts | server.js:104-110 | an accepted booking adds exactly one to its date's count |
| Booking.LastSlotScenario | server.js:73-85 | a booking that took the last slot makes the same request refused for the daily limit |
| Booking.CancelFreesSlot | server.js:139-148 | cancelling an active appointment lowers its date's count by one and no other date's count |
| Booking.InsertAppointment | server.js:104-110 | appends the row with the next id, keeping `Valid` |
| Booking.BookAppointment | server.js:53-116 | the outcome is `BookVerdict`; only an accepted booking writes, and it appends exactly one 'Pending' row with the request's fields |
| Booking.RewriteAppointments | server.js:139-180 | an update that keeps every id keeps `Valid` |
| Booking.CancelAppointment | server.js:139-148 | success exactly when a row has the id; that row's status becomes 'Cancelled' |
| Booking.RescheduleOrder | server.js:151-180 | the format check comes before the past check; a reschedule succeeds exactly when the new instant parses and is after now, the id exists, and date and time are present; no capacity or hours check |
| Booking.RescheduleAppointment | server.js:151-180 | the outcome is `RescheduleVerdict`; only success writes, setting date, time and 'Rescheduled' on that row |
| Booking.UpdateAppointmentStatus | server.js:951-966 | not found when no row has the id; a missing status then fails NOT NULL; otherwise any status text is stored and echoed in the message |
| Booking.CompleteAppointment | server.js:838-852 | the row is deleted; success exactly when it existed, and then exactly one row goes |
| Auth.CodeText | server.js:1144 | the code is stored as four decimal digits, the first not '0' |
| Auth.CodeRoundTrip | server.js:1144 | the stored text reads back as the code, so distinct codes have distinct texts |
| Auth.ExpiredInMinutes | server.js:1243-1246 | the millisecond test is `diffMins > 5`; exactly five minutes is accepted, one millisecond more is expired |
| Auth.NewestMatch | server.js:1235-1239 | `ORDER BY created_at DESC LIMIT 1` picks a row with the user and code, created no earlier than any other such row; none exactly when no row matches |
| Auth.SetOtp | server.js:1162-1163 | the UPDATE rewrites every row of the user and no other row |
| Auth.UpsertOtp | server.js:1157-1168 | after the upsert the user has a row and every row of the user holds the new code and time; when the user had rows they are updated in place, with the length and every other row unchanged; otherwise exactly one row is appended |
| Auth.RemoveOtps | server.js:1220 | the DELETE keeps exactly the other users' rows |
| Auth.VerifyOtp | server.js:1227-1253 | reads only; the outcome is `VerifyVerdict`, and a verified answer is for the user with that email |
| Auth.UpsertDecidesVerification | server.js:1157-1168 | after a login or forgot-password upsert, only the new code verifies for that user (an old code is "Invalid OTP."), until it is more than five minutes old |
| Auth.AppendKeepsOtherCodes | server.js:1262-1264 | appending a row leaves the answer for every other code unchanged |
| Auth.RemovedOtpsNeverVerify | server.js:1219-1220 | after update-password deletes the user's rows, no code verifies for that user |
| Auth.IssueOtp | server.js:1157-1172 | the upsert on the store, with the mail to the user recorded; `Valid` is kept |
| Auth.Login | server.js:1124-1180 | "Invalid credentials" exactly when no user matches both email and password; with 2FA off the user is returned and the OTP table is untouched; with it on the user's codes are upserted and one mail is sent |
| Auth.ForgotPassword | server.js:1181-1207 | fails exactly for an unknown email; otherwise the same upsert as login, whatever the 2FA setting |
| Auth.ResendOtp | server.js:1256-1271 | fails exactly for an unknown email; otherwise appends one row (several codes per user) and sends one mail |
| Auth.ResendVerification | server.js:1256-1271 | the resent code verifies until it expires, and every earlier code keeps the answer it had |
| Auth.UpdatePassword | server.js:1209-1223 | refuses a missing or empty email or password, then an unknown email; otherwise sets the password and deletes all the user's OTP rows |
| Auth.SetEnabled | server.js:1046 | the UPDATE sets the flag of the rows with that id only |
| Auth.SetEnabledKeepsOk | database.js:161-167 | the toggle keeps the primary-key rule |
| Auth.UpdateSecuritySetting | server.js:1043-1052 | the flag becomes 1 or 0 by the truth value of `enabled` |
| Auth.SecurityStatus | server.js:1275-1278 | the status is 1 exactly when login requires the OTP step, and 0 without a 2FA row |
| Auth.SecurityStatusMatchesLogin | server.js:1046 | toggling keeps every flag 0 or 1, and then the status is non-zero exactly when login requires the OTP step |
| Validators.GmailIff | server.js:532-534 | the regex `^[\w.%+-]+@gmail\.com$` (flag `i`) accepts exactly the addresses ending in "@gmail.com" in any ASCII case after at least one local character; such an address has a single '@' |
| Validators.PhoneIff | server.js:537-539 | `^09\d{9}$` accepts exactly the 11-digit strings starting with "09" |
| Validators.LookaheadOnOneLine | server.js:542 | on a string without line terminators, `(?=.*X)` holds exactly when a character of the class occurs |
| Validators.StrongPasswordIff | server.js:542 | the password regex accepts exactly the strings with at least 8 characters, no line terminator, and a lowercase letter, an uppercase letter, a digit and a non-alphanumeric character |
| Validators.UndefinedFailsEveryRule | server.js:531-547 | a missing field, which the regex sees as "undefined", fails all three rules |
| Accounts.RegisterVerdict | server.js:13-31 | never crashes; registered exactly when all four fields are present and the email is free; the UNIQUE message exactly when present and taken; the server-error message exactly when a field is missing |
| Accounts.RegisterCrashesOnMissingField | server.js:27 | as written, register crashes exactly on a missing field, and otherwise answers as `RegisterVerdict` |
| Accounts.Register | server.js:13-31 | the outcome is `RegisterVerdict`; only success writes, and it appends one row with role "user" |
| Accounts.RegisteredCustomerCanLogIn | server.js:1128-1130 | a new account logs in with the email and password it registered with |
| Accounts.ChangePassword | server.js:222-234 | "Current password is incorrect" exactly when no row has the id and the password; a missing new password fails NOT NULL; otherwise the password of that id is replaced, with no strength rule |
| Accounts.PasswordChangeSwitchesLogin | server.js:1128-1130 | after a change, login accepts the new password and refuses the old one |
| Accounts.RemoveUsers | server.js:200 | the DELETE keeps exactly the rows without that id and role |
| Accounts.DeleteUserAsWrittenNeverDeletes | server.js:198-207 | as written the handler never deletes anything, because the role CHECK admits no 'registered' row |
| Accounts.Customers | server.js:187-195 | the customer list is exactly the users with role 'user' |
| Accounts.RemoveUsersKeepsOk | database.js:22-31 | deleting users keeps the users constraints |
| Accounts.DeleteUser | server.js:198-207 | no customer with the id: nothing deleted. A customer still named by an appointment, a feedback row or a notification: the foreign key fails the DELETE ("Error deleting user") and nothing changes. Otherwise exactly that customer is removed |
| Accounts.DeleteUserKeepsStaff | server.js:198-207 | admins and superadmins are never deleted; the customer list loses exactly the rows with that id |
| Accounts.AddAdminIff | server.js:527-565 | an admin is added exactly when the email is Gmail, the phone has 11 digits starting with 09, the password meets the strength rule, a name is given and the email is free; an earlier failing check wins |
| Accounts.SeededAccountFailsAdminForm | database.js:214-217 | the seeded superadmin's email is not a Gmail address and its password has no uppercase letter |
| Accounts.AddAdmin | server.js:527-565 | the outcome is `AddAdminVerdict`; only success writes, and it appends one 'admin' row with the next id |
| Accounts.SetAdmin | server.js:587-591 | the UPDATE changes name, email, phone and password of that id's admin row only |
| Accounts.SetAdminKeepsOk | database.js:26 | the update keeps the constraints when no other row holds the new email |
| Accounts.UpdateAdminIff | server.js:570-600 | an update succeeds exactly when the password meets the strength rule, an admin with the id exists, all fields are present and no other row holds the email; email and phone rules are not applied |
| Accounts.UpdateAdmin | server.js:570-600 | the outcome is `UpdateAdminVerdict`; only success writes |

## Left out

- HTTP itself is not modelled: Express routing, CORS, static files, status codes and JSON shapes. Only outcomes and message texts are kept, plus the add-admin status codes.
- Mail delivery (nodemailer and `sendOTPEmail`) is external. Each sent code is only recorded in the store's ghost `outbox`.
- JavaScript `Date` parsing, time zones and `toISOString` are replaced by the `parse` parameter and integer milliseconds.
- The clock and `Math.random` are parameters.
- Request fields that are not strings (numbers, booleans, objects in the JSON body) are not modelled. Fields are optional strings, `enabled` is given as its truth value, and ids are integers, the value SQLite's INTEGER affinity gives a numeric path id. Non-numeric path ids are left out.
- Strings are sequences of Unicode scalar values. JavaScript counts UTF-16 code units, so `.{8,}` differs for characters outside the Basic Multilingual Plane.
- `diffMins` is computed in floating point; the model uses exact arithmetic.
- Auth.NewestMatch: `created_at` is an integer instant, not ISO text. Rows with equal times resolve to the earliest row, an order SQLite leaves unspecified.
- Auth.Expired: `created_at` is integer milliseconds. A NULL value (`new Date(null)` is the epoch) would always be expired. A `CURRENT_TIMESTAMP` text would be read by V8 as local time, which shifts the expiry by the server's UTC offset. No modelled handler writes either kind of row.
- The `otp` table's own `id` column is not modelled; no handler reads it.
- The stylists and notifications tables are kept only as the ids that foreign keys look at (`stylistIds`, `notificationUserIds`). Their own handlers are not modelled.
- Rows of the tables with no rules are not modelled: stylists, availability, services, notifications. Their handlers are plain CRUD. So are update-profile, the admin list and the admin delete.
- The other tables' column types, defaults and CHECKs are not modelled; only column names are.
- The PDF reports and the commented-out handlers are not modelled.
- Concurrency is not modelled, including the gap between the capacity count and the INSERT. Requests run one at a time.
- Store failures (disk, locking) are not modelled. The only failures modelled are constraint failures.
- Auth.UpdateSecuritySetting: the answer is always `{ success: true }` and is not returned, because no modelled input reaches its catch block.

## Findings

| source | as written | input that shows it | evidently intended | confidence | as-written member | corrected member |
|---|---|---|---|---|---|---|
| server.js:27 | The catch block logs `error`, a name that is never declared. Any non-UNIQUE failure of the INSERT therefore throws again inside the catch block, and the request ends in an unhandled error. | a register request without `name`, which breaks NOT NULL | answer "Registration failed. Server error." | not executed | Accounts.RegisterCrashesOnMissingField | Accounts.RegisterVerdict |
| server.js:200 | delete-user deletes only rows with role 'registered'. The CHECK at database.js:29 admits no such role, so it never deletes a row and always answers `success: false`. | any id, e.g. the id of an existing customer | delete the customer, whose role is 'user' as in the customer list at server.js:189; the foreign keys still refuse a customer with appointments, feedback or notifications | not executed | Accounts.DeleteUserAsWrittenNeverDeletes | Accounts.DeleteUser |
