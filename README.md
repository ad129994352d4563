# School registration backend: a Dafny model

This project models the server side of a school-registration system, an Express application over one SQLite file. Parents register a child through a public form. Staff and administrators log in. They list and export the registrations, manage the staff accounts, and read the audit trail and the failed-login alerts.

The database tables are in-memory state. bcrypt, the date validator and the file system are parameters. The JWT signer is the function `Http.Sign`, which keeps the claims and the lifetime of the token. Time is an integer clock `now`, in seconds. A stored date-time text is kept as its format and its clock time, with its rank in SQLite's text order.

The modules follow the source files:

| module | source | form |
|---|---|---|
| `Common` | string helpers shared by the routes | functions and lemmas |
| `Collections` | SQL `WHERE`, `ORDER BY … DESC`, `LIMIT/OFFSET` and `GROUP BY` read as sequence operations | functions and lemmas |
| `Http` | the request, the token, the route answers and express-validator's error list | datatypes and functions |
| `Database` | `server/database.js`: the four tables, their AUTOINCREMENT counters, the column defaults, the `admin` seed | class `Db` with one method per statement |
| `Audit` | `server/middleware/audit.js`: the wrapped `res.send` and `getAuditLogs` | a method that appends; the query is a function plus an imperative statement builder |
| `Auth` | `server/routes/auth.js`: `trackFailedLogin`, `/login`, `/me` | methods over `Db`; pure decision functions |
| `Users` | `server/routes/users.js`: `validatePassword` and the four admin routes | methods over `Db`; pure answer functions |
| `Students` | `server/routes/students.js`: the upload filter, `validateStudent`, the registration insert, the listing and the lookup | a method for the insert; functions for the rest |
| `Admin` | `server/routes/admin.js`: statistics, the Excel and PDF exports as data, the security alerts, recent activity, the audit-log route | methods over `Db`; functions for the reports |
| `Security` | `sqlSanitize` in `server/middleware/security.js` | a string function with its specification; a class `Request` whose methods rewrite `query` and `body` in place |

A route that writes a table, its own audit row included, is a method over `Db`. It states:

- the answer, as a function of the tables before the call;
- the new tables;
- that the audit row is appended.

The routes without an audit wrapper that only read (`/me`, the student listing and lookup, both exports) are functions of the tables.

The pure answer functions are specified by independent predicates and lemmas:

- the regular expressions are stated as character classes;
- the SQL statements are stated as filter, sort and page;
- `sqlSanitize`'s regular expression is related to `Kept`, a definition of "every character outside a whole-word keyword".

Database failures (`err` in a callback) are boolean parameters, so every error branch of the source is modelled.

## Model

| member | source | states |
|---|---|---|
| Common.Trim | server/routes/users.js:35 | `trim()` returns a piece of its input with no white space at either end, and it is empty exactly when the input is all white space |
| Common.TrimRemovesOnlyEnds | server/routes/users.js:35 | the trimmed text sits in the input with only white space before and after it, so nothing inside it is removed |
| Common.FoldCase | server/middleware/security.js:68 | the `i` flag compares ASCII letters by one case: upper-case letters become lower case, all other characters stay |
| Common.OrNull | server/routes/students.js:100-105 | `x \|\| null` on a body string is null exactly when the string is empty, else the string itself |
| Common.NatToStringRoundTrip | server/routes/students.js:106 | the decimal text of a year reads back as that year |
| Collections.Filter | server/middleware/audit.js:62-73 | a `WHERE` keeps every matching row as often as it occurs and no other row |
| Collections.SortDesc | server/middleware/audit.js:75 | `ORDER BY … DESC` returns a permutation of its rows, ordered by the key from largest to smallest |
| Collections.PageLength | server/middleware/audit.js:75-76 | `LIMIT ? OFFSET ?` returns either every row after the offset or exactly `limit` rows, never more than either |
| Collections.Page | server/middleware/audit.js:75-76 | `LIMIT ? OFFSET ?` returns exactly PageLength rows: `limit` of them when more remain after the first `offset` (all for a negative limit), taken in order from the offset |
| Collections.PageIsRun | server/middleware/audit.js:75-76 | a page is the run of `PageLength` rows that starts after the first `offset` rows |
| Collections.SortedPageIsRun | server/middleware/audit.js:75-76 | a page of sorted rows holds `PageLength` of them, counted on the unsorted rows, and is the run of the sorted rows that starts at the offset |
| Collections.TopRowsOfSorted | server/routes/admin.js:238-242 | the first `limit` rows in descending key order are exactly `limit` rows of the input (all when there are fewer), still in order, and no row left out has a larger key than a row kept |
| Collections.PageSorted | server/middleware/audit.js:75-76 | a page of sorted rows is still sorted |
| Collections.Distinct | server/routes/admin.js:20-21 | `GROUP BY` has one group per distinct value, each once |
| Collections.TallyTotal | server/routes/admin.js:20-21 | the group counts of `GROUP BY … COUNT(*)` add up to the number of rows |
| Http.Sign | server/routes/auth.js:53-57 | the token carries exactly the given claims and expires 24 hours after it is issued |
| Http.Reported | server/routes/students.js:75-78 | `validationResult` is empty exactly when every validator passed, and holds exactly the errors of the failing ones |
| Database.ParseRole | server/database.js:30 | a role is `admin` or `staff`; the text is accepted exactly in those two cases and maps back to itself |
| Database.RoleNameRoundTrip | server/database.js:30 | the stored name of a role parses back to that role |
| Database.StudentRow | server/database.js:35-67 | an inserted student row defaults `has_medical_condition`, `has_disability`, `consent_given` and `is_deleted` to 0, and carries the insert time |
| Database.TextRankFollowsTime | server/database.js:81 | two stored timestamps in the same format, or of different days, compare as their clock times do |
| Database.DefaultTextSinks | server/database.js:81 | on one day a CURRENT_TIMESTAMP text sorts below every ISO text, whatever their clock times |
| Database.AuditRowOf | server/database.js:70-82 | an audit row keeps every inserted column as given; a timestamp given as ISO text stays ISO text, and a missing one becomes CURRENT_TIMESTAMP's text for the insert time |
| Database.FindUserByName | server/routes/auth.js:35 | the lookup by username finds a row with that name, or reports none exactly when no row has it |
| Database.IndexOfUser | server/routes/users.js:112 | the lookup by id finds the position of a row with that id, or none exactly when no row has it |
| Database.FindStudent | server/routes/students.js:162 | the lookup by id finds a student with that id, or none exactly when there is none |
| Database.SeedAdmin | server/database.js:92-101 | `INSERT OR IGNORE` of `admin` leaves the table alone when an `admin` exists, and otherwise appends one admin row with the next id |
| Database.SeedAdminIdempotent | server/database.js:94-95 | running the seed a second time changes nothing, whatever hash it computed |
| Database.SeedAdminResult | server/database.js:94-95 | after the seed exactly one row is named `admin`, usernames stay unique, and a freshly seeded admin has role admin |
| Database.UniqueRemove | server/database.js:28 | deleting a row keeps usernames unique |
| Database.AscendingAppend | server/database.js:27 | a row given the next AUTOINCREMENT id keeps ids increasing and below the counter |
| Database.Db.constructor | server/database.js:24-90 | a new database has four empty tables and all counters at 0 |
| Database.Db.Initialize | server/database.js:92-101 | initialisation applies the admin seed to the users table and changes nothing else |
| Database.Db.InsertUser | server/database.js:26-32 | a duplicate username fails and changes nothing; otherwise one row with the next id and role `staff` by default is appended |
| Database.Db.UpdateUserPassword | server/routes/users.js:112-121 | only the password of the row with that id changes; `changes` is 1, or 0 with nothing changed when no row has the id |
| Database.Db.DeleteUser | server/routes/users.js:177-190 | exactly the row with that id is removed; `changes` is 1, or 0 with nothing changed |
| Database.Db.InsertStudent | server/database.js:35-67 | appends the student row with the next id; the other tables stay |
| Database.Db.InsertAudit | server/database.js:70-82 | appends the audit row with the next id; the other tables stay |
| Database.Db.InsertFailedLogin | server/database.js:85-90 | appends the failed-login row with the next id and the current time; the other tables stay |
| Audit.EscapeChar | server/middleware/audit.js:26 | `JSON.stringify` escapes the quote, the backslash and every control character, and leaves every other character alone |
| Audit.EscapeBody | server/middleware/audit.js:26 | an escaped string holds no control character, and reading it back as JSON.parse does gives the original string |
| Audit.UnescapeChar | server/middleware/audit.js:26 | each escaped character reads back as itself, independently of what follows |
| Audit.StringifyDetails | server/middleware/audit.js:26 | the serialised details are one JSON object, `{}` exactly when there are none |
| Audit.EntryFor | server/middleware/audit.js:10-28 | the row records the action, the user id (or null) and name (or `anonymous`), the IP address, the user agent (or `unknown`), the method, the path, the status code at send time and the details |
| Audit.Appended | server/middleware/audit.js:31-49 | the wrapped `send` appends exactly one row, or none when the insert fails, and keeps the rows before it |
| Audit.WrappedSend | server/middleware/audit.js:8-56 | the wrapped `send` forwards the same data, appends the row unless the insert fails, and touches no other table |
| Audit.QueryOf | server/middleware/audit.js:60 | `limit` defaults to 100 and `offset` to 0 |
| Audit.AuditLogsPage | server/middleware/audit.js:62-76 | the page built from the matching rows (`AuditLogs` is `AuditPage` of `Matching`) holds exactly PageLength of them: the run of them, sorted by stored timestamp text, that starts after the first `offset` |
| Audit.AuditLogsProperties | server/middleware/audit.js:62-76 | the audit log view returns rows of the table that match the action and user filters, at most `limit` of them, in descending order of their stored timestamp text |
| Audit.AuditLogsComplete | server/middleware/audit.js:62-76 | with no limit and no offset every matching row is returned, as often as it occurs |
| Audit.AuditClausePlaceholders | server/middleware/audit.js:62-76 | each filter clause and the limit and offset clauses hold one `?`, and the base statement none |
| Audit.BuildAuditQuery | server/middleware/audit.js:62-76 | the built statement has exactly one `?` per parameter; the parameters are the filters given, then limit and offset |
| Audit.GetAuditLogs | server/middleware/audit.js:59-84 | a failing query answers 500 `Failed to fetch audit logs`; otherwise the filtered page in descending order of stored timestamp text |
| Auth.RecentFailures | server/routes/auth.js:15-19 | counts the failed logins with this username or this IP address in the last 15 minutes |
| Auth.ExpiredAttemptsIgnored | server/routes/auth.js:15-19 | attempts older than the 15-minute window never count |
| Auth.TrackFailedLogin | server/routes/auth.js:11-23 | a failed login appends exactly one row, alerts exactly when the count including it reaches 5, and blocks nothing |
| Auth.Decide | server/routes/auth.js:30-50 | the login outcome is: missing field; lookup error; unknown user; wrong password; or success, exactly when the user exists and the password verifies |
| Auth.ClaimsOf | server/routes/auth.js:53-57 | the token claims are exactly the user's id, username and role |
| Auth.ReplyOf | server/routes/auth.js:30-70 | the answers are 400 `Username and password required`, 500 `Database error`, 401 `Invalid credentials`, or a token with the claims and the same user object |
| Auth.NoUserEnumeration | server/routes/auth.js:41-50 | an unknown user and a wrong password get the identical 401 answer |
| Auth.LoginGrants | server/routes/auth.js:53-70 | a known user with a verifying password is granted a token whose payload equals the returned user and which expires in 24 hours |
| Auth.RecordedName | server/routes/auth.js:30-33 | a failed-login row records the given username, or `unknown` when none was sent |
| Auth.SuccessEntry | server/routes/auth.js:60-61 | the `LOGIN_SUCCESS` row carries the user, `POST`, `/api/auth/login`, status 200 and the IP address |
| Auth.Login | server/routes/auth.js:26-73 | a denied login appends one failed-login row and raises the alert as `trackFailedLogin` does. A granted login appends none; it appends `LOGIN_SUCCESS` and then the wrapper's `LOGIN_ATTEMPT` row with the answer's status. Users and students stay |
| Auth.Me | server/routes/auth.js:76-84 | `/me` returns exactly the token's id, username and role |
| Auth.LoginThenMe | server/routes/auth.js:53-84 | `/me` with a freshly granted token returns the user the login returned |
| Users.Scan | server/routes/users.js:15-19 | one pass over the password finds a lower-case letter, an upper-case letter, a digit, and whether every character is allowed |
| Users.ValidatePassword | server/routes/users.js:15-19 | a password is valid exactly when it has at least 8 characters, a lower-case letter, an upper-case letter and a digit, and only letters, digits and `@$!%*?&` |
| Users.Views | server/routes/users.js:23 | the listing projects each user to id, username, role and creation time, never the password |
| Users.UserListingProperties | server/routes/users.js:22-29 | the listing is the projection of every user, each once, newest first |
| Users.ListUsers | server/routes/users.js:22-29 | the admin's listing answers the ordered projection or 500, changes no table, and is audited |
| Users.CreateErrors | server/routes/users.js:35-48 | there is no error exactly when the trimmed username has at least 3 characters, the password is valid and the role is `admin` or `staff`; each failing rule contributes its message |
| Users.CreateAnswer | server/routes/users.js:44-83 | the answers are 400 with the errors, 500 on a failing lookup, 400 `Username already exists`, 500 on a failing insert, or 201 with the new id, trimmed name and role |
| Users.CreateUser | server/routes/users.js:32-83 | only a created user changes the table: one row with the next id, the trimmed name, the hashed password and the role |
| Users.CreateAddsOneName | server/routes/users.js:66-80 | adding a new name keeps usernames unique, and the name then finds the new row |
| Users.ResetAnswer | server/routes/users.js:86-124 | the answers are 400 for an invalid password, 400 for the caller's own id, 500, 404 for an unknown id, or success |
| Users.ResetPassword | server/routes/users.js:86-124 | on success only the target's password changes to the new hash; otherwise nothing changes |
| Users.ResetTouchesOnlyTarget | server/routes/users.js:112-121 | a reset keeps every other row and the target's id, name, role and creation time |
| Users.ChangeErrors | server/routes/users.js:130-136 | there is no error exactly when the current password is given and the new one is valid |
| Users.ChangeAnswer | server/routes/users.js:127-170 | a wrong current password answers 401 `Current password is incorrect`; success exactly when the caller exists and the password verifies |
| Users.ChangeOwnPassword | server/routes/users.js:127-170 | on success only the caller's password changes; otherwise nothing changes |
| Users.DeleteAnswer | server/routes/users.js:173-192 | the caller's own id answers 400 `Cannot delete your own account`; otherwise 500, 404 for an unknown id, or success |
| Users.DeleteUser | server/routes/users.js:173-192 | on success exactly the target row is removed; otherwise nothing changes |
| Users.DeleteRemovesOnlyTarget | server/routes/users.js:177-190 | after the delete no row has the id, and every other row remains |
| Students.FileFilter | server/routes/students.js:27-43 | a photo is accepted exactly when JPEG, PNG or `image/jpg`; a birth certificate exactly when PDF, JPEG or PNG; any other field always; with the route's rejection messages |
| Students.PhoneParts | server/routes/students.js:62 | an accepted phone number is `+234` or `0` followed by ten digits, so 14 or 11 characters long |
| Students.PhoneFromParts | server/routes/students.js:62 | `+234` or `0` followed by any ten digits is accepted |
| Students.PhoneRejects | server/routes/students.js:62 | a number of any other length is rejected |
| Students.TrimSanitized | server/routes/students.js:55-67 | the `trim()` sanitizers trim exactly the seven guarded fields and leave the others as sent |
| Students.StudentErrors | server/routes/students.js:54-68 | there is no error exactly when every rule of the form holds, at most one error per validator |
| Students.AcceptedFormShape | server/routes/students.js:54-68 | an accepted form has consent `true`, a listed sex and religion, a valid date, a Nigerian phone number and no blank required text |
| Students.Flag | server/routes/students.js:103-105 | a flag is stored as 1 exactly when the text is `true`, else 0 |
| Students.DefaultSession | server/routes/students.js:106 | the default session holds a `/` |
| Students.DefaultSessionParts | server/routes/students.js:106 | the default session reads as the year, `/`, and the next year |
| Students.ForwardSlashes | server/routes/students.js:88-89 | every backslash of an upload path becomes `/`, nothing else changes |
| Students.ForwardSlashesIdempotent | server/routes/students.js:88-89 | a converted path has no backslash, and converting again changes nothing |
| Students.StudentColumns | server/routes/students.js:99-106 | the required fields are copied from the sanitized form; each of the eight optional fields is stored as null when empty; the flags become 0/1, the session defaults, a missing file becomes null, and nothing is given for `is_deleted` |
| Students.RegisteredRowShape | server/routes/students.js:99-106 | a registered row has trimmed names, consent 1, `is_deleted` 0, 0/1 flags, a non-empty session and the insert time |
| Students.Register | server/routes/students.js:71-118 | a failing validation answers 400 with its errors and inserts nothing. A failing insert answers 500 and inserts nothing. Otherwise exactly one row with the next id is inserted, from a form that follows every rule |
| Students.AfterLastSlash | server/routes/students.js:150-154 | the last path segment holds no `/` and ends the path |
| Students.Basename | server/routes/students.js:150-154 | `path.basename` holds no `/` |
| Students.BasenameOfJoin | server/routes/students.js:150-154 | the base name of `dir/name` is `name` |
| Students.UploadUrl | server/routes/students.js:150-154 | a link exists exactly when a path is stored, and it is `/uploads/` followed by one segment |
| Students.UploadUrlOfStoredFile | server/routes/students.js:150-154 | the link of a file stored as `dir/name` is `/uploads/name` |
| Students.ViewOf | server/routes/students.js:150-154 | a listed student carries its row and the links of its two files |
| Students.StudentListingProperties | server/routes/students.js:121-158 | the listing shows the view of every matching student and of no other, newest submission first |
| Students.EmptyQueryListsAll | server/routes/students.js:123-142 | with no filter every student is listed |
| Students.SearchClausePlaceholders | server/routes/students.js:136-139 | the search clause holds three `?`, for the first name, the last name and the parent name |
| Students.StudentClausePlaceholders | server/routes/students.js:123-142 | the class and gender clauses hold one `?` each; the base statement and the order none |
| Students.BuildStudentQuery | server/routes/students.js:123-142 | the built statement has exactly one `?` per parameter; the parameters are the class, the gender and three copies of `%term%` |
| Students.ListStudents | server/routes/students.js:121-158 | a failing query answers 500; otherwise the listing |
| Students.GetStudent | server/routes/students.js:161-176 | the lookup answers 500, 404 `Student not found`, or the view of the student with that id |
| Students.LookupAgreesWithListing | server/routes/students.js:161-176 | a student found by id appears, with the same links, in every listing it matches |
| Admin.GroupsProperties | server/routes/admin.js:20-21 | the grouping lists each value once with its number of occurrences, every value is listed, and the counts add up to the number of rows |
| Admin.StatsProperties | server/routes/admin.js:17-47 | `total` is the number of students; `byClass` and `byGender` have one entry per value with its count, and each list sums to `total` |
| Admin.GetStats | server/routes/admin.js:17-47 | the statistics route answers the statistics of the table or 500, changes no table, and is audited |
| Admin.BuildExportQuery | server/routes/admin.js:52-65 | the export statement has exactly one `?` per parameter, for the class and sex filters given |
| Admin.YesNo | server/routes/admin.js:113-114 | a flag is written `Yes` exactly when it is set, else `No` |
| Admin.OrEmpty | server/routes/admin.js:101 | a missing value is written as the empty string |
| Admin.ExportRow | server/routes/admin.js:97-116 | an exported row has one cell per declared header, the id first and the submission time last |
| Admin.ExportRowColumns | server/routes/admin.js:97-116 | every text cell holds the column its header names, with `''` for a missing middle name or email and Yes/No for the two flags |
| Admin.ExportSheet | server/routes/admin.js:97 | the sheet has one row per selected student, in the selection's order |
| Admin.ExportSheetProperties | server/routes/admin.js:52-116 | the sheet exports every student matching the filters and no other, newest submission first |
| Admin.ExportExcel | server/routes/admin.js:50-136 | the export answers 500 `Database error`, 500 `Failed to generate Excel file`, or the sheet |
| Admin.NameLineTrimsOnlyTheEnd | server/routes/admin.js:168 | the trimmed name line keeps its label and any inner double space, and loses only white space at its end |
| Admin.NameLineUntrimmed | server/routes/admin.js:168 | when the last name ends in a visible character the name line is not trimmed at all |
| Admin.ReligionValue | server/routes/admin.js:171 | religion is followed by ` - ` and the other religion exactly when that is set |
| Admin.Optional | server/routes/admin.js:180-181 | an optional line is written exactly when its value is set |
| Admin.InfoLines | server/routes/admin.js:165-172 | the student section holds the name line and the religion line |
| Admin.ParentLines | server/routes/admin.js:175-184 | the alternative phone and email lines appear exactly when set |
| Admin.HealthLines | server/routes/admin.js:187-203 | the medical flag is written Yes/No, and the disability type and emergency lines appear exactly when set |
| Admin.ProfileOf | server/routes/admin.js:149-208 | the document is named `student-<id>.pdf`, embeds the photo exactly when its file exists, and holds the profile lines |
| Admin.ProfileNameCarriesId | server/routes/admin.js:151 | the document name reads back as the student's id |
| Admin.ExportPdf | server/routes/admin.js:139-212 | the PDF route answers 500, 404 `Student not found` with no document, or the document of the student with that id |
| Admin.PdfAgreesWithLookup | server/routes/admin.js:140-147 | the PDF route finds a student exactly when the student lookup does, and renders that student |
| Admin.Latest | server/routes/admin.js:223-228 | `MAX(attempt_time)` of a group is one of its attempt times and no attempt of the group is later |
| Admin.GroupAlert | server/routes/admin.js:223-228 | a group's alert carries its username and address, its number of attempts and its latest attempt |
| Admin.GroupAlerts | server/routes/admin.js:223-228 | there is one alert per distinct (username, address) pair |
| Admin.SecurityAlertsSound | server/routes/admin.js:220-234 | each reported alert has at least 3 attempts in the window and describes its group; alerts are ordered by attempts, most first |
| Admin.SecurityAlertsOnce | server/routes/admin.js:220-234 | no (username, address) pair is reported twice |
| Admin.SecurityAlertsComplete | server/routes/admin.js:220-234 | every pair with at least 3 attempts in the window is reported |
| Admin.GetSecurityAlerts | server/routes/admin.js:220-234 | the alerts route uses the last 24 hours by default, answers the alerts or 500, changes no table, and is audited |
| Admin.RecentActivityProperties | server/routes/admin.js:238-242 | recent activity is exactly `limit` rows of the audit log, or all of them when there are fewer, in descending order of stored timestamp text, and no row left out sorts above one shown |
| Admin.NewerLoginLeftOut | server/routes/admin.js:238-242 | a LOGIN_SUCCESS row sorts below a wrapper row written earlier the same day, so recent activity with limit 1 shows the older row |
| Admin.GetRecentActivity | server/routes/admin.js:237-248 | the route uses a limit of 50 by default, answers the rows in descending order of stored timestamp text or 500, and is audited |
| Admin.ViewAuditLogs | server/routes/admin.js:215-217 | the audit-log route answers what `getAuditLogs` answers and is audited |
| Security.KeywordsAreLetterWords | server/middleware/security.js:68 | each keyword of the pattern is a non-empty word of letters |
| Security.MatchFrom | server/middleware/security.js:68 | the alternatives are tried in order from a given one: the search finds one that matches as a whole word at the position, or reports that none of them does |
| Security.NoOverlap | server/middleware/security.js:68 | two whole-word keyword occurrences never overlap unless they are the same occurrence |
| Security.StripKeepsUncovered | server/middleware/security.js:68 | the left-to-right global replacement keeps exactly the characters outside every whole-word occurrence |
| Security.SanitizeRemovesExactlyKeywords | server/middleware/security.js:68 | sanitising a string removes every case-insensitive whole-word occurrence of the ten keywords, and nothing else |
| Security.SanitizeUnchanged | server/middleware/security.js:68 | a string without a whole-word keyword is returned unchanged |
| Security.SanitizeSubsequence | server/middleware/security.js:68 | the result keeps the remaining characters in their original order |
| Security.WholeWordsOnly | server/middleware/security.js:68 | a keyword inside a longer word, such as `SELECTED`, is kept |
| Security.SanitizeValue | server/middleware/security.js:65-76 | strings are sanitised, objects keep their keys with each value sanitised in turn, and every other value, null included, is returned unchanged |
| Security.InPlace | server/middleware/security.js:70-75 | only an object is changed in place; the result of any other value is discarded |
| Security.Request.constructor | server/middleware/security.js:63 | a request starts with its query and body and no call of `next` |
| Security.Request.SanitizePart | server/middleware/security.js:70-79 | one part's properties are rewritten one key at a time to their sanitised values; the other part stays |
| Security.Request.SqlSanitize | server/middleware/security.js:63-81 | both `req.query` and `req.body` are sanitised in place, and `next` is called exactly once |

## Left out

- Rate limiters, `helmet` and `xssProtection` (server/middleware/security.js:6-60): their behaviour lives inside foreign libraries.
- Server wiring in server/index.js, including the order in which middleware is mounted. server/index.js is not part of this model.
- bcrypt's hashing and comparison are the parameters `hash` and `verify`. The JWT signer is the function `Sign`: it keeps the claims and the 24-hour lifetime, but not the signature bytes.
- `authenticateToken` and `requireAdmin` live in a file that is not part of this model. Their verdict is `AdminCaller`, which every admin route modelled as a method requires. The two export functions take no request, so they leave the caller out.
- multer's disk storage, the 2 MB limit, the directory creation and the random file names. Register receives the paths multer reports.
- What happens after `fileFilter` rejects a file is not modelled. `FileFilter` returns the verdict and its message.
- `isISO8601` is not modelled. Its verdict on the date of birth is the boolean `dobValid`.
- ExcelJS and PDFKit rendering (widths, fonts, fills, image placement, streaming). The model keeps the row mapping and the text lines.
- The PDF footer's `Submitted:` line is left out. It prints the database's date text, which is an integer clock here.
- A stored timestamp is its format and clock time, not its characters. `TextRank` is its place in the text order for years 0 to 9999, without the milliseconds of the ISO text.
- The order in which `GROUP BY` returns groups, and the order among equal sort keys, are not modelled. The statistics list groups in first-seen order.
- SQL `LIKE` is modelled as substring search that ignores ASCII case, as SQLite's LIKE does. `%` and `_` inside the search term are not wildcards here.
- `parseInt` quirks are not modelled: query strings arrive as integers or as absent. The same holds for a non-numeric or negative `hours`.
- Asynchronous ordering is sequential in the model. This covers the fire-and-forget inserts of `trackFailedLogin` and `LOGIN_SUCCESS`, which the model runs before the answer.
- Admin.GetStats: one failure flag stands for the three statistics queries, which the source runs in sequence.
- express-validator's `errors.array()` entries keep only `field` and `msg`, not the value or the location.
- Security.SanitizeValue: nested objects are values, so two properties that alias one object are sanitised separately. Numbers are integers.
- Students.StudentErrors: the contract says when the list is empty and bounds its length. It does not say which message each failing rule contributes; `StudentChain` lists them.
- The source, not its specification, is followed on four points:
  - `trackFailedLogin` alerts at every attempt once the count reaches 5, not only at the first crossing;
  - no query filters on `is_deleted`;
  - the PDF name line is trimmed as a whole line;
  - audit rows are ordered by their stored text, not by time. The wrapper stores ISO text, while the `LOGIN_SUCCESS` insert leaves the column to CURRENT_TIMESTAMP. So a `LOGIN_SUCCESS` row sorts below every wrapper row of its day (`Admin.NewerLoginLeftOut`).
