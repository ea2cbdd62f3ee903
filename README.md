# Christmas party app: a verified model of its server logic

This project is a Dafny model of the server side of a small Next.js/Prisma party application. Guests do the following:
- register with a single-use e-mail code and sign in with phone and password;
- hold one ticket that door staff verify;
- create performances, vote on them, join events, and add tasks and feedback.

Admins toggle settings, grant the bodyguard role, read statistics and logs, and reconcile the "Performance" event. The model also covers:
- two maintenance scripts: the seed script and the performance-event sync;
- three client helpers: the countdown's time split and the show counters of the two reminder pop-ups.

The database is one object, `Database.Store`. Its tables are maps and sequences that the route handlers rewrite.
- Each handler that writes is a method that takes the store, the optional signed-in principal and the current time.
- Each handler that only reads is a function over the tables.
- Every handler answers a `Response`: a status code and a payload.
- The store's constraints are stated by `Store.Valid()` and preserved by every writing handler. They are:
  - fresh identifiers;
  - unique e-mail, phone and ticket id;
  - the foreign keys of tickets, performances and registrations.

Where the code and the intended design differ, the model follows the code:
- creating a performance sets the creator's ticket to PAYMENT_PENDING even when it was ACTIVATED;
- `maxParticipants` is only defaulted to 3 when falsy and never range-checked;
- the admin sync answers the size of the whole performer set, not the number of rows it changed;
- ticket verification writes no audit log.

## Model

| member | source | states |
|---|---|---|
| Types.NullIfEmpty | src/app/api/logs/route.ts:32-33 | `x \|\| null` keeps a non-empty string and turns a missing or empty one into null |
| Text.Trim | src/app/api/tasks/route.ts:52 | the trimmed text is the middle of the input with only white space cut away on both sides; it is empty exactly when the input is all white space, and otherwise starts and ends with a non-space character |
| Text.Prefix | src/app/api/tasks/route.ts:83 | `substring(0, n)` is the prefix of exactly `n` characters, or the whole string when it has at most `n` |
| Sorting.SortDesc | src/app/api/performances/route.ts:22 | `orderBy createdAt desc` returns a permutation of its input in non-increasing key order |
| Sorting.Filter | src/app/api/events/route.ts:11 | a `where` filter keeps exactly the elements that satisfy it, each taken from the input |
| Sorting.FilterCount | src/app/api/events/route.ts:11 | a `where` filter keeps every copy of a satisfying element and no copy of any other |
| Sorting.FilterAppend | src/app/api/events/route.ts:11 | a `where` filter keeps the stored order: an element added last is kept, last, exactly when it satisfies the filter |
| Sorting.TakeOfSorted | src/app/api/logs/route.ts:72-73 | `take` after a descending order keeps the greatest elements: nothing dropped is greater than anything kept |
| Database.UserWithEmail | src/app/api/auth/register/route.ts:27-29 | the unique lookup by e-mail finds a user exactly when one has that e-mail, and the one it finds has it |
| Database.UserWithPhone | src/lib/auth.ts:20-22 | the unique lookup by phone finds a user exactly when one has that phone |
| Database.FirstEventNamed | src/app/api/admin/sync-performance-event/route.ts:16-18 | `findFirst` by name finds the first stored event with that name, and finds none exactly when no event has it |
| Database.AddUserWithTicket | src/app/api/auth/register/route.ts:54-70 | a user with unused e-mail and phone plus that user's ticket, at fresh identifiers, keep every constraint of the store |
| Database.AddUser | prisma/seed.ts:21-30 | a user with unused e-mail and phone at a fresh identifier keeps every constraint |
| Database.SameContactsKeepConsistent | src/app/api/admin/settings/route.ts:42-46 | rewriting user rows without touching their e-mails or phones keeps every constraint |
| Database.UpdateUserKeepsConsistent | src/app/api/admin/bodyguard/route.ts:27-31 | the single-row update of a user's other columns keeps every constraint |
| ServerLogger.Logged | src/lib/serverLogger.ts:55-62 | a log insert appends exactly one entry with the given user, action, details (null when empty) and metadata, and nothing when the user row is missing |
| ServerLogger.LogAction | src/lib/serverLogger.ts:48-67 | `logAction` always returns; the log table is the old one plus the entry, or unchanged when the insert fails; the action is one of the enumerated names |
| TicketRoute.Get | src/app/api/ticket/route.ts:11-55 | 401 with nothing created; an existing ticket is returned unchanged; otherwise exactly one NOT_ACTIVATED ticket is created for the caller and no other ticket changes; 500 when the caller's row is gone |
| TicketRoute.GetTwice | src/app/api/ticket/route.ts:18-49 | a second call answers the same as the first, no ticket key other than the caller's appears, and every existing ticket is unchanged |
| VerifyRoute.FindTicket | src/app/api/ticket/verify/route.ts:27-38 | the lookup by ticket id finds the owner whose ticket carries that id, and none exactly when no ticket does |
| VerifyRoute.Post | src/app/api/ticket/verify/route.ts:11-63 | 403 without the bodyguard or admin role, 400 without an id, 404 with status "INVALID" for an unknown id; otherwise 200 with the stored status, the owner's id, name and phone, and `valid` exactly when ACTIVATED |
| Email.FirstUsable | src/lib/email.ts:86-93 | the first stored record with that e-mail and code, unused and expiring strictly after now; none exactly when no record qualifies |
| Email.StoreVerificationCode | src/lib/email.ts:8-19 | exactly one unused record is appended, expiring 15 minutes after now |
| Email.VerifyEmailCode | src/lib/email.ts:82-105 | succeeds exactly when some record is usable, and then marks the first stored usable record used |
| Email.ConsumeChangesOnlyMatch | src/lib/email.ts:95-104 | a success changes only the matched record's `used` flag; a failure changes nothing |
| Email.RecordUsedOnce | src/lib/email.ts:97-100 | a record that let a verification succeed cannot let any later verification succeed |
| Email.ExpiryIsStrict | src/lib/email.ts:91 | a record whose expiry equals now is rejected and stays unused |
| SendCodeRoute.Post | src/app/api/auth/send-code/route.ts:5-44 | 400 with nothing stored for a missing e-mail or one that belongs to a user; otherwise exactly one record with code "520260" expiring in one hour is appended and earlier records are kept |
| RegisterRoute.Post | src/app/api/auth/register/route.ts:10-75 | 400 for a missing field with no code consumed; the code is consumed before the uniqueness checks; invalid code, taken e-mail and taken phone are rejected in that order; 201 exactly when all pass, with one verified user and one NOT_ACTIVATED ticket created |
| RegisterRoute.CreateUserWithTicket | src/app/api/auth/register/route.ts:54-70 | the user takes the next identifier and the ticket for that user the one after; the store's constraints are kept |
| Auth.Authorize | src/lib/auth.ts:15-51 | missing credentials, unknown phone, unverified e-mail and wrong password are rejected in that order with their messages; success carries the stored id, name, e-mail, phone and both roles |
| Auth.SignIn | src/lib/auth.ts:41-42 | a successful sign-in appends the "LOGIN" entry; a rejected one writes nothing |
| Auth.RegisteredUserSignsIn | src/app/api/auth/register/route.ts:54-62 | a user just registered signs in with the phone and password they registered with |
| Auth.Token.Jwt | src/lib/auth.ts:60-69 | the jwt callback copies id, e-mail, phone and roles when a user is passed, and otherwise leaves the token unchanged |
| Auth.Session.FromToken | src/lib/auth.ts:70-79 | the session callback copies id, e-mail, phone and roles from the token when the session has a user, and leaves the name alone |
| Auth.SignInSession | src/lib/auth.ts:15-79 | after sign-in and both callbacks the session carries the stored id and roles of the user that signed in |
| PerformanceSync.NewPerformanceEvent | src/app/api/admin/sync-performance-event/route.ts:20-30 | the created "Performance" event is free, locked, not auto-joined and active |
| PerformanceSync.PerformanceEventId | src/app/api/admin/sync-performance-event/route.ts:16-18 | the id of an event named "Performance", and none exactly when no event has that name |
| PerformanceSync.Performers | src/app/api/admin/sync-performance-event/route.ts:34-50 | the target set is exactly the registrants of performances together with their creators |
| PerformanceSync.JoinAll | src/app/api/admin/sync-performance-event/route.ts:52-73 | after the upserts every target user is joined, and every other registration is kept as it was |
| PerformanceSync.JoinAllExactly | src/app/api/admin/sync-performance-event/route.ts:52-73 | the pointwise description of the sync pins the resulting table down uniquely |
| PerformanceSync.JoinStep | src/app/api/admin/sync-performance-event/route.ts:56-71 | one upsert extends the synced set by one user, and skipping an already joined user does too |
| PerformanceSync.NotJoined | prisma/sync-performance-event.ts:58-70 | the performers without a joining registration |
| PerformanceSync.JoinedElsewhere | prisma/sync-performance-event.ts:56-90 | a performer the loop has not reached yet is joined exactly when they were joined before |
| PerformanceSync.NotJoinedOne | prisma/sync-performance-event.ts:67-70 | one more performer raises the unjoined count exactly when that performer is not joined |
| PerformanceSync.JoinAllIdempotent | src/app/api/admin/sync-performance-event/route.ts:56-71 | syncing twice leaves the registrations as syncing once |
| PerformanceSync.JoinAllMonotone | src/app/api/admin/sync-performance-event/route.ts:56-71 | the sync never opts anybody out and leaves no performer unjoined |
| PerformanceSync.SplitPerformers | prisma/sync-performance-event.ts:53-90 | the performers split into the joined and the not yet joined |
| PerformanceSync.EnsurePerformanceEvent | src/app/api/admin/sync-performance-event/route.ts:16-31 | the event named "Performance" is found, or created and then found; the events are otherwise unchanged |
| PerformanceSync.FirstOfAppended | src/app/api/admin/sync-performance-event/route.ts:20-30 | an appended first "Performance" event is the one later lookups find |
| PerformanceSync.JoinPerformers | src/app/api/admin/sync-performance-event/route.ts:52-73 | the upsert loop leaves the registrations equal to the sync of all performers and counts every performer |
| PerformanceSync.SyncPerformers | src/app/api/admin/sync-performance-event/route.ts:16-73 | the event exists afterwards and every performer is joined to it; the count is the number of performers |
| SyncRoute.Post | src/app/api/admin/sync-performance-event/route.ts:11-86 | 403 for non-admins with nothing changed; otherwise the event is found or created, performers are joined, nothing else in the registrations changes, the answer counts all performers including those already joined, and the sync is logged |
| SyncScript.Run | prisma/sync-performance-event.ts:9-93 | the event is found or created and the registrations end as after the admin route; `synced` counts the performers not joined before, and `synced + alreadyJoined` is the number of performers |
| SyncScript.SyncEach | prisma/sync-performance-event.ts:53-90 | joined performers are skipped and counted; every other performer is upserted to joining and counted as synced |
| SyncScript.RunTwice | prisma/sync-performance-event.ts:67-70 | a second run right after the first reports `synced = 0`, counts every performer as already joined, and leaves the events and registrations as one run leaves them, with the store consistent |
| PerformancesRoute.Get | src/app/api/performances/route.ts:7-33 | every performance, newest first, nothing written |
| PerformancesRoute.JoinCreator | src/app/api/performances/route.ts:81-102 | the creator's registration for the "Performance" event is upserted to joining when that event exists; otherwise nothing changes |
| PerformancesRoute.Post | src/app/api/performances/route.ts:36-110 | 401 and 400 with nothing stored; the performance has the caller as creator and `maxParticipants` or 3; the creator is registered; the ticket becomes PAYMENT_PENDING whatever it was; no other ticket or registration changes; 500 for a missing user row or ticket |
| PerformancesRoute.CreatePerformance | src/app/api/performances/route.ts:57-72 | the performance is appended at the next identifier and its creator registered for it, keeping the store's constraints |
| PerformancesRoute.SetPaymentPending | src/app/api/performances/route.ts:75-78 | only the status of the caller's ticket changes, to PAYMENT_PENDING |
| PerformancesRoute.CreatorIsPerformer | src/app/api/performances/route.ts:67-102 | a creator belongs to the sync's target set and is joined to the "Performance" event when it exists |
| VotesRoute.VotesFor | src/app/api/performances/votes/route.ts:25-39 | the votes of one performance: every copy of each of them and nothing else |
| VotesRoute.UserVote | src/app/api/performances/votes/route.ts:46 | the points of the caller's first vote in stored order, null when that vote has 0 points or the caller has none |
| VotesRoute.Participants | src/app/api/performances/votes/route.ts:49-51 | the registrants of one performance |
| VotesRoute.StatsOf | src/app/api/performances/votes/route.ts:42-65 | total and count of the performance's votes, the caller's vote, and `isParticipant` exactly when the caller created the performance or is registered for it |
| VotesRoute.AllStats | src/app/api/performances/votes/route.ts:42-65 | one row per performance, in order |
| VotesRoute.Get | src/app/api/performances/votes/route.ts:10-70 | 401 without a session; 403 for non-admins unless settings exist with voting enabled; otherwise a permutation of all rows ordered by total points, highest first |
| VotesRoute.TotalPointsAppend | src/app/api/performances/votes/route.ts:43 | the point sum of two vote lists is the sum of their sums |
| VotesRoute.VotesForAppend | src/app/api/performances/votes/route.ts:25-39 | a new vote joins only its own performance's list, at its end |
| VotesRoute.NewVoteCounts | src/app/api/performances/votes/route.ts:43-44 | a new vote adds its points and one to its own performance's row and changes no other row's totals |
| SettingsRoute.Get | src/app/api/admin/settings/route.ts:9-21 | returns the settings; when there are none it creates them with both switches off |
| SettingsRoute.GetTwice | src/app/api/admin/settings/route.ts:9-19 | repeated reads answer the same and create at most one row |
| SettingsRoute.Updated | src/app/api/admin/settings/route.ts:51-67 | a boolean field replaces the stored value; any other field keeps it |
| SettingsRoute.Created | src/app/api/admin/settings/route.ts:68-75 | creating from the update data is updating the all-false default row |
| SettingsRoute.ResetCounts | src/app/api/admin/settings/route.ts:42-45 | every user's counter becomes 0 and nothing else changes |
| SettingsRoute.Put | src/app/api/admin/settings/route.ts:34-77 | 403 for non-admins with no change; a reset zeroes every counter and leaves the settings alone; otherwise the boolean fields are applied, creating the row if needed |
| SettingsRoute.UpdateIdempotent | src/app/api/admin/settings/route.ts:51-67 | applying an update twice equals applying it once, and an update without boolean fields changes nothing |
| StatsRoute.WithStatus | src/app/api/admin/stats/route.ts:29-31 | the tickets with exactly one status |
| StatsRoute.Get | src/app/api/admin/stats/route.ts:11-43 | 403 for non-admins; otherwise table sizes and per-status counts that add up to the number of tickets |
| StatsRoute.StatusesPartition | src/app/api/admin/stats/route.ts:29-31 | the three status counts add up to the number of tickets |
| BodyguardRoute.Post | src/app/api/admin/bodyguard/route.ts:11-39 | 403 and 400 with nothing written; 500 for a missing user or a non-boolean value; otherwise only the target's `isBodyguard` flag changes, to the requested value |
| NotificationRoute.Get | src/app/api/user/notification/route.ts:11-23 | 401 without a session; otherwise the caller's counter, or 0 without a row |
| NotificationRoute.Post | src/app/api/user/notification/route.ts:38-61 | 401 without a session; only the caller's counter changes, up by exactly one, and the new value is returned; 500 with nothing written when the caller's row is gone or the counter already holds the largest 32-bit value |
| NotificationRoute.PostThenGet | src/app/api/user/notification/route.ts:45-55 | after an increment a read returns the value the increment answered |
| LanguageRoute.Get | src/app/api/user/language/route.ts:11-23 | 200 always; the stored language, or "tr" without a session, row or stored value |
| LanguageRoute.Put | src/app/api/user/language/route.ts:38-67 | 401 without a session; 400 unless "en" or "tr", with nothing written; otherwise only the caller's language changes |
| LanguageRoute.PutThenGet | src/app/api/user/language/route.ts:55-61 | after a successful change a read returns the new language |
| EventsRoute.Get | src/app/api/events/route.ts:10-24 | the active events, oldest first |
| EventsRoute.GetListsActive | src/app/api/events/route.ts:10-22 | every listed event is stored and active, and every active stored event is listed |
| EventsRoute.NewEvent | src/app/api/events/route.ts:55-64 | missing description and image become null, a missing price 0, missing flags false, and the event is active |
| EventsRoute.Post | src/app/api/events/route.ts:37-74 | 403 and 400 with nothing stored; otherwise exactly one event with those defaults is appended, logged for the admin, and returned with 201 |
| EventsRoute.CreateEvent | src/app/api/events/route.ts:55-64 | the row is appended at the next identifier |
| EventsRoute.CreatedEventListed | src/app/api/events/route.ts:10-22 | a newly created event appears in every later list |
| TasksRoute.Get | src/app/api/tasks/route.ts:12-28 | 401 without a session; otherwise every task, newest first |
| TasksRoute.TaskDetails | src/app/api/tasks/route.ts:83 | the log detail is the kind in words followed by the first 50 characters of the trimmed description, all of it when shorter |
| TasksRoute.Post | src/app/api/tasks/route.ts:43-87 | 401, then 400 for a blank description, then 400 for a kind other than "bring" or "handle", with nothing stored; otherwise one task with the trimmed description, the kind and the caller is stored and logged |
| TasksRoute.CreateTask | src/app/api/tasks/route.ts:66-71 | the task is appended at the next identifier |
| TasksRoute.AddedTaskListed | src/app/api/tasks/route.ts:19-28 | an added task appears in every later list |
| FeedbackRoute.Get | src/app/api/feedback/route.ts:12-28 | 403 for non-admins; otherwise all feedback, newest first |
| FeedbackRoute.Post | src/app/api/feedback/route.ts:43-74 | 401 and 400 for blank content with nothing stored; otherwise one entry with the trimmed content and the caller as owner is stored and logged |
| FeedbackRoute.CreateFeedback | src/app/api/feedback/route.ts:59-64 | the feedback is appended at the next identifier |
| FeedbackRoute.StoredContentTrimmed | src/app/api/feedback/route.ts:52-61 | stored content is never blank and neither starts nor ends with white space |
| LogsRoute.Post | src/app/api/logs/route.ts:11-37 | 401 and 400 with nothing appended; otherwise exactly one entry for the caller, with details and metadata null when absent; 500 when the insert fails |
| LogsRoute.Get | src/app/api/logs/route.ts:52-85 | 401 (not 403) for non-admins, 400 without a user id, otherwise that user's capped, newest-first list |
| LogsRoute.UserLogs | src/app/api/logs/route.ts:70-73 | the user's entries, at most 500 and never more than are stored, newest first |
| LogsRoute.UserLogsBounded | src/app/api/logs/route.ts:70-73 | exactly 500 entries when the user has more, all of them otherwise, newest first, each taken from the user's entries with no copy added |
| LogsRoute.UserLogsOwn | src/app/api/logs/route.ts:70-71 | every entry returned is a stored entry of the requested user |
| LogsRoute.UserLogsNewest | src/app/api/logs/route.ts:72-73 | the cap drops only the oldest entries |
| Seed.AddMissingEvents | prisma/seed.ts:77-90 | the loop only appends, at most one event per sample |
| Seed.NamedKept | prisma/seed.ts:77-90 | an event name present before the loop stays present |
| Seed.SamplesPresent | prisma/seed.ts:77-90 | after the loop every sample's name names an event |
| Seed.AddedEventsNew | prisma/seed.ts:82-85 | every appended event is one of the samples, stored with consecutive fresh identifiers, active, unlocked and not auto-joined; its name belongs to no pre-existing event and to no other appended event |
| Seed.NothingMissing | prisma/seed.ts:77-90 | when every sample name is taken the loop adds nothing |
| Seed.EnsureAdmin | prisma/seed.ts:10-32 | an existing admin is left untouched; otherwise the admin row is created, and the create fails with nothing written when the admin phone is taken |
| Seed.EnsureAdminTicket | prisma/seed.ts:35-47 | an ACTIVATED ticket is created only when the admin has none |
| Seed.EnsureEvents | prisma/seed.ts:77-90 | the loop's result is the events with every missing sample appended |
| Seed.EnsureSampleEvents | prisma/seed.ts:77-90 | existing events are kept, at most one event is added per sample, every sample name is present afterwards, and nothing is added when all were present; the result is exactly the loop's |
| Seed.EnsureAdminAndTicket | prisma/seed.ts:10-47 | the admin exists with either its old ticket or a new ACTIVATED one, and no other ticket changes; the next identifier is one past whatever was created |
| Seed.Run | prisma/seed.ts:10-90 | an existing admin and ticket are left unmodified; missing ones are created; every sample event exists; existing events are kept, and the events are exactly the loop's result from the identifier after the admin's rows; on a seeded store nothing is written |
| Seed.RunTwice | prisma/seed.ts:10-90 | after a successful first run the second succeeds; the users, the tickets and the events are exactly what one run leaves |
| Countdown.SplitSeconds | src/components/Countdown.tsx:33-36 | the hours, minutes and seconds parts stay below their next unit and add back to the whole |
| Countdown.CalculateTimeLeft | src/components/Countdown.tsx:27-41 | all zeros for a difference of at most 0; otherwise days is the difference divided by a day, hours below 24, minutes and seconds below 60, and all together equal the whole seconds left |
| Countdown.TimeLeftAt | src/components/Countdown.tsx:6 | zero from the party's start; before it, the parts add up to the whole seconds until 2025-12-31 18:00 UTC+3 |
| Countdown.TicksDown | src/components/Countdown.tsx:27-41 | one second later the countdown shows exactly one second less |
| Reminders.Count | src/components/PlaylistReminderModal.tsx:15 | an absent stored count is 0 |
| Reminders.ShouldShow | src/components/PlaylistReminderModal.tsx:13-17 | never shown without a window; otherwise shown exactly while the stored count (0 when absent) is below the maximum |
| Reminders.Closed | src/components/PlaylistReminderModal.tsx:37-41 | a number of closes in a row from a stored count |
| Reminders.ClosedCount | src/components/PlaylistReminderModal.tsx:28-31 | each close adds exactly one to the count |
| Reminders.ClosesStopReminder | src/components/PlaylistReminderModal.tsx:11-17 | from an empty store the pop-up is shown exactly while fewer closes than its maximum (2 for the playlist, 3 for performances) have happened |
| Reminders.StaysStopped | src/components/PerformanceReminderModal.tsx:14-18 | once the count reaches the maximum, no further closes bring the pop-up back |
| Reminders.Reminder.IncrementCount | src/components/PerformanceReminderModal.tsx:30-33 | closing stores the count plus one |
| Reminders.Reminder.SetMaxCount | src/components/PerformanceReminderModal.tsx:35-37 | taking the action stores the maximum, after which the pop-up is never shown |

## Left out

- Rendering, effects and timers of the React components: the countdown's `setInterval` refresh and the pop-ups' open/close state are not modelled. Only the helper functions and the stored counters are.
- Reading the local-storage entry as something other than a number is not modelled. The stored count is `Option<nat>`, and `parseInt`'s NaN is not represented.
- The "no window" case during server rendering is a boolean parameter of `Reminders.ShouldShow`.
- Text.Prefix: counts Unicode scalar values, while JavaScript's `substring` counts UTF-16 code units. For text with characters outside the Basic Multilingual Plane (emoji) the source keeps fewer characters and can cut a surrogate pair in half; the model keeps `n` whole characters.
- TasksRoute.TaskDetails: its 50-character cut inherits the same difference, through `Text.Prefix`.
- Floating point is not modelled:
  - the countdown works on an integer millisecond difference; the `Math.floor` of a float division equals integer division for the positive differences it is applied to;
  - the leaderboard's `averagePoints` and its rounding are left out;
  - event prices are whole numbers.
- The clock is not modelled: `Date.now()` and `new Date()` are an integer `now` parameter.
- Randomness is not modelled: the random six-digit code of `generateVerificationCode` is a parameter of `Email.StoreVerificationCode`.
- E-mail delivery through Resend and its HTML body are not modelled, nor is the `boolean` that reports the delivery outcome.
- Password hashing is abstract: bcrypt is a wrapper datatype, and comparing a candidate succeeds exactly for the password the hash was made from.
- The next-auth library itself is not modelled (the provider wiring, cookies, `maxAge`, the default `name`/`image` token fields). Only `authorize` and the two callbacks are.
- Auth.SignIn: the "LOGIN" entry is modelled as written before `authorize` returns. The source fires and forgets it, so the entry can land after the sign-in completes or not at all.
- Prisma is not modelled beyond its observable effects:
  - identifiers come from one counter instead of `cuid()`;
  - related rows that `include` adds to a response (a task's user, an event's registrations, a log's user) are not returned;
  - ordering ties in `orderBy createdAt` follow the model's stable sort, not the database's.
- Database.FirstEventNamed, Email.FirstUsable, Email.VerifyEmailCode and VotesRoute.UserVote resolve a `findFirst` without `orderBy`, and the votes `include`d with a performance, in insertion order. The database promises no order there. When several "Performance" events, several usable codes or several votes of one user match, the source may pick a different one than the model.
- The settings singleton is an `Option<AppSettings>` field rather than a table.
- A user's null `language` column is the empty string.
- Only a present `true` sets an event's `isLocked`/`autoJoin` flag; other truthy JSON values are not modelled. A given price of 0 is stored as 0, as in the source.
- Concurrency and atomicity are not modelled. Each handler is one sequential method; races between requests and the partial writes a failing handler leaves (for example a performance kept when the creator has no ticket) are modelled only in the sequential order of the code.
- Generic database failures (connection loss and the like) that lead to the routes' 500 answers are not modelled. Only the failures the model's data can cause are: a missing user row for a foreign key or an update, and an increment of the notification counter past the 32-bit `Int` column's largest value.
- Response message texts that carry no rule are shortened. The sync answer is `Synced(count)` and the registration answer is `Registered(userId)`.
- The seed script's console output, its process exit code and its disconnect are not modelled.
- The seed script is modelled over any list of sample events (`Seed.Run`); `Seed.SampleEvents` is the list the script ships with.
- The sync script's console output is not modelled.
- The UI-only routes (joining or leaving performances, votes, event join/opt-out, ticket status override) are not modelled. Their handlers are not part of this model.
