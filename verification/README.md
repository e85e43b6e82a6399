# Team manager backend: model and proofs

A Dafny model of the business rules of the team manager's Go backend, with machine-checked
proofs. Postgres tables are finite maps and sets; each SQL statement is one step on committed
state; CHECK, unique and foreign-key constraints are guards on the writing statement. Verify
everything with `dafny verify dfyconfig.toml`.

Every component comes in up to three layers: a specification (functions on the tables and
predicates on them), the operations in the form the source has them (classes whose methods
update tables, loops with invariants, each method proved against the specification), and, where
several requests can run at once, an interleaved state machine with any number of transactions,
each of which may stop at any point.

| files | what they model |
|---|---|
| `Permissions`, `RoleTables`, `RoleVerdicts`, `RoleRepository`, `RoleProtocol`, `RoleRuns`, `RoleSerial` | permission folding; `SetRoles`, `RemoveMember` and `EraseUser`, what each answers on which rows, sequentially and interleaved under per-team locks |
| `Octets`, `ICalText`, `ICalNames`, `ICalRender`, `ICalEvents`, `ICalReader`, `ICalLines` | the calendar feed on octets: escaping, UTF-8-aware folding, the renderer, an RFC 5545 reader that inverts it, and the lengths of its physical lines |
| `Attendance`, `AttendanceFields` | effective status, representative memberships, header counts, rosters and "my status" of cross-team events |
| `SeriesDates`, `EventTables`, `EventFields`, `EventHistory`, `EventRepository` | events, series and target teams, field by field, and what series-wide operations do to the past |
| `Sums`, `Ledger`, `LedgerMoney`, `FinanceRepository`, `Overview` | transactions, contributions, penalties and assignments; conservation; the derived figures of overview and export |
| `OidcLogin`, `OidcAlone`, `OidcSplit` | account resolution of an external login, interleaved with others and with registrations, and on its own; exactly which accounts it can reach |
| `Absences`, `AbsenceRepository` | absence ranges under the team lock |
| `Keyset`, `Listings` | keyset pages and walks over them |
| `Reminders`, `ReminderWorker` | the sent marker and its push, and one tick of the worker |

## Assumptions

- Lock keys are distinct for distinct teams; role definitions are fixed during a run; no
  membership is created during a run of the role protocol; a team has one membership per user.
- Generated ids are fresh. Addresses are already normalised. Days, minutes and instants are integers.
- Event spans and absences do not end before they begin, as the CHECK constraints demand.
- The role protocol starts from tables in which no role is assigned outside its own team.
  `ErasureLosesAdminExactly` says exactly when the erase query relies on it.

## Where the code and its documentation part ways

- `icsFold` does not end on every line: its comment speaks only of rune boundaries, but a run of 73
  continuation octets makes the cut 0. `FoldTerminatesExactly` gives the exact condition; text
  from the database is valid UTF-8 and never meets it.
- RFC 5545 section 3.1 ends every line with CR LF and asks for at most 75 octets. `Render` joins lines
  with CR LF, so the last has none (`LastLineHasNoBreak`), and never folds the calendar name, so a feed
  meets the limit exactly when the escaped name has at most 62 octets (`FeedIsShortExactly`).
- Three places derive whether a contribution is paid. They differ on negative sums and on
  amounts of zero or less; `ExportAgreesExactly` and `CountAgreesExactly` say exactly where, and the table
  constraints rule those inputs out.
- A penalty assignment without an amount is listed as open and shown as unpaid, but makes the
  whole data export fail (`ExportPenalties`), since the exported fields cannot hold NULL.
- An identity is said to be stable under a change of address. Logins that start once it is linked to a
  live account all reach that account (`LinkedIdentityKeepsItsAccount`); before that, logins that
  present two addresses can end in two accounts, and `TwoAddressesSplit` says exactly when.
- A session can be for another account than the linked one; `LinkMissedExactly` says exactly when.
  One case is an identity linked to a deleted account, whose links `EraseUser` removes for this reason.
- The reminder marker is per event and member, so a member with several subscriptions gets one
  push, to the first subscription the tick reaches (`OnlyTheFirstIsEnqueued`).

## Model

| member | source | states |
|---|---|---|
| Permissions.FoldIsHighest | backend/internal/members/repository.go:643-653 | Scanning the rows one by one yields, module by module, the best level any row holds: the accumulator computes an order-free maximum. |
| Permissions.FoldIsEffective | backend/internal/members/repository.go:583-605 | Any enumeration of the same permission rows, in any order and with repetitions, folds to one and the same result. |
| Permissions.FoldIgnoresOrder | backend/internal/members/repository.go:583-653 | Two scans of the same rows in different orders agree. |
| Permissions.FoldedSettingsMatchesExistenceTest | backend/internal/members/repository.go:643-691 | The folded settings level is "write" exactly when the SQL existence test over the same rows succeeds. |
| Permissions.RankBounds | backend/internal/members/repository.go:796-813 | The folded level stays at or below a bound exactly when every single row does. |
| Permissions.GetPermissionsForTeams | backend/internal/members/repository.go:833-871 | Over interleaved rows of many teams the one map accumulates for each team exactly the fold of that team's own rows, and has a key exactly for the teams that have rows. |
| Permissions.MissingTeamHasNoAccess | backend/internal/members/repository.go:833-871 | A team without a key is one whose own fold is "none" everywhere, so a caller may read a missing key as no access. |
| RoleTables.ReplaceRolesKeepsAdmin | backend/internal/members/repository.go:658-716 | When the admin guard passes, replacing a membership's roles leaves every team that had a signed-in-able settings admin with one. |
| RoleTables.DropMembershipKeepsAdmin | backend/internal/members/repository.go:723-777 | The same for removing a membership, whether or not the removed member was an admin. |
| RoleTables.MarkErasedKeepsAdmin | backend/internal/auth/repository.go:554-599 | The same for erasing a user, given that no role is assigned outside its own team. |
| RoleTables.ErasureLosesAdminExactly | backend/internal/auth/repository.go:554-599 | Where the guard lets an erasure through, a team is left without an admin if and only if another user's grant through a role of another team is all that the guard counted; no assumption on the tables. |
| RoleTables.EraseGuardIsExact | backend/internal/auth/repository.go:554-581 | With every role assigned inside its own team, the guard refuses exactly the erasures that would cost some team its last admin. |
| RoleTables.EraseGuardNeedsRolesInTeam | backend/internal/auth/repository.go:554-576 | Tables that meet the condition exist, so the assumption is needed. |
| RoleTables.ReplaceRolesKeepsCeiling | backend/internal/members/repository.go:545-578 | When the escalation check passes, no membership of any team ends above the level some membership of that team already held. |
| RoleTables.ReplacedRows | backend/internal/members/repository.go:462-487 | After the write the membership's effective rows are those of the requested roles, and no other membership's rows change. |
| RoleTables.DropMembershipKeepsCeiling | backend/internal/members/repository.go:723-777 | Removing a membership never raises a team's highest level. |
| RoleRepository.DedupeStrings | backend/internal/members/repository.go:41-52 | The result has no repetition and the same elements. |
| RoleRepository.RoleCountDecides | backend/internal/members/repository.go:494-521 | Comparing the count of matching roles with the length of the deduplicated list decides whether every requested role belongs to the team. |
| RoleRepository.FoldRows | backend/internal/members/repository.go:583-640 | The scan loop over a result set in unknown order returns the row set's maximum. |
| RoleRepository.CompareToCeilings | backend/internal/members/repository.go:554-577 | One loop over two parallel slices passes exactly if, module by module, the grant is no more than the caller's level or the membership's earlier level. |
| RoleRepository.Repository.ValidateSetRolesInputs | backend/internal/members/repository.go:494-521 | Missing membership and foreign role are told apart, in that order. |
| RoleRepository.Repository.EnforceNoPermissionEscalation | backend/internal/members/repository.go:545-578 | Fails exactly if some requested role outranks, in some module, every role of the team that the caller holds and every one the membership held. |
| RoleRepository.Repository.SetRoles | backend/internal/members/repository.go:421-487 | InsufficientPermission exactly when membership and roles are valid and some requested role outranks, in some module, every role of the team held by the caller or by the membership; on success the membership holds exactly the requested roles and no other row changes, else none does. |
| RoleRepository.Repository.RemoveMember | backend/internal/members/repository.go:723-777 | Same for removing a member: caller check, last-admin check, not found, or the membership and its role rows are gone. |
| RoleRepository.Repository.EraseUser | backend/internal/auth/repository.go:528-614 | Refused exactly when the user is the only settings admin of some team; otherwise the user is marked erased and nothing else in these tables changes. |
| RoleVerdicts.EscalationIsExact | backend/internal/members/repository.go:545-578 | On the rows: the check passes if and only if no requested role outranks, in some module, every team role on the caller's memberships of the team and on the addressed one. |
| RoleVerdicts.CeilingIsEither | backend/internal/members/repository.go:554-577 | The seven comparisons hold if and only if every module's grant is within the caller's level or the membership's earlier one. |
| RoleVerdicts.SetRolesAnswers | backend/internal/members/repository.go:421-521 | Each of the five answers of SetRoles, with the condition on the rows under which it is given. |
| RoleVerdicts.OwnRolesNeverEscalate | backend/internal/members/repository.go:545-578 | Sending a membership its own roles again is never refused as an escalation, whatever the caller holds. |
| RoleVerdicts.SetRolesGuardIsExact | backend/internal/members/repository.go:658-716 | For a user not erased, the last-admin guard of SetRoles refuses if and only if the team would be left without an admin. |
| RoleVerdicts.CallerCheckIsExact | backend/internal/members/repository.go:723-777 | The caller of RemoveMember passes if and only if they hold, on a membership of the team, a role of the team with settings:write. |
| RoleVerdicts.RemoveMemberAnswers | backend/internal/members/repository.go:723-777 | Each of the four answers of RemoveMember, with the condition on the rows under which it is given. |
| RoleVerdicts.RemoveMemberGuardIsExact | backend/internal/members/repository.go:680-716 | Its last-admin guard refuses if and only if the team would be left without an admin. |
| RoleVerdicts.EraseUserAnswers | backend/internal/auth/repository.go:554-599 | EraseUser refuses if and only if the user holds settings:write in some team where no one else not erased does, as the query reads the rows. |
| RoleProtocol.InitialStatesSatisfyInv | backend/internal/members/repository.go:430-441 | With no transaction in flight and tables that meet their constraints the invariant holds, so the theorems below apply. |
| RoleProtocol.StepKeepsInv | backend/internal/members/repository.go:433-487 | Every step of every interleaved transaction, one query at a time, keeps the protocol invariant: lock table and holders agree, locks are taken upwards, and all that a transaction has read or checked under its locks is still true. |
| RoleProtocol.EstablishedStable | backend/internal/members/repository.go:433-440 | The rely step: a commit under other teams' locks cannot falsify what a transaction has checked about the teams it holds. |
| RoleRuns.AdminSurvivesEveryRun | backend/internal/members/repository.go:658-777 | Main theorem. In any interleaving, with crashes, of role changes, removals and erasures, a team that has a settings admin who can still sign in keeps one. |
| RoleRuns.CeilingNeverRises | backend/internal/members/repository.go:545-578 | Main theorem. In any such run, for each team and module the highest level any membership holds never rises, whoever calls what. |
| RoleSerial.CommitIsAtomic | backend/internal/members/repository.go:421-487 | The checks, made earlier and query by query, still decide at the commit as the sequential method would, and the outcome reported is its verdict. |
| RoleSerial.EndIsTheVerdict | backend/internal/members/repository.go:444-460 | Whenever a transaction ends with an outcome, refusals included, it is the one the sequential method would give at that moment, and so are the tables. |
| RoleSerial.RunIsSerial | backend/internal/members/repository.go:421-521 | Main theorem. The tables after any interleaved run, and the outcome of every request that got one, are those of the requests run one at a time in the order they ended. |
| RoleRuns.NoWaitCycle | backend/internal/auth/repository.go:528-553 | No chain of transactions waiting for each other's locks closes, because the wanted team rises along every edge. |
| RoleRuns.SomeTransactionCanStep | backend/internal/auth/repository.go:548-553 | Deadlock freedom: in every reachable state with an unfinished transaction, one of them can take its next step. |
| ICalText.UnescapeEscape | backend/internal/calendarfeed/ics.go:27-38 | Unescaping an escaped text gives the text with CR LF and CR written as LF, for every octet string. |
| ICalText.EscapeIsClean | backend/internal/calendarfeed/ics.go:27-38 | An escaped text contains neither CR nor LF, so it cannot end a line. |
| ICalText.EscapeInjective | backend/internal/calendarfeed/ics.go:27-38 | Two texts are escaped alike exactly when they differ at most in how they spell line breaks. |
| ICalText.EscapeKeepsUtf8 | backend/internal/calendarfeed/ics.go:27-38 | Escaping keeps valid UTF-8 valid. |
| ICalText.FoldTerminatesExactly | backend/internal/calendarfeed/ics.go:53-69 | The fold loop ends if and only if the line has no run of 73 continuation octets after its first octet. |
| ICalText.FoldCanRunForever | backend/internal/calendarfeed/ics.go:58-66 | A line of 74 continuation octets is one on which the cut is 0 and the loop never shortens the line. |
| ICalText.ValidHasNoLongRun | backend/internal/calendarfeed/ics.go:47-61 | Valid UTF-8 has no such run, so on valid UTF-8 the loop always ends. |
| ICalText.CutMakesProgress | backend/internal/calendarfeed/ics.go:58-65 | Every cut is strictly positive, at most 73, and leaves a line on which the loop ends too. |
| ICalText.IcsFold | backend/internal/calendarfeed/ics.go:53-69 | The loop with its builder, moving cut and shrinking line terminates and joins the pieces with CR LF and a space. |
| ICalText.PiecesAreTheLine | backend/internal/calendarfeed/ics.go:58-67 | The pieces concatenate to the line and each has at most 73 octets, so with its leading space a continuation has at most 74. |
| ICalText.PiecesAreUtf8 | backend/internal/calendarfeed/ics.go:47-52 | On valid UTF-8 every piece is valid UTF-8, and every piece but the last has at least 70 octets. |
| ICalText.UnfoldFolded | backend/internal/calendarfeed/ics.go:53-69 | Unfolding as in section 3.1 of RFC 5545 gives back any foldable line without CR or LF, whatever follows it. |
| ICalRender.Render | backend/internal/calendarfeed/ics.go:94-175 | The appending loops build exactly the document: header, one VEVENT per event that is not cancelled, one per birthday, footer, joined by CR LF. |
| ICalLines.DocumentIsShortExactly | backend/internal/calendarfeed/ics.go:145-174 | Split at CR LF without unfolding, all physical lines of a document have at most 75 octets if and only if the lines that are not folded have. |
| ICalLines.FeedIsShortExactly | backend/internal/calendarfeed/ics.go:97-105 | The rendered feed keeps every physical line within 75 octets if and only if the escaped calendar name, which is never folded, has at most 62. |
| ICalLines.LongTeamNameOverflows | backend/internal/calendarfeed/ics.go:103 | A team name of 63 letters breaks the limit, whatever the feed holds. |
| ICalLines.LastLineHasNoBreak | backend/internal/calendarfeed/ics.go:173-174 | The document ends in END:VCALENDAR and not in a line break. |
| ICalRender.DocumentIsPrintable | backend/internal/calendarfeed/ics.go:94-175 | With valid UTF-8 texts every content line is free of CR and LF and can be folded, so the renderer terminates. |
| ICalReader.ReadLines | backend/internal/calendarfeed/ics.go:145-174 | Unfolding and splitting at CR LF gives back exactly the printed content lines, whatever their texts contain. |
| ICalReader.ReadVevents | backend/internal/calendarfeed/ics.go:107-171 | Collecting the VEVENTs gives one per live event in order, then one per birthday, each with its own lines; no text can open or close one. |
| ICalReader.FeedIsFaithful | backend/internal/calendarfeed/ics.go:94-175 | Main theorem. Reading the rendered octets gives back the content lines, the VEVENTs in order and the calendar name. |
| ICalReader.EventTextsSurvive | backend/internal/calendarfeed/ics.go:107-158 | The i-th VEVENT yields the i-th live event in its own fields: title, location, and a description of meeting point, note and event type; identifier and render time; a start at the start time, else the meeting time, of the first day; an end at the end time of the last day, else 23:59 of it for a span, else two hours after the start. |
| ICalReader.BirthdayTextsSurvive | backend/internal/calendarfeed/ics.go:160-171 | After the events, the i-th VEVENT yields the i-th birthday: name, identifier, the whole day, its yearly recurrence, and no end. |
| ICalReader.LiveIsAFilter | backend/internal/calendarfeed/ics.go:107-110 | The event filter distributes over concatenation, so it keeps the order. |
| ICalReader.LiveDropsCancelled | backend/internal/calendarfeed/ics.go:107-110 | One event is kept if and only if it is not cancelled; with the row above this is the whole filter. |
| ICalReader.SpanReachesItsLastDay | backend/internal/calendarfeed/ics.go:112-134 | For a clock that puts a time of day on its own day, every VEVENT of a span starts on the first day and ends on the last, with or without an end time. |
| ICalReader.HeaderSurvives | backend/internal/calendarfeed/ics.go:97-105 | The document begins with the seven calendar lines, the escaped team name in the sixth, and ends with END:VCALENDAR. |
| ICalEvents.InstantsFit | backend/internal/calendarfeed/ics.go:112-134 | The computed instants are the ones described by the event's fields, case by case. |
| ICalEvents.DescriptionFits | backend/internal/calendarfeed/ics.go:136-143 | The description is the parts that are present and not empty, one per line, the event type last, in all four cases. |
| ICalText.NormalizeKeeps | backend/internal/calendarfeed/ics.go:27-38 | Text without CR is its own normal form, in front of any other text. |
| Attendance.SqlAndGoAgree | backend/internal/events/attendance.go:21-43 | The SQL CASE and the Go function give the same status on every input; the automatic and absent flags are characterised. |
| Attendance.AbsenceCoversExactly | backend/internal/attendance/sql.go:24-30 | With ordered ranges, the overlap test holds if and only if some day of the event, up to its end date if it has one, lies in an absence of that user in that team. |
| Attendance.ComputedFits | backend/internal/events/attendance.go:21-43 | The derived attendance in the rows' own fields: status, reason, time, automatic and absent flag, for every case. |
| Attendance.RepresentedBy | backend/internal/events/repository.go:1561-1588 | The row kept for a user is a membership of a targeted team: the viewing team's if the user has one there, else that of the lowest team. |
| Attendance.RepresentedExactly | backend/internal/events/repository.go:1561-1588 | A user is on the roster if and only if some targeted team has them. |
| Attendance.DistinctOnKeeps | backend/internal/events/repository.go:1291-1303 | DISTINCT ON keeps for every user exactly one row, to which no other row of the user is preferred. |
| Attendance.DistinctOnIgnoresOrder | backend/internal/events/repository.go:1291-1303 | Which row stands for a user does not depend on the order in which the join produces the rows. |
| Attendance.SameRepresentatives | backend/internal/events/repository.go:1259-1307 | The header query, joining memberships to targets, and the roster query, joining targets to memberships, pick the same membership for every user. |
| Attendance.ViewerIsRepresentedByViewingTeam | backend/internal/events/repository.go:1340-1376 | A member of the viewing team is represented by that membership, also when other targeted teams have them too. |
| Attendance.BatchedSummaryAgrees | backend/internal/events/repository.go:1391-1435 | The batched counts equal the single ones on every event, a missing entry reading as zeros. |
| Attendance.CountsAddUp | backend/internal/events/repository.go:1279-1307 | The yes, no, maybe, pending and not-nominated counts sum to the total. |
| Attendance.ListAttendance | backend/internal/events/repository.go:1540-1639 | The loop lists the represented users in the given order up to 5000, nobody for an invisible event. Each row shows a membership that stands for its user and what counts for that user: the response, else an automatic "no" exactly if an absence of theirs in that team shares a day with the event, else "yes" or "pending" by response mode. |
| Attendance.RosterMatchesHeader | backend/internal/events/repository.go:1279-1307 | Main theorem. Counting roster rows by status gives the header's counts, for each status and in total. |
| AttendanceFields.HeaderCountsUsers | backend/internal/events/repository.go:1279-1307 | Each count of the header is the number of users who count with that status by the rows, shared absence days included; an event not targeting the viewing team has zeros. |
| AttendanceFields.SilentNoExactly | backend/internal/attendance/sql.go:43-50 | A represented user without a response counts as "no" if and only if an absence of theirs, in the team of the membership that stands for them, shares a day with the event. |
| AttendanceFields.MyStatusCounts | backend/internal/events/repository.go:1340-1376 | One's own status is there if and only if the event targets the viewing team, and is what counts for one as a member of that team. |
| Attendance.ListedExactlyWithinCap | backend/internal/events/repository.go:1540-1626 | The listing is the whole roster exactly when the header's total is within the cap. |
| Attendance.MyStatusIsMyRosterRow | backend/internal/events/repository.go:1340-1376 | A member of the viewing team sees as their own status exactly their row of the roster. |
| Attendance.GetMyEffectiveAttendances | backend/internal/events/repository.go:1478-1522 | The batched loop gives for each visible event what the single query gives. |
| SeriesDates.SeriesDates | backend/internal/events/repository.go:625-648 | The loop yields the weekly dates from the start, as many as the end date and the cap allow. |
| SeriesDates.AcceptedSeriesIsComplete | backend/internal/events/repository.go:625-648 | For every accepted end date: exactly the service's week count, seven days apart, all within the span, and the next date past the end, so the cap never truncates. |
| SeriesDates.RejectedExactlyOutOfRange | backend/internal/events/service.go:286-299 | A recurring request with an end date is accepted exactly when the end is not before the start and fewer than 104 weeks after it. |
| EventTables.CreateSeriesKeepsInv | backend/internal/events/repository.go:653-777 | A new series keeps the store invariant: owner among the targets, live series of the same team, spans only on single events. |
| EventTables.OccurrenceAt | backend/internal/events/repository.go:719-733 | The i-th new occurrence carries the i-th date. |
| EventTables.UpdateEventKeepsInv | backend/internal/events/repository.go:785-833 | Updating an event or its series keeps the invariant. |
| EventTables.SetStatusKeepsInv | backend/internal/events/repository.go:1105-1154 | Changing the status keeps the invariant. |
| EventTables.DeleteEventKeepsInv | backend/internal/events/repository.go:1167-1232 | Deleting an event or a series' remainder keeps the invariant. |
| EventTables.SeriesHasOneOwner | backend/internal/events/repository.go:928-960 | Every occurrence of an owned event's series is owned by the same team, so replacing the whole series' targets never touches another team's event. |
| EventHistory.SetStatusKeepsHistory | backend/internal/events/repository.go:1105-1154 | A series-wide status change leaves every past occurrence but the addressed one as it was. |
| EventHistory.DeleteKeepsHistory | backend/internal/events/repository.go:1196-1232 | A series-wide delete leaves every past occurrence but the addressed one, with its targets. |
| EventHistory.DeleteNeverDetaches | backend/internal/events/repository.go:1196-1232 | In one deletion a surviving occurrence keeps its series: the foreign key's SET NULL never fires. |
| EventHistory.NothingIsDetached | backend/internal/events/repository.go:555-1232 | Main theorem. Over every run an event that is still there belongs to the series and the team it was created for, and a deleted event's id never comes back. |
| EventHistory.SeriesDeleteIsExact | backend/internal/events/repository.go:1196-1232 | Exactly the addressed event and the occurrences from today on go, and the series row goes exactly when no occurrence is left. |
| EventHistory.UpdateKeepsHistory | backend/internal/events/repository.go:851-1031 | An update changes a past occurrence of the series only in its statistics flag and target teams. |
| EventHistory.SeriesUpdateReaches | backend/internal/events/repository.go:981-1031 | A series update reaches every other occurrence from today on, with everything but the date and the span. |
| EventHistory.SeriesTargetsInLockstep | backend/internal/events/repository.go:928-960 | After a series update that names cross teams every occurrence, past ones included, targets exactly the same teams. |
| EventHistory.SetStatusIsExact | backend/internal/events/repository.go:1105-1154 | A series status change reaches exactly the addressed event and the occurrences from today on that target the team. |
| EventHistory.AddressedEventTakesThePatch | backend/internal/events/repository.go:809-833 | A series update leaves the addressed event as one application of the patch does, although part of the patch has already been applied to it by then. |
| EventHistory.SingleScopeTouchesOneEvent | backend/internal/events/repository.go:785-1189 | Without series scope, update, status change and delete leave every other event, its targets and all series rows as they were. |
| EventHistory.RunKeepsInv | backend/internal/events/repository.go:555-1232 | Main theorem. The store invariant holds after every run of create, create-series, update, set-status and delete. |
| EventHistory.HistorySurvivesEveryRun | backend/internal/events/repository.go:851-1232 | Main theorem. Over every run whose operations happen after it and do not address it, a past occurrence survives unchanged but for its statistics flag and targets. |
| EventFields.PatchedTakesPatch | backend/internal/events/repository.go:1037-1094 | The patched row is the one row that has the patch's value in every given column and field, the old one elsewhere, and no end date if it is cleared. |
| EventFields.UpdateAllFields | backend/internal/events/repository.go:785-1031 | After any accepted update every row of the table is as described field by field, whether addressed, sibling from today on, past sibling or other. |
| EventFields.UpdateAnswers | backend/internal/events/repository.go:785-875 | Each of the four errors of UpdateEvent, with the exact condition under which it is reported. |
| EventFields.SeriesBreaksExactly | backend/internal/events/repository.go:981-1031 | The series part fails if and only if some occurrence from today on would break a CHECK constraint with the patched fields. |
| EventFields.SeriesAllFields | backend/internal/events/repository.go:653-777 | The rows, targets and series row of a new series, field by field. |
| EventFields.RequestedWeeks | backend/internal/events/repository.go:625-648 | Without an end date a series has the requested number of weeks, held between 1 and 104. |
| EventRepository.DedupTeamIds | backend/internal/events/repository.go:130-141 | The owning team comes first, and the result is the set of all given teams without repetition. |
| EventRepository.Repository.CreateEvent | backend/internal/events/repository.go:555-614 | The created row has the given fields, its targets are the owner and the cross teams, and no other row changes; or the error is reported with nothing changed. |
| EventRepository.Repository.CreateSeries | backend/internal/events/repository.go:653-777 | One row a week with the given fields and no span, all targeting the owner and the cross teams, and the series row; or the error is reported with nothing changed. |
| EventRepository.Repository.ReplaceEventTeamsForSeries | backend/internal/events/repository.go:928-960 | Collecting the series' ids and replacing their targets at once is the specified replacement, also for an empty series. |
| EventRepository.Repository.UpdateEvent | backend/internal/events/repository.go:785-875 | Field by field: the addressed row has the patch's value in every patched column and its own in every other; its siblings from today on take all but date and span, past ones only the statistics flag, and no other row changes. Named cross teams replace the targets of exactly those rows. |
| EventRepository.Repository.SetStatus | backend/internal/events/repository.go:1105-1154 | The status changes on the addressed row and, in series scope, on the occurrences from today on that target the team; no other field and no other row changes. |
| EventRepository.Repository.DeleteEvent | backend/internal/events/repository.go:1167-1232 | The addressed row goes and, in series scope, the owner's occurrences from today on, with their targets; the series row goes exactly when no occurrence is left; all else stays. |
| Ledger.LinksStaySound | backend/internal/finances/service.go:299-396 | Main theorem. With the check and the write of each call as separate interleaved steps, every transaction links at most one target and every linked one is income of the target's team. |
| Ledger.CallSurvives | backend/internal/finances/service.go:376-390 | What a call's check established holds until its write, because a target keeps its team and links are never added after creation. |
| Ledger.SnapshotsSurviveEveryRun | backend/internal/finances/repository.go:361-417 | In every run an assignment keeps the member, team and amount it was created with, whatever happens to the penalty, and nothing deleted comes back. |
| Ledger.IncomeIsConserved | backend/internal/finances/repository.go:180-194 | A team's income is what was paid on its contributions plus what was paid on its penalty assignments plus its unlinked income. |
| Ledger.EveryRunConservesIncome | backend/internal/finances/repository.go:180-194 | Main theorem. That equation holds after every interleaved run. |
| Ledger.DeletingContributionKeepsBalance | backend/internal/finances/repository.go:801-816 | Deleting a contribution leaves income, expense and every other paid amount as they were. |
| Ledger.DeletingAssignmentKeepsBalance | backend/internal/finances/repository.go:603-615 | The same for deleting a penalty assignment. |
| LedgerMoney.ChangingMoves | backend/internal/finances/repository.go:232-272 | Replacing one transaction row moves the income and expense of every team and the paid amount of every target from what the old row booked to what the new one books. |
| LedgerMoney.RemovingMoves | backend/internal/finances/repository.go:275-286 | Deleting one takes from every figure what it booked, and from no other. |
| LedgerMoney.AmountAloneMoves | backend/internal/finances/repository.go:232-272 | A new amount alone on an income transaction raises its team's income and its target's paid amount by exactly the difference and moves nothing else. |
| FinanceRepository.Repository.CreateTransaction | backend/internal/finances/service.go:299-348 | Accepts exactly the transactions that keep the books sound, does what the interleaved steps do taken back to back, and moves every figure by what the new row books. |
| FinanceRepository.Repository.UpdateTransaction | backend/internal/finances/service.go:351-396 | On success kind and amount are the given ones or else the old ones, team and links stay, no other row changes, and every figure moves from what the old row booked to what the new one does; refused as linked is exactly a change to expense of a linked transaction. |
| FinanceRepository.Repository.InsertContributions | backend/internal/finances/repository.go:715-756 | One row per user in order; or the first user in the list who is not a member is reported and all rows are rolled back. |
| FinanceRepository.Repository.DeleteTransaction | backend/internal/finances/repository.go:275-286 | Deletes exactly the team's own row, and every figure loses what it booked. |
| FinanceRepository.Repository.UpdateContribution | backend/internal/finances/repository.go:759-799 | Amount and archive mark are the given ones or else the old ones, team and member stay, and so does every paid amount. |
| FinanceRepository.Repository.UpdatePenalty | backend/internal/finances/repository.go:367-399 | Patches the definition only, and a patch of the label alone leaves its amount. |
| FinanceRepository.Repository.DeleteContribution | backend/internal/finances/repository.go:805-816 | The row goes, and exactly its transactions lose that link and keep kind, amount and the other link; or there is no such row of the team. |
| FinanceRepository.Repository.CreateAssignment | backend/internal/finances/repository.go:553-601 | Snapshots the penalty's amount; the missing penalty and the missing member are told apart. |
| FinanceRepository.Repository.DeletePenalty | backend/internal/finances/repository.go:406-417 | Detaches the assignments and leaves member, team and amount of each. |
| FinanceRepository.Repository.DeleteAssignment | backend/internal/finances/repository.go:604-615 | The row goes, and exactly its transactions lose that link and keep kind, amount and the other link. |
| Overview.ExportAgreesExactly | backend/internal/auth/export.go:258-276 | The export's status CASE equals the service's derivation if and only if the paid amount is not negative. |
| Overview.CountAgreesExactly | backend/internal/finances/repository.go:839-857 | The open-count condition equals "not paid" in the service if and only if not amount <= paid <= 0. |
| Overview.StatusesAgreeInEveryRun | backend/internal/finances/repository.go:839-857 | In every reachable state the open count is the number of unarchived rows shown as open or partial, and the export shows the same status on every row. |
| Overview.StatusMeans | backend/internal/finances/service.go:640-649 | On sound books a contribution is shown as open exactly if nothing was paid, as paid exactly if something and at least the amount was, and as partial otherwise. |
| Overview.ListedExactlyWhenUnpaid | backend/internal/finances/repository.go:915-947 | A member is listed if and only if one of their assignments has no amount or less paid than its amount, which is when the service shows it as not paid. |
| Overview.GroupsAddUp | backend/internal/finances/repository.go:915-947 | The per-member totals sum to max(amount - paid, 0) over all assignments of the team. |
| Overview.GetOverview | backend/internal/finances/service.go:146-250 | The loop's sum over the grouped rows is what is outstanding over every assignment, income and expense are the totals over all transactions, the balance is their difference, and the open count is the number of unarchived contributions with less paid than due, the rows shown as open or partial. |
| Overview.ExportPenalties | backend/internal/auth/export.go:235-252 | Each exported flag is the service's, and one NULL amount or label fails the whole export, at the first such row. |
| OidcLogin.NextKeepsTables | backend/internal/auth/service.go:417-525 | Every statement of a login keeps the tables sound and leaves the login where its next statement expects it. |
| OidcLogin.OneAccountPerAddress | backend/internal/auth/repository.go:294-312 | Whatever logins, registrations and crashes interleave, at most one account holds an address. |
| OidcLogin.LinksNeverMove | backend/internal/auth/repository.go:272-284 | A link is written once: from any point of any run on it keeps its owner. |
| OidcLogin.PasswordsInEveryRun | backend/internal/auth/service.go:493-516 | An account these logins verified carries no password, and one verified before keeps the password it had. |
| OidcLogin.DeletedReportIsHonest | backend/internal/auth/service.go:475-485 | No login ends in an unexpected error, and "deleted account" is reported only when one holds the address. |
| OidcLogin.OnlyTargetsAreReached | backend/internal/auth/service.go:417-448 | A completed login ends with the live linked account of its identity, or with an account of an address the identity presents in the run and no deleted account holds. |
| OidcLogin.LinkedIdentityKeepsItsAccount | backend/internal/auth/service.go:417-423 | From any point of any run on at which an identity is linked to a live account, every login of it that starts gets a session for that account, whatever addresses it presents and whatever else is under way. |
| OidcLogin.SessionsAgree | backend/internal/auth/service.go:391-448 | Main theorem. However logins race or die, two that complete get sessions for one account when their identities have no two different targets: one identity that presents one address or is linked, or two unlinked ones of the same address. |
| OidcLogin.SessionIsForTheLinkedAccount | backend/internal/auth/service.go:493-525 | Where the identity has no two different targets, a completed login's account is the linked one exactly when the identity was not linked to a deleted account all along. |
| OidcAlone.AloneItGetsThrough | backend/internal/auth/service.go:417-525 | One uninterrupted login gets a session, and leaves the stated tables, exactly unless a deleted account holds the address of an unlinked identity. |
| OidcAlone.RetryGetsThrough | backend/internal/auth/service.go:417-525 | Whatever logins crashed where, a fresh attempt gets through. |
| OidcSplit.AllTargetsAreReached | backend/internal/auth/service.go:417-525 | Any two targets, of two identities or of one, are reached by two logins of one run. |
| OidcSplit.SplitsExactly | backend/internal/auth/service.go:391-525 | Main theorem. Some run completes logins of two identities, or two of one, for different accounts if and only if they have two different targets. |
| OidcSplit.TwoAddressesSplit | backend/internal/auth/service.go:417-448 | An identity that presents two addresses can be split over two accounts, whatever else goes on, if and only if no live account is linked to it and a deleted account holds neither address. |
| OidcSplit.LinkMissedExactly | backend/internal/auth/service.go:493-525 | A session can be for another account than the linked one if and only if the identity has a target and was linked to a deleted account, or was unlinked and has two targets. |
| OidcAlone.Service.VerifyAndLink | backend/internal/auth/service.go:493-525 | An unverified account loses its password and becomes verified; an existing link is left alone. |
| OidcAlone.Service.ResolveEmailConflict | backend/internal/auth/service.go:475-485 | Tells a deleted holder of the address from a lost race. |
| OidcAlone.Service.LoginWithOidc | backend/internal/auth/service.go:391-412 | Refuses bad claims untouched. Otherwise the account is the linked live one, a new verified one without password, or the live one with the address, adopted and linked; a deleted one stops the login with nothing changed. The rows are as described and as the interleaved statements leave them taken back to back. |
| Absences.StepKeepsInv | backend/internal/absences/repository.go:220-397 | Every step of interleaved creates, partial updates, deletions and membership changes keeps ranges apart and what was checked under the lock true. |
| Absences.AtMostOneAbsenceADay | backend/internal/absences/repository.go:220-397 | Main theorem. From disjoint data, no interleaving ever puts two absences of a member in a team on one day. |
| Absences.RangesStayInBounds | backend/internal/absences/repository.go:359-372 | Every range stays ordered and within the span limit, also through patches of one end. |
| AbsenceRepository.OverlapIsATakenDay | backend/internal/absences/repository.go:283-296 | For an ordered range the overlap query finds a row exactly when some day of the range is taken. |
| AbsenceRepository.Repository.Create | backend/internal/absences/repository.go:220-277 | Accepted exactly for a member whose range is in bounds and has no day already taken; every refusal is told by its first cause, and the tables are as the interleaved steps leave them taken back to back. |
| AbsenceRepository.Repository.ResolveFinalRange | backend/internal/absences/repository.go:302-321 | Each end is the given one or else the stored one, or there is no such row of the member. |
| AbsenceRepository.Repository.Update | backend/internal/absences/repository.go:333-397 | Accepted exactly when the resulting range, not the patch, is in bounds and free but for the row itself; then each end is the given one or else the stored one and nothing else changes. Every refusal is told by its first cause; the steps taken back to back do the same. |
| AbsenceRepository.Repository.Delete | backend/internal/absences/repository.go:405-419 | Deletes exactly a current member's own row; a departed member's is refused. |
| Keyset.WalkIsTheListing | backend/internal/finances/repository.go:134-174 | On an unchanging table, following cursors to the end shows the rows in order, each once, for any limit of at least 1 and any strict order. |
| Keyset.FewerBeyond | backend/internal/finances/service.go:266-281 | Following a cursor always leaves fewer rows to come, so the walk ends. |
| Keyset.NoRowTwice | backend/internal/events/repository.go:358-373 | However the table changes between pages, no sort key is shown twice and the order is kept. |
| Keyset.NoLastingRowSkipped | backend/internal/events/repository.go:358-373 | A row that keeps its sort key throughout is never skipped by a finished walk. |
| Keyset.NoRowInvented | backend/internal/events/repository.go:382-461 | Nothing is shown that was not in the table when its page was read. |
| Listings.OrdersAreStrict | backend/internal/events/repository.go:409-438 | The ascending and descending key comparisons of the statements are strict total orders. |
| Listings.EventWalkIsComplete | backend/internal/events/service.go:178-201 | Paging through any scope shows exactly its events, each once, newest first for past events and oldest first otherwise. |
| Listings.WalksPartition | backend/internal/events/repository.go:407-438 | For one fixed today every event of All is met in exactly one of Past and Upcoming, whatever the page sizes. |
| Listings.WalksShow | backend/internal/events/repository.go:389-438 | An event is met in Past if and only if it targets the team and its last day, the end date of a span or else the date, lies before today; in Upcoming if and only if that day is today or later; in All whenever it targets the team. |
| Listings.WalkOrder | backend/internal/events/repository.go:409-438 | Past reads from the newest date back and the others from the oldest on, equal dates by id. |
| Listings.AllIsPastThenUpcoming | backend/internal/events/repository.go:407-438 | All reads as Past backwards followed by Upcoming if and only if no ongoing event began before a past one. |
| Listings.ListEvents | backend/internal/events/service.go:188-210 | A page is sorted and within the limit; without a cursor it holds all that is left, with one it holds exactly what precedes the rest, and the rest is not empty. |
| Listings.ListTransactions | backend/internal/finances/service.go:258-289 | The same for a page of transactions. |
| Listings.TransactionWalkIsComplete | backend/internal/finances/repository.go:134-174 | Paging through the transactions shows the team's whole history, newest first, each once. |
| Listings.TransactionOrder | backend/internal/finances/repository.go:134-174 | The walk reads from the newest date back, within a date from the one recorded last, and ties by falling id. |
| Reminders.StepKeepsInv | backend/internal/jobs/event_reminder_worker.go:257-294 | Every step of every attempt, blocked inserts and rollbacks included, keeps one push per marker. |
| Reminders.MarkedExactlyWhenPushedOnce | backend/internal/jobs/event_reminder_worker.go:241-295 | Main theorem. Over every run of ticks, retries, replicas, crashes, targeted teams and deletions of events and users, a pair never gets two pushes; while neither end is deleted it has one exactly when its marker is there. |
| Reminders.NoPushAfterDeletion | backend/internal/db/migrations/00017_event_reminders.sql:19-24 | Losing the marker with its event or user brings no second push, because the foreign key lets no later marker in. |
| Reminders.AbortLeavesNothing | backend/internal/jobs/event_reminder_worker.go:231-240 | An attempt that dies leaves the tables as they were and lets a waiting attempt for the same pair insert its marker. |
| Reminders.SomeAttemptCanGoOn | backend/internal/jobs/event_reminder_worker.go:257-294 | While any attempt is under way one of them can go on without aborting. |
| ReminderWorker.ListUpcomingForReminders | backend/cmd/server/event_reminder_adapter.go:24-71 | The nested loops produce the fan-out in order. |
| ReminderWorker.FanOutReaches | backend/cmd/server/event_reminder_adapter.go:50-70 | A team is a candidate for an event exactly when the event targets it, the owner standing in for missing targets; no event is dropped. |
| ReminderWorker.IsAllowed | backend/internal/jobs/event_reminder_worker.go:209-223 | Caching an answer never changes one, and a failed lookup is not cached. |
| ReminderWorker.Worker.RemindMember | backend/internal/jobs/event_reminder_worker.go:241-295 | One due member: the steps of the protocol taken back to back, or nothing. |
| ReminderWorker.Worker.RemindForEvent | backend/internal/jobs/event_reminder_worker.go:171-204 | Marks exactly the due pairs of one candidate, a failing member not holding up the others. |
| ReminderWorker.OnlyTheFirstIsEnqueued | backend/internal/jobs/event_reminder_worker.go:257-288 | Of the pushes a pair could get, one per subscription and team, exactly the first the loops reach is enqueued, and none if the pair was marked before. |
| ReminderWorker.ToRemindExactly | backend/internal/jobs/event_reminder_worker.go:171-256 | A pair is to be reminded if and only if, for some targeted team, the event has not begun, the member has a subscription, may read events there, has reminders enabled and has reached the lead time in hours. |
| ReminderWorker.WantedPushIsDue | backend/internal/jobs/event_reminder_worker.go:171-256 | Every push a tick would make goes to a subscription of that very member in such a team. |
| ReminderWorker.Worker.Work | backend/internal/jobs/event_reminder_worker.go:112-163 | After a tick exactly the due pairs are marked, but for the failing ones; every new push goes to a due subscription of a pair not marked before, each pair's first; and an error is returned exactly when a due pair fails. |

## Left out

- HTTP handlers, validation, error texts, metrics, audit, tracing, configuration and start-up.
- Passwords, tokens, cookies, signing and image handling: hashes are opaque strings, sessions are the account they are for.
- Email verification links, password resets and account erasure during external logins: the runs there hold logins and registrations, on tables that may hold deleted accounts.
- Role creation, update and deletion, joining a team and member profile changes.
- `SetAttendance`: the attendance results hold for every set of recorded responses.
- The validation of nominated roles, nominations, comments, reasons and their visibility rules.
- `EraseUser`'s anonymisation of other tables and deletion of sessions: the model keeps the deleted mark, on which the guards depend.
- The series row's own columns: a series is its owning team.
- Time zones: wall-clock conversion and the two date formats are parameters of the renderer.
- The order in which roster rows and grouped penalties are sorted is a parameter; the results hold for every order.
- Row caps of the overview lists and per-team limits on rows.
- Descriptive columns of finance rows (title, category, note, due date), which no rule reads.
- Cursor encoding: a cursor is its key.
- The lookups of the reminder worker are fixed during one tick; delivery of a push after it is enqueued.
- Calendar shares, feed tokens, badges, retention and statistics.
