# A verified model of the weekly-plan bot

The bot lets advisors write weekly study plans, renders them as sheets, and looks after its own accounts and backups.
This project models the parts of it whose correctness is not visible from any single function, and proves what they are
for. Loops and objects keep their shape as methods and classes, proved against functions; expressions and case
distinctions are functions; everything about whole runs is a lemma over sequences of steps.

- **Backup and restore.** `SqlText` prints values, rows and INSERT statements as the pure-Python dumper does and reads
  text as PostgreSQL does: identifiers and keywords (section 4.1.1 of the PostgreSQL documentation), plain and escape
  string constants (4.1.2.1 and 4.1.2.2), comments (4.1.5) and hex bytea (8.4.1). `SqlRoundTrip` proves the printed data
  section reads back as exactly the same rows. `Batching` is the chunking loop. `Dump` and `DumpRestore` treat the script
  as a transaction that transforms a database; `RestoreCheck` is the row-count check after a restore. `Checksums`,
  `Archive` and `ArchiveChecks` relate the writer of the manifest to the checker of an archive.
- **Scheduling.** `Schedule`, `WeeklySchedule` and `NextRun`: when a backup is due, what that means for whole runs of one
  replica, and whether the instant shown in the panel is kept.
- **Rendering.** `Wrap`, `WrapOptimal`, `WrapBreaks` and `Fit`: greedy wrapping, where an oversized word is cut, and the
  search for a font size, over any width function. `Assignments`, `Rendering`, `SheetContent` and `RenderCache`: what is
  drawn, that it is everything there is to show, what is hashed, and why a cached file is right.
- **Plans.** `Calendar`, `Sorting` and `PlanDomain`: dates as day numbers, ranges, the seven rows of a sheet, copies.
  `PlanStore`: versions, edits and generated files of a stored plan. `PlanFiles`: stored plans and the cache together.
- **Accounts.** `Throttle`: the token bucket. `Accounts` and `AccountRuns`: invitations and Telegram ids over whole runs;
  `AccountDirectory`: the stored accounts, whose every method keeps what the runs keep. `Deletion`: deleting and
  transferring with foreign keys.

Objects carry their invariant: a directory of accounts, a stored plan, a database, the throttle and the scheduler each have
a `Valid()` (or intact foreign keys) that the operations of the services rely on and re-establish, so the theorems about
runs hold of the objects. The steps these operations are made of (`DeletePlan`, `DeleteUser`, `HandOver`, `PutCell`,
`FillDay`, `RefillDay`, `RemoveStudent`, `RotateToken`, `BindRow`, `RedeemInvite` and the like) state what they change instead.

## What turned out to be conditional

Some promises hold only under a condition, which is then part of the theorem:

- A dump restores itself exactly when, after its CREATE statements, every sequence it resets exists under the name it
  had when it was dumped and admits the value (`DumpLoads`); otherwise the whole transaction is rolled back. The script
  creates no sequences: a missing table gets new ones under default names, a table that is there keeps its own. Where
  these names agree with the dumped ones, which is so when the tables that are there use them and the others had default
  names (`UsualNamesAgree`), the condition is on the dump alone: no sequence name needs double quotes, and no largest
  number of a serial column is negative or its sequence's last (`DumpRestores`, with `AcceptedIffRestorable`). There is an
  input for each way to fail (`QuotedSequenceFails`, `NegativeNumberFails`, `ExhaustedSequenceFails`,
  `RenamedSequenceFails`, the last one on an empty database). Where the names do not agree, a load that succeeds can
  leave a column whose next number is taken (`CrossedSequencesLag`); where they do, it never does (`RestoredHolds`).
- A cached file shows the sheet that was asked for as long as its payload does not collide with the payload of an
  earlier sheet (`RunsServeTheirSheets`); a hash of fixed length cannot rule collisions out altogether.
- With a separator of white space the assignment lines carry the ink of all assignments exactly when the fitted lines
  beyond the last rule of the template carry none (`AssignmentsCarryInk`); the renderer does not draw those.
- Greedy wrapping is optimal for trimmed words, and for words that carry further white space when leaving white space out
  does not widen a line. Without either it is not (`UntidyExample`).
- After an automatic daily run, a later tick on the same date starts another one exactly when neither that run nor any
  since has succeeded, or the last success is at least twenty hours old (`DailyRunsAgainIff`). The second case needs a
  configured hour before four (`LateHourRunsAgainIff`, `EarlyHourRunsTwice`).
- The comments of the inspection say the manifest protects every listed member. The strict check refuses an archive as
  tampered exactly when a member that is still there has changed (`ChangedMembersRefused`); missing ones only leave
  warnings (`MissingMemberOnlyWarns`).
- The mismatch list after a restore is empty exactly when the statistics estimates of the tables that are not counted
  exactly agree with the archive (`RestoreReportsNothing`). The exactly counted tables never appear in it.
- A manifest line parses back exactly when the member name does not end in white space, does not begin with white space
  or a star, and is not empty (`LineParses`). All names the packer uses are of this kind.
- A text is read back exactly when it has no NUL character, which PostgreSQL text cannot hold (`TextLiteralReads`).
- The weekly instant promised after a run is kept exactly when that run was at most four hours late (`PromiseIsKept`).
- When an advisor is deleted by transfer, the plans survive exactly when they are not plans *for* that advisor
  (`TransferKeepsPlans`). Such plans can exist: an admin may start a plan for any row, because the ownership check asks an
  admin for no role (app/services/plan_manager.py:72-80), and the command line links any two rows
  (tools/manage.py:142-146). `PlanForAdvisorIsLost` is such a database; when every plan is for a student row, all plans
  survive (`StudentPlansSurvive`).
- The image of a generated plan shows its present content as long as the student's name, the dates and the template have
  not changed since it was drawn and no two requested sheets collide (`GeneratedPlansAreCurrent`).
- The admin's edit form does not check the role of the row it edits. It keeps the accounts consistent exactly when it
  does not connect a row with a pending invitation (`EditKeepsConsistentIff`). The form is opened from advisor cards, and
  advisor rows never have one, so only a request for another row, which the missing role check would let through, could
  break the rule.
- A deletion's audit entry is sound exactly when nobody deletes themselves (`DeletionLogIsIntact`), which is why the
  services refuse it.

## Model

| member | source | states |
|---|---|---|
| `SqlRoundTrip.EscapeChainIsCharwise` | app/services/backup.py:163-171 | the five replacements in their order act on each character separately; none touches another's output |
| `SqlRoundTrip.PlainReads` | app/services/backup.py:172-172 | a plain constant with doubled quotes is read back as the original text, and exactly when it has no NUL |
| `SqlRoundTrip.EscapedReads` | app/services/backup.py:162-171 | an escape constant is read back as the original text, and exactly when it has no NUL |
| `SqlRoundTrip.TextLiteralReads` | app/services/backup.py:161-172 | whichever form is chosen for a text, it is one constant with exactly that text, or refused when it has a NUL |
| `SqlRoundTrip.BytesLiteralReads` | app/services/backup.py:159-160 | hex bytes are read back, through the bytea input format, as the same bytes |
| `SqlRoundTrip.IntLiteralReads` | app/services/backup.py:151-152 | an integer of any size and sign is read back as itself |
| `SqlRoundTrip.LiteralReads` | app/services/backup.py:141-172 | every storable value is read back as itself in a column of its type |
| `SqlRoundTrip.RowReads` | app/services/backup.py:404-404 | a row's text is exactly one row of constants, whatever commas, quotes and parentheses its values hold |
| `SqlRoundTrip.RowsRead` | app/services/backup.py:404-414 | the joined rows of a statement are read back one by one, up to the closing semicolon |
| `SqlRoundTrip.RowsCoerce` | app/services/backup.py:404-414 | the constants read back become the original values in columns of their types |
| `SqlRoundTrip.IdentReads` | app/services/backup.py:394-400 | a quoted or bare identifier is read back as the name |
| `SqlRoundTrip.HeadReads` | app/services/backup.py:397-400 | a statement head names its table and columns |
| `SqlRoundTrip.InsertReads` | app/services/backup.py:397-414 | a whole statement is read back with its table, columns and rows |
| `SqlRoundTrip.ScriptReads` | app/services/backup.py:443-446 | all statements are read back in order |
| `SqlRoundTrip.DataSectionReads` | app/services/backup.py:446-446 | the data section, also an empty one, is read back as exactly the printed statements |
| `Batching.BatchesPartition` | app/services/backup.py:401-414 | the batches concatenate to the rows; each is non-empty, within 100 rows and 180000 characters or a single row, and none is closed early |
| `Batching.InsertStatements` | app/services/backup.py:401-414 | the loop with its running character count prints exactly those batches |
| `Dump.DataSection` | app/services/backup.py:385-446 | the table loop builds the data section; read part by part it holds every row of every table in order, except `backup_logs` and tables without columns |
| `Dump.DataHoldsAllRows` | app/services/backup.py:381-414 | the data section prints every row of every table but `backup_logs` and tables without columns, once and in order |
| `DumpRestore.ArgumentReads` | app/services/backup.py:427-430 | a sequence argument names its sequence exactly when the name needs no double quotes |
| `DumpRestore.TablesLoad` | app/services/backup.py:385-414 | executing the data section appends every dumped table's rows to that table |
| `DumpRestore.TruncateExec` | app/services/backup.py:459-463 | truncating empties every table and restarts every sequence |
| `DumpRestore.ResetsExec` | app/services/backup.py:416-430 | the resets all succeed, or the script fails at one with a quoted name or a value outside its sequence |
| `DumpRestore.AcceptedIffRestorable` | app/services/backup.py:416-430 | where the target's sequence names agree with the dumped ones, the resets are all carried out exactly when the names are bare and the largest stored numbers leave room |
| `DumpRestore.CreatesExec` | app/services/backup.py:365-379 | the CREATE statements never fail: tables and sequences that are there stay as they are, every missing table gets a sequence of its own for each serial column |
| `DumpRestore.DumpLoads` | app/services/backup.py:448-496 | on any target, with some or all of the tables and whatever its sequences are called, the script leaves the restored database exactly when every dumped sequence can be reset after the CREATE statements, and otherwise changes nothing |
| `DumpRestore.DumpRestores` | app/services/backup.py:448-496 | where the names agree, the load succeeds exactly when the dumped names are bare and the largest numbers leave room |
| `DumpRestore.UsualNamesAgree` | app/services/backup.py:256-270 | the names agree on an empty target and on a partial one, when present tables use the dumped names and the missing ones had default names |
| `DumpRestore.RestoresTheSame` | app/services/backup.py:256-270 | on all such targets, empty, partial or full, the dump leaves the same database |
| `DumpRestore.QuotedSequenceFails` | app/services/backup.py:427-430 | a sequence name in double quotes makes the script fail |
| `DumpRestore.NegativeNumberFails` | app/services/backup.py:419-430 | so does a serial column whose only number is negative |
| `DumpRestore.ExhaustedSequenceFails` | app/services/backup.py:419-430 | and a serial column that has used its sequence's last number |
| `DumpRestore.RenamedSequenceFails` | app/services/backup.py:365-379 | and, on an empty database, a sequence whose name is not the default one |
| `DumpRestore.CrossedSequencesLag` | app/services/backup.py:416-430 | a target whose columns draw from each other's sequences: the load succeeds and one column's next number is taken |
| `DumpRestore.RestoredHolds` | app/services/backup.py:385-446 | every table holds exactly its rows, except that `backup_logs` and tables without columns are empty; where the names agree each column's next number exceeds every number stored in it |
| `DumpRestore.DumpLoadsTwice` | app/services/backup.py:459-464 | on every target, restoring twice equals restoring once |
| `RestoreCheck.RestoreReportsNothing` | app/services/restore.py:596-616 | no exactly counted table is ever reported although audit and settings rows were added; the list is empty exactly when the other estimates agree |
| `RestoreCheck.ArchiveCountsRows` | app/services/backup.py:381-396 | the recorded counts are those of the tables' rows, none for `backup_logs` and tables without columns |
| `RestoreCheck.ReportedExactly` | app/services/restore.py:596-616 | after any load a table is reported exactly when the count found differs, with the two exceptions for audit rows and the settings row; what is found is the row count of the eleven tables counted exactly, and the estimate elsewhere |
| `RestoreCheck.AfterLoadCounts` | app/services/restore.py:835-853 | the settings row and the audit rows are the only changes after a load |
| `Checksums.ParseChecksums` | app/services/restore.py:242-253 | the parsing loop over the lines of a manifest |
| `Checksums.LineParses` | app/services/restore.py:242-253 | a printed line parses back to its member and digest, exactly when the name is safe |
| `Checksums.CaseDoesNotMatter` | app/services/restore.py:242-253 | a digest written in capital or small letters is the same digest |
| `Checksums.ManifestRoundTrip` | app/services/backup.py:817-825 | the printed manifest, comments included, parses back to its entries |
| `Archive.RewriteMetadata` | app/services/backup.py:790-828 | README first, then the digests of the payload members, then the manifest and the metadata |
| `Archive.CheckMembers` | app/services/restore.py:413-434 | the checking loop: first wrong digest in strict mode, warnings and the number of verified members otherwise |
| `Archive.Inspect` | app/services/restore.py:391-440 | the verdict on an archive, in the source's order of checks |
| `ArchiveChecks.PackedManifest` | app/services/backup.py:807-825 | the manifest of a packed archive lists exactly the members other than README.txt, metadata.json and checksums.txt, with their digests; those members are unchanged, the README and the metadata are new |
| `ArchiveChecks.VerdictExactly` | app/services/restore.py:391-440 | for every archive, strict or not: which refusal it gets, exactly what it is warned about, how many members are right, and which script and tool it is restored with |
| `ArchiveChecks.PackedArchivePasses` | app/services/backup.py:790-832 | every packed archive passes the strict check with no warning, and all payload members are verified |
| `ArchiveChecks.ChangedMembersRefused` | app/services/restore.py:413-440 | with manifest and metadata untouched and anything done to the other members, the strict check refuses as tampered exactly when a listed member still there has another digest, and names one; otherwise the report has one warning for each missing member |
| `ArchiveChecks.MissingMemberOnlyWarns` | app/services/restore.py:422-424 | a removed payload member leaves one warning and is not refused |
| `ArchiveChecks.MemberMap` | app/services/restore.py:222-232 | the loop that maps members to their names below the top folder |
| `ArchiveChecks.PackedMembersFound` | app/services/restore.py:222-232 | every packed member is found under its own name and no other |
| `ArchiveChecks.PayloadNamesSafe` | app/services/backup.py:639-746 | the names the packer stages are safe for the manifest |
| `ArchiveChecks.ArchivePassesInspection` | app/services/restore.py:391-440 | from end to end: staged files, packed under a folder, listed in any order and read back through the member map, pass the strict check with no warning |
| `Calendar.WeekdayIndexCounts` | app/domain/calendar.py:101-104 | the weekday table is a rotation: indices count days modulo seven |
| `Calendar.SaturdayOfIsSaturday` | app/domain/calendar.py:119-122 | the week's start is the only Saturday among a date and the six days before it |
| `Calendar.RangeIsCalendarWeek` | app/domain/calendar.py:124-164 | which ranges count as calendar weeks |
| `Schedule.Scheduler.Handle` | app/services/backup.py:1449-1474 | keeps the settings row in step with the history; under every plan a tick starts a run exactly when every run so far that has succeeded ended long enough ago, and under the daily and weekly plans the hour and the weekday are right |
| `Schedule.StartsExactly` | app/services/backup.py:1273-1321 | the same over any history, plan by plan: one hour, n hours with n from the setting, another date or twenty hours, six days and twenty hours; so without a success yet the first tick, from the hour on, starts a run |
| `Schedule.LastCovers` | app/services/backup.py:1214-1214 | the recorded last run never falls behind a successful run |
| `Schedule.HoursAreSpaced` | app/services/backup.py:1299-1301 | every-n-hours: an automatic run starts at least n hours after any earlier successful one |
| `Schedule.HoursWindowBound` | app/services/backup.py:1299-1301 | so at most T / n + 1 automatic runs start in a window of T hours, plus one for each that fails in it |
| `Schedule.FailedRunIsRetried` | app/services/backup.py:1165-1182 | a failed automatic run is tried again at the next tick |
| `Schedule.DailyAtMostOnce` | app/services/backup.py:1314-1321 | daily with an hour of at least four: no automatic run starts on the date of an earlier successful one |
| `Schedule.EarlyHourRunsTwice` | app/services/backup.py:1314-1321 | for every earlier hour two successful runs on one date do happen, so four is the exact bound |
| `Schedule.DailyRunsAgainIff` | app/services/backup.py:1314-1321 | exactly, for every hour: a later tick on the date of a run starts another one if and only if nothing has succeeded since or the last success is at least twenty hours old |
| `Schedule.LateHourRunsAgainIff` | app/services/backup.py:1314-1321 | with an hour of at least four exactly when nothing has succeeded since |
| `Schedule.DailyAtMostTwice` | app/services/backup.py:1314-1321 | with any hour: of three automatic runs on one date, the first or the second has failed, so never more than two succeed |
| `WeeklySchedule.ExactlyOneRun` | app/services/backup.py:1303-1312 | with hourly ticks exactly one automatic run happens on every target day |
| `WeeklySchedule.ConsecutiveRuns` | app/services/backup.py:1303-1312 | runs happen on the target weekday only, exactly one week apart |
| `WeeklySchedule.RunDriftsBack` | app/services/backup.py:1303-1312 | a run's time of day is below the later of the hour and the previous time less four hours, plus one tick |
| `WeeklySchedule.RunsDriftBack` | app/services/backup.py:1303-1312 | over m weeks a late start loses m times four hours less a tick |
| `WeeklySchedule.RunsSettle` | app/services/backup.py:1303-1312 | from the eighth week on every run is less than one tick late |
| `NextRun.NextDaily` | app/services/backup.py:1343-1349 | the least configured instant after now |
| `NextRun.NextWeekly` | app/services/backup.py:1353-1358 | the least configured instant after now, always found inside the eight-step loop for a real weekday |
| `NextRun.PromisedRun` | app/services/backup.py:1324-1358 | what the panel promises under each plan |
| `NextRun.PromiseIsKept` | app/services/backup.py:1303-1312 | the promised weekly instant is really due exactly when the run before was at most four hours late |
| `Wrap.HardBreak` | app/rendering/fit.py:72-81 | the character loop for one oversized word |
| `Wrap.WrapLine` | app/rendering/fit.py:51-84 | the word loop, line by line, as a function that is characterised by WrapBreaks.WrappedFollowsRule |
| `Wrap.WrappedLines` | app/rendering/fit.py:51-84 | no line is empty, and each fits or is a single character |
| `Wrap.WrappedContent` | app/rendering/fit.py:51-84 | every character that is not white space is kept, in order |
| `WrapBreaks.OversizedWordIsCut` | app/rendering/fit.py:72-81 | the lines of one oversized word are its pieces in order, and no piece could take the first character of the next |
| `WrapBreaks.OversizedWordsAreCut` | app/rendering/fit.py:61-84 | the same for every oversized word of a text: the pieces are lines of their own and the last one begins a line, given that text in front does not make a word narrower |
| `WrapBreaks.CutIsUnique` | app/rendering/fit.py:72-81 | there is only one way to cut a word so |
| `WrapBreaks.WrappedFollowsRule` | app/rendering/fit.py:51-84 | the wrapper's lines are the only ones that follow the rule: nothing for a blank text, one line for a text that fits, otherwise words join while they fit and oversized ones are cut |
| `WrapOptimal.GreedyIsOptimal` | app/rendering/fit.py:59-84 | when wider phrases are wider and every word fits, no breaking into fitting lines has fewer lines; words may carry white space if leaving it out does not widen a line |
| `WrapOptimal.UntidyExample` | app/rendering/fit.py:61-63 | without that, three lines are used where two would do |
| `WrapOptimal.GreedyIsBreaking` | app/rendering/fit.py:59-84 | the lines take the words in order, each fits and shows its words up to white space |
| `WrapOptimal.GreedyLinesAreBreaking` | app/rendering/fit.py:59-84 | for trimmed words they are themselves such a breaking, so the bound is reached |
| `Fit.TryAt` | app/rendering/fit.py:112-121 | one size: the wrapped lines, the height used and whether they fit |
| `Fit.SearchSize` | app/rendering/fit.py:110-127 | the descending loop is the search from the largest size down |
| `Fit.SearchFindsLargest` | app/rendering/fit.py:110-127 | the search stops at the largest size that fits, and overflows exactly when none does |
| `Fit.FitText` | app/rendering/fit.py:87-127 | overflow exactly when there is text and the padded box is too small or at every size the text is too high or has too many lines; otherwise the text is wrapped inside the padding at the largest size that fits |
| `Fit.FittedTextKept` | app/rendering/fit.py:100-116 | at any size the fitted lines keep all the ink of the source lines in order, and fit the width |
| `Fit.FittedHeight` | app/rendering/fit.py:116-120 | with the rounded height, fitting lines are in truth at most half a pixel too high |
| `Assignments.NothingDropped` | app/rendering/assignments.py:13-43 | at most one line per rule, all items in order, and the dropped count is always zero |
| `Assignments.LinesAreEven` | app/rendering/assignments.py:31-33 | every line but the last holds the number of assignments divided by the number of rules, rounded up |
| `Rendering.DrawDay` | app/rendering/pillow_renderer.py:210-236 | the activity loop of one day as a list of commands, whose cells are those of SheetContent.DaysDraw |
| `Rendering.DrawCells` | app/rendering/pillow_renderer.py:203-236 | the cells of all days, in drawing order |
| `SheetContent.DaysDraw` | app/rendering/pillow_renderer.py:203-236 | what is drawn into one cell is what the activities of that row and slot show, one after the other, and nothing else |
| `SheetContent.CellShowsActivity` | app/rendering/pillow_renderer.py:208-236 | into the cell of an activity its non-blank parts are drawn, stripped, all of them and in order, fitted, the first line bold when there is a subject; an activity without parts draws nothing |
| `SheetContent.OtherCellsAreEmpty` | app/rendering/pillow_renderer.py:208-236 | a cell without an activity stays empty |
| `SheetContent.CellCarriesInk` | app/domain/models.py:54-65 | with a fitting and a normalising that keep ink, a cell carries exactly the ink of subject, topic, description and duration |
| `SheetContent.RowShowsDate` | app/rendering/pillow_renderer.py:172-200 | every dated row shows its own date once, after its mask when dates are masked; an undated row shows none |
| `SheetContent.AssignmentsAreDrawn` | app/rendering/pillow_renderer.py:239-272 | all assignments, sorted by their order and numbered, are joined in at most as many groups as there are rules and fitted; the lines that have a rule are drawn |
| `SheetContent.AssignmentsCarryInk` | app/rendering/assignments.py:13-33 | with a blank separator the drawn lines carry all their ink in order exactly when the lines beyond the last rule carry none |
| `SheetContent.ErrorsMean` | app/services/plan_service.py:114-123 | a sheet is refused exactly when it lacks a student, a proper week, or a dated activity with something to show |
| `Rendering.KeyOrderIsTotal` | app/domain/models.py:327-330 | the order in which the payload lists cells is total, so a listing is determined by its cells |
| `RenderCache.PayloadDeterminesDrawing` | app/domain/models.py:315-339 | sheets with the same payload are drawn with the same commands |
| `RenderCache.PayloadDeterminesDrawingOrder` | app/rendering/pillow_renderer.py:203-236 | and in the same order, for days with one activity per slot in slot order |
| `RenderCache.PayloadIsCanonical` | app/domain/models.py:315-339 | payloads are equal exactly when student, week, assignments and drawn cells agree; order, notes and empty cells do not count |
| `RenderCache.SamePathSameDrawing` | app/services/plan_service.py:165-169 | files of one path show the same drawing, unless the two sheets' payloads collide |
| `RenderCache.PathsDiffer` | app/services/plan_service.py:133-167 | one path means one stem, so one student, date and version, and one hash |
| `RenderCache.RunsServeTheirSheets` | app/services/plan_service.py:157-190 | in every run without collisions each request finds under its path a file that looks like its sheet |
| `RenderCache.CacheExample` | app/services/plan_service.py:165-171 | the hypotheses can be met: two sheets with different files, and the first one then served from the cache |
| `RenderCache.PlanService.Generate` | app/services/plan_service.py:157-190 | the cached branch is taken exactly when the files exist and nothing forces a redraw; without collisions the image always shows the sheet asked for, even in the same order of commands for days in slot order |
| `PlanDomain.SetSlotReplaces` | app/domain/models.py:102-109 | exactly one slot changes, empty cells vanish, slot order and one activity per slot are kept |
| `PlanDomain.RangeFillsRows` | app/domain/models.py:170-189 | a range of at most seven days is a bijection with the dated rows: day i of the range is the row of its true weekday |
| `PlanDomain.LastDateWins` | app/domain/models.py:170-183 | in a range of any length a row gets the last date of its weekday |
| `PlanDomain.RangeIsAccepted` | app/domain/calendar.py:133-144 | which ranges are accepted, which error the others get, and the length of an accepted one |
| `PlanDomain.FilledCounts` | app/domain/models.py:214-215 | the count of a row is the number of its activities that hold something |
| `PlanDomain.SheetIsComplete` | app/domain/models.py:149-156 | the constructor's rows are the seven weekdays in order, with the given rows kept |
| `PlanDomain.WeekCopyKeepsCount` | app/domain/models.py:241-279 | a copied calendar week keeps its number of activities |
| `PlanDomain.RowChangesCount` | app/domain/models.py:213-215 | replacing a row changes the activity count by that row's share, and only if it has a date |
| `PlanDomain.WeeklyPlan.constructor` | app/domain/models.py:149-158 | given rows are kept and missing ones added in weekday order; a given week start snaps to its Saturday and dates every row |
| `PlanDomain.WeeklyPlan.ApplyRange` | app/domain/models.py:170-183 | accepted exactly when it does not end before it starts and is within the limit; then the rows are dated, otherwise only the two dates change |
| `PlanDomain.WeeklyPlan.ApplyWeekStart` | app/domain/models.py:161-168 | snaps to the Saturday of the week |
| `PlanDomain.WeeklyPlan.SetSlotOn` | app/domain/models.py:102-109 | edits one row and no other |
| `PlanDomain.WeeklyPlan.CopyDay` | app/domain/models.py:226-239 | the target row keeps its date, the other rows stay, and the activity count changes by exactly the difference when the target belongs to the plan |
| `PlanDomain.WeeklyPlan.Duplicate` | app/domain/models.py:241-279 | a full week snaps to Saturday and keeps its activity count; any other range starts where asked, keeps its length and rows, and is refused like every other range |
| `PlanStore.StoredPlan.constructor` | app/repositories/repositories.py:337-358 | a new plan is a draft of version 1 with empty days, no assignments and no files |
| `PlanStore.StoredPlan.BumpVersion` | app/repositories/repositories.py:546-553 | afterwards the plan is a draft newer than all its files, of the same version if it was a draft before and of the next one otherwise |
| `PlanStore.StoredPlan.PutCell` | app/repositories/repositories.py:493-506 | the cell is replaced, or deleted when all its texts are blank; a missing day row is an error |
| `PlanStore.StoredPlan.EditSlot` | app/services/plan_manager.py:450-471 | one cell is replaced, or removed when none of its drawn texts holds anything, in a draft; all other cells stay; a missing row is refused and changes nothing |
| `PlanStore.StoredPlan.EmptyDay` | app/services/plan_manager.py:473-481 | one day is empty, all others stay |
| `PlanStore.StoredPlan.DuplicateDay` | app/services/plan_manager.py:483-504 | the target day holds the source day's cells that hold anything, notes included, all other days stay; refused exactly outside the week or when there is no row for existing cells |
| `PlanStore.StoredPlan.CopyPreviousWeek` | app/services/plan_manager.py:506-537 | every stored weekday holds exactly the previous week's cells with something to show, and its assignments are taken over; refused exactly when such a cell has no row |
| `PlanStore.StoredPlan.ReplaceAssignments` | app/repositories/repositories.py:508-512 | every text that holds something is stored, trimmed, none is empty, and storing the stored texts again would change nothing |
| `PlanStore.CleanTextByText` | app/repositories/repositories.py:508-512 | text after text, in order; OneCleanText says what a single text becomes |
| `PlanStore.StoredPlan.MarkGenerated` | app/repositories/repositories.py:514-544 | one record is added, and every file of the current version shows the current content |
| `PlanStore.RunsAreConsistent` | app/repositories/repositories.py:514-553 | over every run file versions never decrease nor exceed the plan's, a draft is newer than its files, and files of one version show the same content |
| `PlanStore.RunsOnlyGrow` | app/repositories/repositories.py:514-553 | over every run the version never decreases and records are only appended |
| `PlanStore.GeneratedPlanIsCurrent` | app/repositories/repositories.py:514-553 | the last files of a generated plan show its current content |
| `PlanFiles.EveryRecordStaysTrue` | app/services/plan_service.py:157-190 | over every run of plans, edits, generations and deletions without collisions: the file each record points to shows the content its version had, whatever is drawn again or reused later |
| `PlanFiles.GeneratedPlansAreCurrent` | app/bot/handlers/advisor.py:1072-1092 | over every such run: while a plan counts as generated and its head is unchanged, the image it points to shows its present content |
| `Throttle.Middleware.Handle` | app/bot/middlewares.py:153-183 | after every event, each window of the past still meets the bound; an accepted event takes one token, and nothing changes for anybody else |
| `Throttle.TokensAreConserved` | app/bot/middlewares.py:174-182 | accepted events plus tokens left never exceed what was held plus what was refilled |
| `Throttle.AcceptedAreBounded` | app/bot/middlewares.py:174-182 | in any window of any run a user's accepted events are at most the burst plus the window over the rate |
| `Throttle.PatientUserPasses` | app/bot/middlewares.py:174-183 | a user whose events are at least `rate` seconds apart is never refused, given a positive burst |
| `Throttle.FirstBurstPasses` | app/bot/middlewares.py:174-183 | until the burst is used up a user is never refused, however fast the events come |
| `Throttle.SuppressedExactly` | app/bot/middlewares.py:160-172 | a heavy action is suppressed exactly when one of the same user and kind passed less than a cooldown before, or while the clock is below the cooldown and none has passed; nothing else is suppressed |
| `Throttle.QuietActionPasses` | app/bot/middlewares.py:160-172 | with a clock past the cooldown, a heavy action not asked for within one cooldown is not suppressed |
| `Throttle.EmptyBurstRefuses` | app/bot/middlewares.py:174-181 | with an empty burst nobody is ever accepted |
| `Throttle.HeavyActionsAreSpaced` | app/bot/middlewares.py:162-172 | two passes of one user's same heavy action are at least one cooldown apart |
| `Throttle.UsersAreIsolated` | app/bot/middlewares.py:148-182 | what a user experiences depends on that user's events only |
| `Accounts.FindTelegram` | app/repositories/repositories.py:35-37 | the row with a Telegram id, if any |
| `Accounts.FindToken` | app/repositories/repositories.py:112-116 | the row with a token, never for a short one |
| `AccountDirectory.Directory.Resolve` | app/bot/middlewares.py:89-134 | a configured id ends up with an active admin account, its row promoted or a new one; for anybody else no account changes, and a visitor is exactly a newcomer, who is queued unless an invitation is opened; nothing else changes |
| `AccountDirectory.Directory.AddStudent` | app/services/plan_manager.py:188-221 | done exactly for an active advisor or an admin with a good name and a free id; then one student row and one link are added, with the Telegram id or an invitation that waits for fourteen days, and every other row, link and request stays |
| `AccountDirectory.Directory.IssueInvite` | app/services/plan_manager.py:226-237 | done exactly for a managed row that is not connected; the row then waits for fourteen days with the new token, its previous one is spent, nothing else changes |
| `AccountDirectory.Directory.Revoke` | app/services/plan_manager.py:239-244 | done exactly for a managed row; its token is spent and nothing else changes |
| `AccountDirectory.Directory.LinkById` | app/services/plan_manager.py:324-339 | done exactly for a managed row and an id that is free or its own; the row is then connected and its token spent, nothing else changes |
| `AccountDirectory.Directory.ClaimInvite` | app/services/plan_manager.py:246-308 | which of the five answers a claim gets; it connects exactly a newcomer with a token some row waits with, that row and no other, and spends the token; anything else changes nothing |
| `AccountDirectory.Directory.Approve` | app/services/plan_manager.py:83-138 | done exactly when an admin grants a role below admin to an open request without account, with an existing guide for a student; one row, at most one link and the request change, and the request cannot be granted twice |
| `AccountDirectory.Directory.AddAdvisor` | app/services/plan_manager.py:158-185 | done exactly when an admin adds a good name with a free id; one advisor is added, a request of that id is closed, nothing else changes |
| `AccountDirectory.Directory.Unlink` | app/services/deletion.py:310-325 | done exactly when an admin disconnects a student row; it keeps role and token, the id is free again, nothing else changes |
| `AccountDirectory.Directory.Reject` | app/services/plan_manager.py:140-155 | done exactly when an admin rejects a request there is; only that request changes |
| `AccountDirectory.Directory.Toggle` | app/bot/handlers/admin.py:518-540 | done exactly when an admin toggles a row without admin power; only that row changes |
| `AccountDirectory.Directory.DetachStudent` | app/services/plan_manager.py:362-369 | done exactly for a managed row; exactly the actor's own link goes |
| `AccountDirectory.Directory.DeleteStudentRow` | app/services/deletion.py:127-174 | done exactly for a student row by an admin, or a linked row by an active user, never for oneself; the row is gone for good with exactly its links, its token spent, its Telegram id free |
| `AccountDirectory.Directory.DeleteAdvisorRow` | app/services/deletion.py:177-266 | done exactly when an admin deletes an advisor without admin power and the target, if any, is another advisor or admin; the row is gone for good, other links stay, and exactly the target gets the students |
| `AccountDirectory.Directory.ReassignStudent` | app/services/deletion.py:284-308 | done exactly when an admin moves a student row to an advisor or admin; the student then has exactly that one, other students' links stay |
| `AccountDirectory.Directory.EditForm` | app/bot/handlers/admin.py:424-452 | done exactly when an admin sets an id that is free or the row's own; only that row's Telegram id changes |
| `AccountRuns.StepKeepsConsistent` | app/services/plan_manager.py:83-369 | every step, deletions, detaching, transfers and the edit form on rows without an invitation included, keeps ids and tokens unique, connected rows without token, and unconnected rows students |
| `AccountRuns.RunsAreConsistent` | app/services/plan_manager.py:246-339 | so does every run; no surviving row's role is lowered, no deleted row comes back, and the folding, already-own and already-linked branches are never reached |
| `AccountRuns.RunsKeepLinks` | app/services/deletion.py:127-308 | over every run links only name accounts that are there |
| `AccountRuns.TokenLinksAtMostOnce` | app/repositories/repositories.py:96-156 | in every run, also across deletions, a token connects at most one account, a spent one none |
| `AccountRuns.ClaimLinksExactlyNewcomers` | app/services/plan_manager.py:265-308 | a claim succeeds exactly for an unknown id outside the admin list and a token that some row waits with |
| `AccountRuns.ClaimConnectsOneStudent` | app/services/plan_manager.py:304-308 | a successful claim connects one student row and changes nothing else |
| `AccountRuns.InviteIsSingleUse` | app/services/plan_manager.py:226-237 | a fresh invitation works for a newcomer in time and then for nobody; the row's previous one stopped working |
| `AccountRuns.EditKeepsConsistentIff` | app/bot/handlers/admin.py:443-452 | the edit form keeps the accounts consistent exactly when it does not connect a row with a pending invitation |
| `AccountRuns.EditExample` | app/bot/handlers/admin.py:443-452 | the condition is not empty: a run of a new system after which the form, used on a waiting student row, would break it |
| `Deletion.Database.DeletePlan` | app/db/models.py:140-151 | a plan goes with its days, activities, assignments and files |
| `Deletion.Database.DeleteUser` | app/db/models.py:73-104 | a user goes with their links and plans; optional references are cleared |
| `Deletion.WithoutUserIsIntact` | app/db/models.py:73-121 | after that every reference finds its row and nothing names the user |
| `Deletion.UnrelatedRowsAreUntouched` | app/services/deletion.py:127-174 | plans with all their parts, links and users that do not involve the deleted user are unchanged |
| `Deletion.CascadeSubsumes` | app/services/deletion.py:147-158 | deleting plans and links by hand first makes no difference to the outcome |
| `Deletion.Database.DeleteStudent` | app/services/deletion.py:127-174 | who may delete whom, exactly; a refusal changes nothing; otherwise nothing names the student, every other user, plan and link is untouched, references are cleared and intact, and the report counts what went |
| `Deletion.DeletionLogIsIntact` | app/services/deletion.py:130-131 | the audit entry is sound, and nothing names the deleted user, exactly when nobody deletes themselves |
| `Deletion.Database.HandOver` | app/services/deletion.py:222-236 | link by link the target gets the advisor's students, without duplicate pairs |
| `Deletion.Database.RemoveByTransfer` | app/services/deletion.py:221-251 | links and plans go to the target before the row is deleted |
| `Deletion.Database.RemoveByDetaching` | app/services/deletion.py:241-251 | the advisor's plans and links are deleted with the row |
| `Deletion.Database.DeleteAdvisor` | app/services/deletion.py:177-266 | who may delete whom, exactly; by transfer the target has the students of both and the plans survive unless they are for the deleted user, by detaching everybody else and their plans stay; other users, requests and backups stay, references stay intact, and the report counts what went |
| `Deletion.TransferKeepsPlans` | app/services/deletion.py:221-251 | by transfer a plan survives exactly when it is not for the deleted user, with all its parts and its author replaced; the target has the students of both; pairs stay unique and nothing names the deleted user |
| `Deletion.StudentPlansSurvive` | app/services/deletion.py:221-251 | when every plan is for a student row, a transfer loses no plan |
| `Deletion.PlanForAdvisorIsLost` | app/services/plan_manager.py:72-80 | an intact database, one permitted step away from one without plans, in which a transfer loses a plan |
| `Deletion.DeletionKeepsOthers` | app/services/deletion.py:241-251 | when a user goes, every other user stays, and exactly the plans that do not name the user, with all their parts |
| `Deletion.Database.TransferStudent` | app/services/deletion.py:284-308 | done exactly when an admin moves a student row to an advisor or admin; the target gets the student, every other advisor loses them, nothing else changes and the references stay intact |
| `Deletion.ReassignedHasOneAdvisor` | app/services/deletion.py:295-300 | the student then has exactly the new advisor, and nobody else's students change |

## Left out

- Telegram handlers, keyboards, message texts and delivery retries, apart from the suspension and the edit form of the admins.
- Sessions, pooling, migrations, `pg_dump`, `psql`, `pg_restore` and locks: a handler's transaction is one atomic step,
  and nothing is claimed about two replicas (the due check happens before the lock and is not repeated under it).
- Floats, decimals and date-times as dumped values, and the SQLite branch of the dump: the literals are PostgreSQL's.
- The reader accepts the fragment of SQL that INSERT statements of constants use; numeric and Unicode escapes and
  constants continued after a newline are refused rather than read.
- Statements outside the data section are values with a meaning, not text; the target of a restore holds only tables of
  the dumped catalogue, so TRUNCATE ... CASCADE reaches no other table. Constraints and triggers are off while loading.
- Gzip, tar, JSON, the text of the README and of the manifest's comments, and SHA-256: functions with the laws they need.
  Bytes are viewed as characters.
- The Jalali calendar: dates are day numbers. `from_dict`, which snaps custom ranges to Saturday again, is left out.
- Font metrics, text shaping, pixels, PDF output and the HTML renderer: a width function and drawing commands. Heights,
  widths and the throttle's clock are real numbers, so floating-point rounding is not modelled.
- Storage paths, log redaction and removal or loss of generated files on disk.
- Names of students and advisors and their length and uniqueness checks: the outcome of the check is a parameter.
- Concurrent edits of one plan while it is being rendered.
- Any plan may be marked as sent, also an edited draft, as in the source; no promise is made about when that happens.
- The keywords the dumper quotes and the keywords the server reserves are taken to be the same set.
- Sequences count upwards from 1 to a greatest value, as those of serial columns do. Columns that draw from a sequence
  without being the table's serial key, for which the script repeats the default and so needs the sequence to exist, are
  left out, as are names cut off at 63 bytes and names taken by indexes.
- Command-line additions: tools/manage.py:132-139 can create an advisor row without a Telegram id, which is none of the
  modelled steps.
- The service's fallback renderer, whose image is stored under the path of the primary renderer, is left out; a naming
  has one renderer per template version.
- WrapOptimal.GreedyIsOptimal: every word fits on a line of its own; where oversized words are cut is what WrapBreaks states.
- Schedule.DailyAtMostTwice: does not bound the runs of a date on which runs keep failing, because each failure is retried at the next tick; when each of them starts is what DailyRunsAgainIff states.
- RenderCache.PlanService.Generate: the template and font files on disk and the overflow warnings of the validation are not modelled, and the image and the print file are written in one step.
- AccountDirectory.Directory.ClaimInvite: the actor is looked up by Telegram id inside the step, as the middleware does; the audit rows and user names are omitted.
- WeeklySchedule.ExactlyOneRun: runs are automatic, successful and instantaneous, since a manual run moves the recorded last run and a failed run is retried at the next tick.
- PlanDomain.WeeklyPlan.SetSlotOn: the activities of a row are values, so aliasing between activity objects is not captured; activity ids are omitted.
- Deletion.Database.DeleteUser: foreign keys are enforced as on PostgreSQL; the application does not enable them on SQLite.
- Deletion.Database.DeleteStudent: an audit row's plain student number is not a reference and is not part of the model.
