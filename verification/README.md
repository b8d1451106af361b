# A Dafny model of Slipbox's core logic

Slipbox indexes a folder of Org notes and serves queries over them. This project
models the parts of it where a small slip changes what users see or lose, and
proves what those parts promise, for all inputs and over whole runs:

- **Calendar, dates and spaced repetition** (`Calendar`, `IsoDate`, `Scheduler`).
  Day counts and civil dates as mutual inverses over every integer, with the
  original's truncating division; the text layer over them; the SM-2 schedule
  over any sequence of grades. Ease is kept in integer hundredths: every change
  the schedule makes to it is a whole number of hundredths.
- **Occurrence search** (`TextLines`, `OccurrenceIndexing`, `Occurrences`). The text
  the indexer stores, the paged loop with its two forward-only cursors against a flat
  specification, and when what that reports is true.
- **Sessions** (`SessionTable`, `SessionRegistry`, `SessionThreads`, `JniSeam`).
  The handle table on values; the registry object that updates it in place;
  calls racing a retirement, as interleaved small steps; the JNI entry point
  that must not lose a session whose answer it could not deliver.
- **Workflows and manifests** (`Workflow`, `WorkflowExecution`, `BuiltInWorkflows`,
  `ReportProfiles`, `PackManifest`).
  The checks as decision procedures for declarative scoping and closure rules,
  and the executor, which those checks keep from ever meeting a reference that
  does not resolve.
- **Review runs** (`ReviewRuns`, `ReviewDiff`). When a run is valid, and the
  partition, patch, mirror and balance laws of the difference between two.
- **Source identity** (`Splitting`, `SourceKeys`, `RemoteUrls`, `SourceRecords`).
  Storage keys and remote URLs as exact codecs for a stated grammar, and records
  under any history of changes.
- **Small protocols** (`OperationTable`, `GitOperations`, `Framing`, `RpcClient`).
  The bounded table of cancellable operations, message framing, and the
  correlation of answers with requests over a first-in first-out pipe.

`Basics` and `Text` hold what these share. What changes state in the original is a
class or a loop here, specified by functions on values; the laws are lemmas about
those functions. Text is a sequence of Unicode scalars and bytes are integers.

## What the code does that its surroundings might not lead one to expect

- A date whose year has more than four digits no longer parses, and sorts by the
  first four (`IsoDate.LongYearsSortEarly`), so `add_days` composes exactly when the
  intermediate date still parses (`IsoDate.AddDaysComposes`), and a card passed on
  the last day of year 9999 is due again that day (`Scheduler.LastDayComesBack`).
  Years from -999 to 9999 do parse back: "-005" fills four columns.
- `line_start_offsets` works on lines with their `\r` already stripped, and the
  indexer does store `\r\n`: a source line ended by `\r\r\n` loses one carriage
  return when it is read and gets a line feed back when it is joined. Matches after
  such a line panic or are reported too far down or right
  (`Occurrences.ReportedTruly`; `Occurrences.TwiceReturnedPanics` and
  `Occurrences.TwiceReturnedIsLate` are such searches).
- Ports are read as the standard library reads unsigned numbers, so `+443` is a
  port, and is normalized away.
- One answer a client leaves in the pipe makes every later call a mismatch: the
  client never drains the pipe (`RpcClient.AnsweredUnlessBehind`). A torn request
  swallows the next one (`Framing.TornFrameSwallows`), and a read that stops inside an
  answer leaves every later read inside one (`Framing.ReadInsideFails`,
  `RpcClient.CutAnswersNothing`).
- A relocation and a replaced credential of the same account are reported as
  keeping everything: what a change is said to keep follows from branch, folder
  and account alone (`SourceRecords.KeptSaysWhatChanged`).

## Model

| member | source | states |
|---|---|---|
| `Calendar.CivilFromDaysIsReal` | crates/slipbox-core/src/glossary.rs:220-248 | every integer day count is a real proleptic-Gregorian date, and counting that date's days gives the count back |
| `Calendar.CivilFromDaysFromCivil` | crates/slipbox-core/src/glossary.rs:220-248 | every real date of every year, negative ones too, survives the trip through its day count |
| `Calendar.CivilFromDaysSteps` | crates/slipbox-core/src/glossary.rs:231-248 | one day more is the Gregorian next day, by month lengths and the 4/100/400 rule |
| `Calendar.DaysFollowCalendarOrder` | crates/slipbox-core/src/glossary.rs:220-229 | day counts order real dates exactly as year, month and day do, and tell them apart |
| `Calendar.NextDayCountsOne` | crates/slipbox-core/src/glossary.rs:220-229 | the next day is a real date one count later |
| `Calendar.EpochIsDayZero` | crates/slipbox-core/src/glossary.rs:231-248 | the count starts at 1 January 1970 |
| `Calendar.DaysAreLinearInDay` | crates/slipbox-core/src/glossary.rs:220-229 | a day past the end of its month counts on, for any year, month and day |
| `IsoDate.ParseOfIsoText` | crates/slipbox-core/src/glossary.rs:193-217 | printed dates parse back exactly when the year is between -999 and 9999, and otherwise do not parse |
| `IsoDate.ParsesExactly` | crates/slipbox-core/src/glossary.rs:204-217 | a text parses exactly when it is four characters, two and two with dashes between, each a number, signs included, and month and day in range |
| `IsoDate.IsoTextInjective` | crates/slipbox-core/src/glossary.rs:193-201 | no two dates are printed alike |
| `IsoDate.AddDaysCounts` | crates/slipbox-core/src/glossary.rs:193-201 | adding days to any text that parses, as a real date or not, prints a real date that many day counts on |
| `IsoDate.AddDaysComposes` | crates/slipbox-core/src/glossary.rs:193-217 | adding in two steps equals adding at once exactly when the text does not parse, the middle date's year parses back, or nothing is added second |
| `IsoDate.TextOrderIsDayOrder` | crates/slipbox-core/src/glossary.rs:114-122 | real dates of any years sort by the digits of their years, then by month and day: string order agrees with day order exactly when those digits sort as the years do, which among parseable years fails only for two different negative ones |
| `IsoDate.LongYearsSortEarly` | crates/slipbox-core/src/glossary.rs:114-122 | a date of any year past 9999 is later than every date whose text parses, but sorts before it exactly when the first four digits of its year are below the other year |
| `Scheduler.GradedShape` | crates/slipbox-core/src/glossary.rs:161-187 | after any grades: ease is at least 1.3, repetitions count the trailing passes, the interval is 1, then 6, then strictly grows |
| `Scheduler.GradeMoves` | crates/slipbox-core/src/glossary.rs:161-187 | for any quality whatever: below three resets, three and above counts on and gives 1, 6 and then the rounded product; ease moves by its quality's step down to 1.3; and the day and due date are written |
| `Scheduler.PassesFromThree` | crates/slipbox-core/src/glossary.rs:161-172 | a grade is a pass exactly from three on |
| `Scheduler.GradedInOrder` | crates/slipbox-core/src/glossary.rs:161-187 | a history is graded one grade after the other from a new card on, and the last day is the last grade's |
| `Scheduler.HeldBackByDueDate` | crates/slipbox-core/src/glossary.rs:114-122 | a card is not due exactly when it was passed last and its due date sorts after the day |
| `Scheduler.LapseRestarts` | crates/slipbox-core/src/glossary.rs:161-187 | after any history a lapse resets the card, and the next two passes give 1 and 6 days |
| `Scheduler.EaseBound` | crates/slipbox-core/src/glossary.rs:161-187 | n grades raise ease to at most 2.5 + 0.1 n |
| `Scheduler.IntervalBound` | crates/slipbox-core/src/glossary.rs:161-187 | n grades lengthen the interval to at most 6 (3 + n/10)^n days |
| `Scheduler.TwentyGradesFit` | crates/slipbox-core/src/glossary.rs:161-201 | for up to twenty grades the interval product and the date sum fit in 64 bits |
| `Scheduler.CardReturns` | crates/slipbox-core/src/glossary.rs:114-187 | when a card graded on any real day is due on any other, exactly: at once after a lapse; after a pass from its due date on where the two dates' texts sort as dates, and exactly before it elsewhere |
| `Scheduler.DueIsLater` | crates/slipbox-core/src/glossary.rs:114-201 | every grade, a lapse too, sets a due date as many days later as the interval, exactly when the day's text parses, and leaves it at that day otherwise; and when its text says so |
| `Scheduler.LastDayComesBack` | crates/slipbox-core/src/glossary.rs:114-187 | a card passed on 31 December 9999 is due again that same day, though its due date is the next |
| `Occurrences.QueryOccurrences` | crates/slipbox-engine/src/occurrences_query.rs:18-83 | the search answers the first `limit` records, clamped, of the flat specification, or panics when one of those does; for any stored text |
| `Occurrences.ScanDocument` | crates/slipbox-engine/src/occurrences_query.rs:43-79 | one document contributes its records in order, up to the limit or the first panic |
| `Occurrences.ReportMatch` | crates/slipbox-engine/src/occurrences_query.rs:53-71 | a match's record and the cursors' new places are those of a fresh search |
| `Occurrences.RecordIs` | crates/slipbox-engine/src/occurrences_query.rs:53-71 | what is reported of a match, field by field, and exactly when its column cannot be cut |
| `Occurrences.AdvanceLine` | crates/slipbox-engine/src/occurrences_query.rs:53-60 | the line cursor lands where a fresh search for the last kept offset at or before the match would |
| `Occurrences.ResolveOwningAnchor` | crates/slipbox-engine/src/occurrences_query.rs:95-104 | the anchor cursor lands where a fresh search for the last anchor at or before the row would |
| `Occurrences.LineStartOffsets` | crates/slipbox-engine/src/occurrences_query.rs:85-93 | each start is the sum of the earlier lines and their line feeds |
| `TextLines.OffsetsDriftByCarriageReturns` | crates/slipbox-engine/src/occurrences_query.rs:85-93 | computed starts fall short of the true ones by the carriage returns stripped before them, and are right exactly when there were none |
| `TextLines.LineBeginsAtOrBefore` | crates/slipbox-engine/src/occurrences_query.rs:53-60 | a line begins at or before a position exactly when that many newlines precede it |
| `Occurrences.OwnerCovers` | crates/slipbox-engine/src/occurrences_query.rs:95-104 | an anchor is at or before the row exactly when the owner is that anchor or a later one |
| `TextLines.PrefixOfLine` | crates/slipbox-engine/src/occurrences_query.rs:58-66 | what comes before a match in its line is the text from where that line really begins |
| `TextLines.CharCountIsCharacters` | crates/slipbox-engine/src/occurrences_query.rs:62-66 | the characters counted in UTF-8 bytes are the scalars the bytes were encoded from |
| `TextLines.KeepsReturnWhenTwice` | crates/slipbox-index/src/lib.rs:106 | a line read from a source keeps a carriage return exactly when the source line ended in two and a line feed |
| `OccurrenceIndexing.IndexDocument` | crates/slipbox-index/src/lib.rs:105-261 | the indexer keeps the visible, non-blank lines with their rows, joined by line feeds, and stores nothing when there are none |
| `OccurrenceIndexing.StoredRows` | crates/slipbox-index/src/lib.rs:224-261 | a stored text has one row for each of its lines, strictly ascending |
| `OccurrenceIndexing.StoredRowsAreShown` | crates/slipbox-index/src/lib.rs:224-261 | the rows stored are exactly those of the lines that are shown and not blank |
| `OccurrenceIndexing.StoredLines` | crates/slipbox-index/src/lib.rs:224-261 | each line of a stored text is, whole, the line of the source its row names |
| `OccurrenceIndexing.JoinedLinesBegin` | crates/slipbox-index/src/lib.rs:253-261 | joined lines are read back in the same number, each beginning where the lengths of those before it say |
| `OccurrenceIndexing.StoredIsQuiet` | crates/slipbox-index/src/lib.rs:224-261 | a stored text has no carriage return before a line feed exactly when no kept line but the last ended in two in the source |
| `Occurrences.ReportedTruly` | crates/slipbox-engine/src/occurrences_query.rs:43-79 | a match is reported with its true row, column and preview exactly when no earlier stored line ended in a carriage return |
| `Occurrences.DriftMovesMatch` | crates/slipbox-engine/src/occurrences_query.rs:53-71 | otherwise the search panics, or reports it in a later row or a later column |
| `Occurrences.QuietSearchIsTrue` | crates/slipbox-engine/src/occurrences_query.rs:18-83 | where no stored text has a carriage return before a line feed, the answer is exactly the first `limit` true occurrences |
| `Occurrences.TwiceReturnedIsStored` | crates/slipbox-index/src/lib.rs:224-261 | what is stored of a source whose first line ends in two carriage returns |
| `Occurrences.TwiceReturnedGoesWrong` | crates/slipbox-engine/src/occurrences_query.rs:53-71 | in it a match that begins with an accented letter panics, and the match after that letter is reported a column late and otherwise right |
| `Occurrences.TwiceReturnedPanics` | crates/slipbox-engine/src/occurrences_query.rs:18-83 | a search whose one match in that text begins with the letter comes to nothing but a panic, at every limit |
| `Occurrences.TwiceReturnedIsLate` | crates/slipbox-engine/src/occurrences_query.rs:18-83 | a search whose one match comes after the letter answers one record, its column one too far |
| `Occurrences.LineAtCovers` | crates/slipbox-engine/src/occurrences_query.rs:53-60 | a kept offset is at or before a position exactly when the position is put in that line or a later one |
| `Occurrences.FlatPrefix` | crates/slipbox-engine/src/occurrences_query.rs:32-42 | what fewer paths answer is a prefix of what more paths answer |
| `SessionTable.StepMovesOne` | crates/slipbox-android/src/adapter.rs:143-359 | a step changes which identities are open exactly as it reports, and only the next identity can come in |
| `SessionTable.StepKeepsInv` | crates/slipbox-android/src/adapter.rs:167-359 | open identities stay allocated, ascending, and at most eight |
| `SessionTable.OpeningsBalanceRetirements` | crates/slipbox-android/src/adapter.rs:143-359 | over any run each identity is opened at most once, and is open or was reported retired once |
| `SessionTable.AtMostOneRetirement` | crates/slipbox-android/src/adapter.rs:244-294 | over any run at most one close or abandon of an identity reports a retirement, and then it is gone |
| `SessionTable.RetiredStaysRetired` | crates/slipbox-android/src/adapter.rs:296-359 | an identity that left the table never comes back and is answered as retired from then on |
| `SessionTable.OthersAreUntouched` | crates/slipbox-android/src/adapter.rs:244-294 | a step leaves every session it does not report retired findable as before |
| `SessionTable.LostAnswerIsRetired` | crates/slipbox-android/src/adapter.rs:244-294 | whatever other callers do between an opening and the abandoning of its undelivered answer, its identity is gone from then on and every other stands as its own operations left it |
| `SessionTable.AbandonTakesOne` | crates/slipbox-android/src/adapter.rs:278-294 | an abandoned identity is gone, and any other is found or not as before |
| `SessionTable.LookupFindsItsOwn` | crates/slipbox-android/src/adapter.rs:296-310 | a read or maintenance call reaches a session exactly when the table holds one of that identity, capability and binding |
| `SessionTable.LookupRefuses` | crates/slipbox-android/src/adapter.rs:296-310 | which ground a call is refused on: never handed out, retired, another capability, another binding |
| `SessionTable.CloseNeedsItsBinding` | crates/slipbox-android/src/adapter.rs:244-273 | closing retires exactly the session of that identity and binding, refuses another binding, answers a retired identity as such, and knows no identity never handed out |
| `SessionTable.OpensExactlyWhen` | crates/slipbox-android/src/adapter.rs:167-205 | what it takes to open a session, which one it is, and that a refused open changes no session and uses up an identity exactly when the engine failed |
| `SessionTable.OpenRefuses` | crates/slipbox-android/src/adapter.rs:167-205 | the first ground an open is refused on, each exactly |
| `SessionTable.OpenedIsReached` | crates/slipbox-android/src/adapter.rs:167-205 | a session just opened is reached exactly by calls that name the capability and binding it was opened with |
| `SessionTable.RemovedIdentity` | crates/slipbox-android/src/adapter.rs:244-294 | removing a session removes its identity and no other |
| `SessionTable.AddedIdentity` | crates/slipbox-android/src/adapter.rs:167-205 | adding a session adds the next identity and no other |
| `SessionRegistry.Registry.Open` | crates/slipbox-android/src/adapter.rs:167-205 | the registry after an open, and its answer, are those of the table function; the new session is fresh |
| `SessionRegistry.Registry.Allocate` | crates/slipbox-android/src/adapter.rs:328-343 | an identity is the next one, unless sessions or identities are exhausted |
| `SessionRegistry.Registry.Find` | crates/slipbox-android/src/adapter.rs:349-359 | the loop finds the first session of an identity |
| `SessionRegistry.Registry.Close` | crates/slipbox-android/src/adapter.rs:244-273 | closing is the table function, and retires the session object it removed |
| `SessionRegistry.Registry.Abandon` | crates/slipbox-android/src/adapter.rs:278-294 | abandoning is the table function, and retires the session object it removed |
| `SessionRegistry.Registry.Remove` | crates/slipbox-android/src/adapter.rs:244-294 | removing in place removes one session object and keeps the order of the others |
| `SessionRegistry.Session.Retire` | crates/slipbox-android/src/adapter.rs:409-415 | retiring refuses further work, and releases the engine unless a call holds it |
| `SessionThreads.RunKeepsInv` | crates/slipbox-android/src/adapter.rs:376-415 | in every interleaving the lock, the retirement and the engine's release stay consistent |
| `SessionThreads.OneCallerUnderTheLock` | crates/slipbox-android/src/adapter.rs:376-397 | a thread past the second check holds the lock, alone, and the engine is not released |
| `SessionThreads.EntersOnlyPastTheCheck` | crates/slipbox-android/src/adapter.rs:376-397 | the engine is entered only after re-reading the flag as false under the lock |
| `SessionThreads.AfterRetirement` | crates/slipbox-android/src/adapter.rs:376-415 | once the flag is stored, at most the one call already past the check enters or completes, in every continuation |
| `SessionThreads.EngineOutlivesCalls` | crates/slipbox-android/src/adapter.rs:376-415 | the engine exists while a call is past the check, and is gone once the session is retired and everybody returned, whoever dropped it |
| `SessionThreads.ReleasedForGood` | crates/slipbox-android/src/adapter.rs:376-415 | once released, by the retirement or by the last holder, the engine stays so and is not entered again |
| `SessionThreads.ReturnsTellWhy` | crates/slipbox-android/src/adapter.rs:376-415 | in every interleaving a call ends unanswered only on a retired session, and a retirement leaves the engine only where it is in use |
| `SessionThreads.LogsAreExact` | crates/slipbox-android/src/adapter.rs:376-397 | entering the engine and coming back from it are logged exactly when they happen |
| `SessionThreads.NothingSticks` | crates/slipbox-android/src/adapter.rs:376-415 | in every reached state a thread on its way comes nearer its end by each step, but for a lock another thread holds |
| `SessionThreads.CallCompletes` | crates/slipbox-android/src/adapter.rs:376-397 | from every reached state a call finds the session exactly while it is in the table, and left alone is answered once and changes nothing else |
| `SessionThreads.RetirementCompletes` | crates/slipbox-android/src/adapter.rs:409-415 | from every reached state a retirement that finds the lock free drops the engine |
| `SessionThreads.EveryCallIsAnswered` | crates/slipbox-android/src/adapter.rs:376-397 | in every interleaving, until the session is retired, every call begun has been answered or is on its way |
| `JniSeam.ReadRequest` | crates/slipbox-android/src/jni_seam.rs:531-566 | what is made of a request, in the order the failures are looked for, never asking JNI while an exception is pending |
| `JniSeam.ArgumentSays` | crates/slipbox-android/src/jni_seam.rs:531-566 | when a request is read, refused for being null or too long, or given up, each exactly |
| `JniSeam.NewByteArray` | crates/slipbox-android/src/jni_seam.rs:663-682 | an array is returned exactly when nothing failed, and holds exactly the bytes |
| `JniSeam.ServeOpen` | crates/slipbox-android/src/adapter.rs:75-102 | a session is created exactly when the request decodes, suits, fits and its opening can be written, and that opening is the answer; otherwise the answer is a refusal that names its ground |
| `JniSeam.OpenAnswerSays` | crates/slipbox-android/src/adapter.rs:75-102 | a request is admitted with the one opening of the next identity, or refused on the decoder's ground, the table's, or that the opening cannot be written |
| `JniSeam.Retract` | crates/slipbox-android/src/adapter.rs:278-294 | retiring the session just opened leaves the sessions as they were before |
| `JniSeam.Opened` | crates/slipbox-android/src/jni_seam.rs:497-515 | whatever the JVM does, a session is left exactly when the array that names it is returned; and with a JVM that reports lengths truly, exactly when the request was read and admitted and the JVM takes the opening |
| `JniSeam.AbandonedLeavesNothing` | crates/slipbox-android/src/adapter.rs:278-294 | abandoning the session just opened puts the table's sessions back as they were |
| `Workflow.ValidationError` | crates/slipbox-core/src/workflow.rs:376-424 | a specification passes exactly when it meets the scoping rules, and an error names the first rule broken |
| `Workflow.StepFieldsAre` | crates/slipbox-core/src/workflow.rs:291-362 | what makes a step well formed by itself, in terms of the characters of its names |
| `Workflow.HeaderFieldsAre` | crates/slipbox-core/src/validation.rs:173-235 | what makes metadata and an input well formed, in the same terms |
| `Workflow.ScopeIs` | crates/slipbox-core/src/validation.rs:925-1029 | what each kind of step may refer to, by position |
| `Workflow.InputAssignmentsError` | crates/slipbox-core/src/workflow.rs:426-466 | assignments pass exactly when every declared input is assigned once, concretely, and nothing else is |
| `Workflow.AssignmentFieldsAre` | crates/slipbox-core/src/workflow.rs:81-106 | what makes an assignment well formed by itself |
| `Workflow.BlameIsUnique` | crates/slipbox-core/src/workflow.rs:376-424 | the first broken rule of a specification is one rule, so the error is determined |
| `Workflow.AssignmentBlameIsUnique` | crates/slipbox-core/src/workflow.rs:426-466 | the first broken rule of assignments is one rule |
| `Workflow.ReferencesAreScope` | crates/slipbox-core/src/validation.rs:980-1029 | the lookup in what was seen so far is the declarative reference to an earlier step or a declared input |
| `Workflow.StepReferenceIsEarlier` | crates/slipbox-core/src/validation.rs:924-950 | a step reference resolves exactly when an earlier step has the identifier and the kind |
| `Workflow.InputReferenceIsDeclared` | crates/slipbox-core/src/validation.rs:952-978 | an input reference resolves exactly when an input is declared, with the kind where one is asked for |
| `WorkflowExecution.Execute` | crates/slipbox-engine/src/handlers/query/assets/workflows.rs:159-408 | a run reports for each step what the step means, or fails with the first rule the specification or the assignments break, or for a refused query, never for a reference |
| `WorkflowExecution.StopsOnlyWhereRefused` | crates/slipbox-engine/src/handlers/query/assets/workflows.rs:159-408 | a run that passes its checks stops at a step only where the engine refused a query of that step |
| `WorkflowExecution.ResolvesTarget` | crates/slipbox-engine/src/handlers/query/assets/workflows.rs:187-226 | what a resolve step of a run reports: the note of its target, an assigned one asked for by the kind of its input |
| `WorkflowExecution.ExploresFocus` | crates/slipbox-engine/src/handlers/query/assets/workflows.rs:227-287 | what an explore step of a run reports, from which focus, with its own settings |
| `WorkflowExecution.ComparesRunsAndSaves` | crates/slipbox-engine/src/handlers/query/assets/workflows.rs:288-395 | what the other steps of a run report: the notes compared, the artifact run, and what was saved of which earlier step |
| `WorkflowExecution.RunStep` | crates/slipbox-engine/src/handlers/query/assets/workflows.rs:184-405 | a step's state is what the step means; it fails only when nothing would be |
| `WorkflowExecution.RunResolve` | crates/slipbox-engine/src/handlers/query/assets/workflows.rs:187-226 | an input resolves by its declared kind to its assigned, concrete target |
| `WorkflowExecution.RunExplore` | crates/slipbox-engine/src/handlers/query/assets/workflows.rs:227-287 | the focus explored is the key given, the assigned focus target, or the node an earlier step resolved |
| `WorkflowExecution.RunCompare` | crates/slipbox-engine/src/handlers/query/assets/workflows.rs:288-327 | the notes compared are those two earlier steps resolved, left and right |
| `WorkflowExecution.RunSave` | crates/slipbox-engine/src/handlers/query/assets/workflows.rs:337-395 | what is saved is what the named earlier step explored or compared |
| `WorkflowExecution.MapsAnswer` | crates/slipbox-engine/src/handlers/query/assets/workflows.rs:171-180 | the maps built from checked inputs answer for every input, with the one target bound to it |
| `WorkflowExecution.OneRun` | crates/slipbox-engine/src/handlers/query/assets/workflows.rs:159-408 | what a specification means is unambiguous: runs of equal length agree |
| `PackManifest.Issues` | crates/slipbox-core/src/validation.rs:614-765 | the issues are exactly the defects, in the order of the manifest's parts and each as often as it is found, and there are none exactly when the manifest is closed |
| `PackManifest.DefectFreeIsClosed` | crates/slipbox-core/src/validation.rs:614-922 | no defect exactly when non-empty, valid part by part, identifiers unique, and every reference resolving |
| `PackManifest.WorkflowIssues` | crates/slipbox-core/src/validation.rs:644-693 | exactly the invalid and duplicate workflows are reported, in order, and the table answers for exactly the workflows identifiers name |
| `PackManifest.ProfileIssues` | crates/slipbox-core/src/validation.rs:695-715 | exactly the invalid and duplicate report profiles are reported, in order |
| `PackManifest.RoutineIssues` | crates/slipbox-core/src/validation.rs:717-756 | exactly the invalid, duplicate and badly referring routines are reported, in order |
| `PackManifest.ReferenceIssues` | crates/slipbox-core/src/validation.rs:779-829 | a routine's references are reported exactly when its workflow is missing, its inputs differ, or a profile is missing |
| `PackManifest.RoutineInputsMatch` | crates/slipbox-core/src/validation.rs:831-870 | the two one-way passes accept exactly equal sets of identifiers with kinds |
| `PackManifest.SignaturesPairUp` | crates/slipbox-core/src/validation.rs:831-870 | between distinct inputs that is a kind-preserving bijection |
| `PackManifest.MissingProfiles` | crates/slipbox-core/src/validation.rs:810-829 | a profile a routine names, in its comparison or its list, is reported exactly when the manifest lacks it, once for each time it is named |
| `PackManifest.EntrypointIssues` | crates/slipbox-core/src/validation.rs:887-922 | exactly the malformed, repeated and missing entrypoints are reported, in order, malformed ones only as such |
| `PackManifest.RoutineIsValid` | crates/slipbox-core/src/routine.rs:204-214 | a routine passes exactly when its fields, inputs, policies and profile list meet the rules |
| `PackManifest.PoliciesAre` | crates/slipbox-core/src/routine.rs:67-200 | what makes a routine's source, save and comparison valid |
| `PackManifest.SourceCloses` | crates/slipbox-core/src/validation.rs:785-808 | in a closed manifest a routine's source has no defect exactly when it is one workflow whose inputs pair off with its own |
| `BuiltInWorkflows.ShippedIsSound` | crates/slipbox-core/src/workflow.rs:477-851 | the five built-in workflows pass the checks, under distinct identifiers |
| `BuiltInWorkflows.SweepsAreWellScoped` | crates/slipbox-core/src/workflow.rs:506-780 | any workflow that resolves its focus first and explores from it passes |
| `BuiltInWorkflows.ComparisonsAreWellScoped` | crates/slipbox-core/src/workflow.rs:782-851 | any workflow that resolves its two notes first and compares them passes |
| `ReportProfiles.ProfileIsValid` | crates/slipbox-core/src/reports.rs:214-224 | a profile passes exactly when its metadata, subjects, filters, buckets and line kinds meet the rules |
| `ReportProfiles.LinesAreGood` | crates/slipbox-core/src/validation.rs:500-545 | line kinds pass exactly when they are distinct and each can be reported by a subject in the mode |
| `ReportProfiles.LinesOfSubjects` | crates/slipbox-core/src/reports.rs:53-184 | which lines each subject reports, which are detail, and which subjects have statuses |
| `ReportProfiles.LabelsRoundTrip` | crates/slipbox-core/src/reports.rs:117-156 | labels are read back as the kinds they name, and any text is the label of what it is read as |
| `ReportProfiles.LabelTellsApart` | crates/slipbox-core/src/validation.rs:500-545 | comparing labels finds exactly the repeated kinds |
| `ReportProfiles.SummaryLines` | crates/slipbox-core/src/validation.rs:500-545 | a valid summary profile selects no detail lines |
| `ReviewRuns.ValidationError` | crates/slipbox-core/src/review.rs:671-712 | a run passes exactly when it is valid; otherwise its metadata is blamed, then its origin, then the first finding that spoils it |
| `ReviewRuns.OriginIsValid` | crates/slipbox-core/src/validation.rs:1031-1077 | a run's origin passes exactly when its inputs and step identifiers are well formed, distinct and as many as declared |
| `ReviewRuns.OriginsAre` | crates/slipbox-core/src/validation.rs:1031-1077 | what makes an origin valid, part by part |
| `ReviewRuns.FindingsAre` | crates/slipbox-core/src/validation.rs:1079-1100 | what makes a finding valid and of its run |
| `ReviewRuns.FindingsFitSteps` | crates/slipbox-core/src/validation.rs:1079-1100 | a valid run of a workflow has at most one finding for each step |
| `ReviewDiff.Between` | crates/slipbox-core/src/review.rs:785-854 | two valid runs of one source give a difference that summarizes both and says what each bucket holds; otherwise which of them is at fault, and for what |
| `ReviewDiff.BucketsSay` | crates/slipbox-core/src/review.rs:806-836 | unaltered pairs are equal, content changes keep the status and change the content, and status changes go from one status to another |
| `ReviewDiff.BucketOfPair` | crates/slipbox-core/src/review.rs:806-836 | two findings of one identifier are in the bucket of what differs between them, and in no other |
| `ReviewDiff.OnlyOnOneSide` | crates/slipbox-core/src/review.rs:832-842 | a finding is added or removed exactly when the other run has none of its identifier |
| `ReviewDiff.CompatibleIsEquivalence` | crates/slipbox-core/src/review.rs:856-922 | comparable origins form families: exactly of one audit and limit, or of one workflow identifier, step count, inputs and steps |
| `ReviewDiff.FromFindings` | crates/slipbox-core/src/review.rs:129-142 | the loop counts each status, and the counts add up to the findings |
| `ReviewDiff.CountIsHowMany` | crates/slipbox-core/src/review.rs:129-142 | a status is counted as often as findings have it |
| `ReviewDiff.InOrder` | crates/slipbox-core/src/review.rs:795-804 | the findings, in strictly ascending order of identifier |
| `ReviewDiff.SortTarget` | crates/slipbox-core/src/review.rs:806-836 | each finding of the target lands in the one bucket it belongs to, in order |
| `ReviewDiff.Absent` | crates/slipbox-core/src/review.rs:838-842 | exactly the findings the other run lacks, in order |
| `ReviewDiff.DiffIsUnique` | crates/slipbox-core/src/review.rs:785-854 | the specification leaves nothing of a difference to choice |
| `ReviewDiff.BucketsPartition` | crates/slipbox-core/src/review.rs:785-854 | added and paired findings make up the target, removed and paired ones the base, and no identifier is in two buckets |
| `ReviewDiff.PatchReachesTarget` | crates/slipbox-core/src/review.rs:785-854 | applying a difference to the base gives the target |
| `ReviewDiff.SwapMirrors` | crates/slipbox-core/src/review.rs:785-854 | the difference the other way round is the mirror of this one, and nothing else is |
| `ReviewDiff.StatusesBalance` | crates/slipbox-core/src/review.rs:129-142 | status by status, what the base has, gains and turns into it equals what the target has, loses and turns from it |
| `ReviewDiff.TargetIsItsSides` | crates/slipbox-core/src/review.rs:806-836 | the target's findings, with multiplicity, are those added and those on the target side of the pairs |
| `SourceKeys.Mint` | crates/slipbox-core/src/source_identity.rs:37-45 | an identity is 32 hexadecimal characters that decode to the entropy they were minted from |
| `SourceKeys.ParsedIdsAreMinted` | crates/slipbox-core/src/source_identity.rs:34-60 | parsing accepts exactly what minting can produce |
| `SourceKeys.UnhexOfHex` | crates/slipbox-core/src/source_identity.rs:37-45 | decoding undoes encoding |
| `SourceKeys.HexOfUnhex` | crates/slipbox-core/src/source_identity.rs:47-60 | encoding undoes decoding |
| `SourceKeys.HexAt` | crates/slipbox-core/src/source_identity.rs:37-45 | each byte is two lowercase characters, its high half first |
| `SourceKeys.TokensRoundTrip` | crates/slipbox-core/src/source_identity.rs:187-206 | scope tokens are read back as their scopes and nothing else is, and none holds the separator |
| `SourceKeys.StorageKeyRoundTrip` | crates/slipbox-core/src/source_identity.rs:847-922 | a text reads as a key exactly when the key is valid and the text is its storage key, separators in the inner key included |
| `SourceKeys.RefusedKeys` | crates/slipbox-core/src/source_identity.rs:910-922 | which texts are malformed, which name a bad source, and which an unknown scope |
| `SourceKeys.KeyTexts` | crates/slipbox-core/src/source_identity.rs:273-300 | which texts can be keys, and the first ground the others are refused on |
| `SourceKeys.StorageKeysAreDistinct` | crates/slipbox-core/src/source_identity.rs:899-908 | valid keys with one storage key are one key |
| `RemoteUrls.ParseDecidesGrammar` | crates/slipbox-core/src/source_identity.rs:450-482 | a text is accepted exactly when it is one of the ways to write some remote, and is kept as that remote's printed form |
| `RemoteUrls.SchemeIsJudged` | crates/slipbox-core/src/source_identity.rs:450-465 | a text is refused for its length first and then for its scheme, each exactly |
| `RemoteUrls.RestIsJudged` | crates/slipbox-core/src/source_identity.rs:465-482 | after the scheme: query or fragment, missing slash, credential, authority, path, in this order |
| `RemoteUrls.AuthorityIsJudged` | crates/slipbox-core/src/source_identity.rs:547-592 | of an authority: brackets, port, missing host, bad host, in this order |
| `RemoteUrls.HostsAre` | crates/slipbox-core/src/source_identity.rs:566-581 | hosts are exactly the labels joined by dots that are not too long together |
| `RemoteUrls.PathsAre` | crates/slipbox-core/src/source_identity.rs:594-611 | paths are exactly the segments joined by slashes |
| `RemoteUrls.ParseIsIdempotent` | crates/slipbox-core/src/source_identity.rs:450-482 | parsing an accepted URL's text again returns it |
| `RemoteUrls.AccessorsRecover` | crates/slipbox-core/src/source_identity.rs:488-521 | host, port and path are the ones the URL was printed from |
| `RemoteUrls.SameUrlSameRemote` | crates/slipbox-core/src/source_identity.rs:450-521 | two accepted texts are kept alike exactly when lowercase host, effective port and path less one trailing slash agree |
| `RemoteUrls.PortParses` | crates/slipbox-core/src/source_identity.rs:584-592 | which texts are ports, and of which number |
| `RemoteUrls.MeansValid` | crates/slipbox-core/src/source_identity.rs:547-611 | what a spelling means is in normal form, and its printed form is no longer than the spelling |
| `RemoteUrls.PathCharacters` | crates/slipbox-core/src/source_identity.rs:594-611 | an admitted path holds only path characters and slashes, and does not end in one |
| `SourceRecords.Apply` | crates/slipbox-core/src/source_identity.rs:1143-1208 | a change gives the record it says and keeps what follows from what changed, or is refused on the first ground |
| `SourceRecords.AcceptedChanges` | crates/slipbox-core/src/source_identity.rs:1143-1208 | what each accepted change writes to which field, that every other is as before, and what is kept |
| `SourceRecords.RefusedChanges` | crates/slipbox-core/src/source_identity.rs:1143-1208 | which changes are refused, and on which ground first |
| `SourceRecords.FieldHoldsLastWritten` | crates/slipbox-core/src/source_identity.rs:1143-1208 | over every history each field holds what the last accepted change to it asked for, or what it held at first |
| `SourceRecords.HistoryKeepsIdentity` | crates/slipbox-core/src/source_identity.rs:1022-1208 | every record of every history would be accepted anew as it stands, with the same identity, provider, visibility and repository |
| `SourceRecords.KeptSaysWhatChanged` | crates/slipbox-core/src/source_identity.rs:1143-1208 | identity alone is kept exactly at the steps that changed the account, and reading state exactly at those that moved branch or folder |
| `SourceRecords.EverythingKeptIsUnmoved` | crates/slipbox-core/src/source_identity.rs:1143-1208 | a history that kept everything left branch, folder and account unchanged |
| `SourceRecords.GenericRemoteIsFixed` | crates/slipbox-core/src/source_identity.rs:1169-1189 | no history of a source without provider identity changes its remote |
| `SourceRecords.AcceptedExactlyWhen` | crates/slipbox-core/src/source_identity.rs:1022-1070 | a configuration is accepted, unchanged, exactly when its remote suits its provider and its identities suit its visibility |
| `SourceRecords.RefusedExactlyWhen` | crates/slipbox-core/src/source_identity.rs:1022-1070 | the first ground a configuration is refused on |
| `SourceRecords.AuthorizationFollowsVisibility` | crates/slipbox-core/src/source_identity.rs:1022-1070 | over every history private sources have an account and a credential and public ones have neither |
| `SourceRecords.GitHubRemotes` | crates/slipbox-core/src/source_identity.rs:524-545 | a GitHub remote is accepted exactly on the provider's host, the default port, and one owner's one repository |
| `OperationTable.RunKeepsInv` | crates/slipbox-android/src/android_git.rs:196-258 | at every point of every run the active operations are those of the held guards, each with its own flag, at most eight |
| `OperationTable.BeginsExactlyWhen` | crates/slipbox-android/src/android_git.rs:202-219 | an operation begins, with a flag of its own, exactly when none of its number is held and fewer than eight are; otherwise which refusal |
| `OperationTable.DropEndsOne` | crates/slipbox-android/src/android_git.rs:248-258 | dropping a guard ends its operation and no other |
| `OperationTable.FlagsNeverReset` | crates/slipbox-android/src/android_git.rs:221-258 | a raised flag stays raised, and a dropped guard's flag is never touched again, whatever reuses its number |
| `OperationTable.CancelledWhileHeld` | crates/slipbox-android/src/android_git.rs:202-258 | a guard finds itself cancelled exactly when its operation was cancelled while it was held |
| `OperationTable.CancelReachesOneGuard` | crates/slipbox-android/src/android_git.rs:221-233 | a cancellation finds an operation exactly when a guard is held for it, and raises that guard's flag alone |
| `GitOperations.Operations.Begin` | crates/slipbox-android/src/android_git.rs:202-219 | beginning is the table function: a conflict, an exhausted table, or a fresh guard with a fresh, unraised flag |
| `GitOperations.Operations.Cancel` | crates/slipbox-android/src/android_git.rs:221-233 | cancelling is the table function, and writes to no object but the one flag |
| `GitOperations.Operations.Drop` | crates/slipbox-android/src/android_git.rs:248-258 | dropping a guard is the table function |
| `Framing.ReadFramed` | crates/slipbox-rpc/src/lib.rs:320-359 | the header loop reads a frame as the recursive reading does |
| `Framing.FrameRoundTrip` | crates/slipbox-rpc/src/lib.rs:320-375 | a framed body is read back whole and nothing after it is touched |
| `Framing.FrameWithHeaders` | crates/slipbox-rpc/src/lib.rs:320-359 | whatever other headers stand in a block and in whatever order, the last length told is the body's; and what is made of a missing length, a short body or the end |
| `Framing.BadHeaderStops` | crates/slipbox-rpc/src/lib.rs:320-350 | a line that is no header, or a length that is no number, stops the reader there |
| `Framing.PipeKeepsOrder` | crates/slipbox-rpc/src/lib.rs:320-375 | frames written one after the other are read in that order, as written |
| `Framing.TornFrameSwallows` | crates/slipbox-rpc/src/lib.rs:320-375 | a frame cut short in its body takes the bytes it lacks from the next one |
| `Framing.ReadInsideFails` | crates/slipbox-rpc/src/lib.rs:320-359 | a read that begins inside a frame fails, wherever it begins, and ends inside that frame or the next |
| `RpcClient.Client.Ask` | crates/slipbox-daemon-client/src/rpc.rs:96-114 | a call's answer and the state it leaves are those of the call function, identifiers included |
| `RpcClient.Transport.RoundTrip` | crates/slipbox-daemon-client/src/transport.rs:53-87 | what is sent, handled and taken from the pipe, whole or in part, under each fault |
| `RpcClient.Transport.Serve` | src/server.rs:27-42 | the daemon answers each request under its identifier, in order |
| `RpcClient.IdTextIsId` | crates/slipbox-daemon-client/src/rpc.rs:125-129 | comparing identifiers as text tells them apart, the null identifier included |
| `RpcClient.AnswersAreRead` | crates/slipbox-daemon-client/src/rpc.rs:116-137 | an answer is judged by its identifier, then its error, then its value, and what each comes to |
| `RpcClient.FaultsAreNamed` | crates/slipbox-daemon-client/src/transport.rs:53-87 | what a call that fails by itself answers, and whether the daemon has seen its request |
| `RpcClient.RunState` | crates/slipbox-daemon-client/src/rpc.rs:96-114 | the n-th call is made under its own number, and no answer to it waits before it is made |
| `RpcClient.AnsweredWhenClean` | crates/slipbox-daemon-client/src/rpc.rs:96-137 | whatever failed before, a call that does not itself fail is answered exactly when it finds no answer waiting, whole or in part, and the daemon between frames |
| `RpcClient.PipeHoldsWhatIsLeft` | crates/slipbox-daemon-client/src/transport.rs:53-87 | while no frame was torn and no answer cut the pipe holds every answer left there: it never gets shorter |
| `RpcClient.ValuesAreOwn` | crates/slipbox-daemon-client/src/rpc.rs:96-137 | a value was decoded from the service's answer to that very request, whatever failed before |
| `RpcClient.AnsweredUnlessBehind` | crates/slipbox-daemon-client/src/rpc.rs:96-137 | while no frame was torn and no answer cut, a call that does not itself fail is answered exactly when no earlier call left an answer behind, and otherwise is a mismatch |
| `RpcClient.CutAnswersNothing` | crates/slipbox-daemon-client/src/transport.rs:68-87 | once the pipe begins inside an answer no call is answered, until a read fails by itself |
| `RpcClient.FaultFreeRuns` | crates/slipbox-engine/src/dispatch.rs:8-25 | without faults every call is answered and the pipe is empty between calls |

## Left out

- Binary floating point: ease is in hundredths, so rounding, infinities and hand-edited extreme values of the drawer are outside the bounds proved. The drawer's text form of a card is not modelled.
- 64-bit overflow of dates and intervals beyond what `Scheduler.TwentyGradesFit` bounds, of request identifiers, and of the identity counter's own width (its largest value is modelled as a refusal).
- Occurrences.QueryOccurrences: the database and the matcher are values with the facts the store and the regular-expression engine establish: ordered paths, a row for each line, non-empty anchors in line order, matches in order, starting at characters and not at line feeds. Database errors are not modelled. Which lines of a source are visible or blank is a parameter of the indexer.
- SessionThreads.AfterRetirement: threads interleave under sequential consistency; poisoned locks and panics are not modelled.
- SessionTable.StepMovesOne: operations are atomic here, as the table's mutex makes them; engine construction between allocation and insertion is folded into the open.
- JniSeam.Opened: other threads do not move the table during the call; `SessionTable.LostAnswerIsRetired` says what they may do. For a JVM that reports a length other than the array's, only what is left in the table is stated, not which refusal is answered.
- WorkflowExecution.Execute: resolving, exploring, comparing and artifact queries are uninterpreted and may depend on the step's place; the text an error is wrapped in is not modelled.
- PackManifest.Issues: the issues' messages are not modelled. The built-in workflows are a parameter, which those shipped meet.
- ReviewRuns.ValidationError: whether an audit entry or a step report is valid by itself is a field of it.
- SourceRecords.Apply: labels, branches, folders, accounts and credentials are opaque text; their own parsers are not modelled.
- Framing.ReadFramed: text stands for bytes, so header lines that are not ASCII are outside it.
- RpcClient.Client.Ask: serialization, process management and end of file are faults of a call. After a failed write the daemon may or may not have read the request, may answer unreadable text any number of times, and may wait inside a torn frame; what it makes of the bytes that then fill that frame is a choice passed in, of which `Framing.TornFrameSwallows` shows the first step. Where a read that fails by itself stops, and whether a read that begins inside an answer eats into the next, are choices too. A read for which no answer comes ends without one.
- SQLite, Git transport, the file system, the regular-expression engine and JSON encoding.
- Catalog and refresh coordination, credential storage, command-line code and message wording: easy members, or resting on code outside these files.
