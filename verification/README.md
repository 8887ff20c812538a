# Dawnstrike: verified models

Dawnstrike scans premarket movers, publishes a public artifact and learns each day from what
happened. This project models the parts of it where a wrong step is expensive, and proves
what they keep:

- **Publication** (`PublicBuild`, `PublicBuildSafety`, `PublicBuildOperation`). The public
  directory is replaced by two renames under a phase journal. Each durable action is a step,
  a directory tree is removed one entry at a time, and a crash may fall between any two
  steps, inside a recovery too.
- **Daily learning** (`LearningProtocol`, `LearningSafety`, `LearningRuns`, `LearningOutcome`,
  `DailyLearning`). One reservation,
  one source boundary, one snapshot and one manifest per market date, written once, under any
  interleaving of invocations, crashes and growing sources. The sources have a part that the
  boundary records and a part that is read and hashed without it.
- **What learning hashes** (`Framing`, `LearningInputs`). The length-framed byte string and
  its recomputation from the frozen snapshot.
- **Calendars** (`Dates`, `Computus`, `MarketRules`, `SessionCalendar`). Easter, the holiday
  rules, freshness of published dates, and the published 2026-2028 sessions.
- **Cache and schedule** (`FingerprintCache`, `MonitorSlots`).
- **Arithmetic** (`WeightedSamples`, `Expectancy`, `StopPlacement`, `Formula`, `FormulaLaws`,
  `Ranking`).
- **ORDER BY lists** (`OrderBy`, `OrderByGrammar`, `OrderByQuoting`). The splitter, the two
  patterns of the grammar and the quoted rendering.

`Wrappers` and `Limits` hold the option and result types and the order functions on numbers.

A module of pure definitions is followed by the lemmas about it. Where the program changes
state or loops, there is a class or a method with the same branches, tied by its contract to
those definitions. A line below names the member whose contract states the property.

## Where the program does less than it says

Each of these is a lemma with the exact condition or a concrete input.

- A recovery can be crashed and repeated with the same result, except in two states of the
  disk. Between the rename that restores the prior artifact and the removal of the journal,
  the next recovery takes the restored artifact for an unfinished first promotion and deletes
  it (`RecoveryIsRepeatable`, `WindowExists`). With a half-removed backup the recovery stops,
  and the committed candidate stays published (`HalfRemovalExists`).
- That window can be closed by looking at the manifest. If the prior artifact is of another
  source SHA or market date than the build, keeping a complete artifact whose manifest is not
  the journal's restores it, and changes nothing at any crash point of a build
  (`LineageRuleRestores`). If it is of the same, and exact and clean under the scan, a
  first promotion reaches the same disk and is owed the opposite, so no rule that looks at the
  disk alone can serve both (`WindowIsAmbiguous`).
- A build over a published artifact can end with nothing published: exactly when the crash
  comes after COMMITTED, the backup is already discarded, and the candidate is not recoverable
  (`NothingPublished`). The artifact verifier runs only in recovery, so such a candidate can
  be committed (`UnverifiedCommitRuns`).
- The source boundary of daily learning leaves out the bridge and selection tables. A change
  of them between a crash and the retry goes unnoticed before the bind, and the retry freezes
  rows the boundary never saw (`OpenChangeIsFrozen`); after the bind it makes the retry fail
  (`OpenChangeAfterBind`). A success returns the cohort of the boundary exactly when that
  part of the sources was the same at its acquisition (`BoundaryCohortIff`,
  `BoundAcquisitionDecides`).
- Between invocations a date of daily learning is blocked for good exactly when its reservation
  is there, its files are not complete, and one of three things holds: there is no source
  boundary, the bounded sources differ from it, or one of their files was modified after the
  reservation (`DateIsOpenIff`, `BlockedForever`). A stop between reservation and boundary does
  the first (`WedgedForever`, `CrashBeforeBoundary`). A file modified in that gap does the
  third: the boundary records it, and every acquisition refuses it (`GrownBeforeBoundary`).
  Neither ever widens a cohort.
- The holiday rules put New Year's Day on 31 December when 1 January is a Saturday, but look
  only at the year of the day they are asked about, so that closure is never applied. It is the
  only holiday of any year for which that happens (`OnlyNewYearIsNotApplied`). The published
  table has none there either, and the two agree on every covered day (`TableFollowsRules`).
- A published date is stale after six calendar days at the latest, and five are not enough
  (`StalenessIsPermanent`, `FiveDaysCanBeFresh`).
- The two inception policies differ over an error at both ends of the calendar coverage, and
  nowhere else: on the day before it starts, and on its last session up to the close
  (`PoliciesFailTogether`).
- Validation lets the ideal gap band start at or under zero. The gap curve then jumps up from
  zero inside the part that should fall (`GapCurveFalls`).
- A spread of exactly zero counts as missing data. Narrowing a spread never lowers the score
  otherwise, but coming down to zero can (`NarrowerSpread`, `SpreadToZero`).
- The seven score bands add up to 100, but the sum of a row, before it is rounded, is always
  less (`ComponentsAreBounded`); a narrow enough spread is still reported as 100.
- A stop can be flagged as inside the observed range without the loss cap only if the range
  fraction is wider than the entry (`RoundingIsNotFlagged`). With the default policy rounding
  swallows the whole risk of a plan exactly when its distance is under a tick
  (`DefaultPlanClearsTheFloor`, `TinyPlanHasNoRatio`).
- Frozen inputs hash to the signed value exactly when ledger rows come without diagnostics and
  decision batches with them (`RecomputationAgrees`). The loaders keep to that today; nothing
  in the hashing code enforces it.
- The cache needs two reads of a path in a row with equal fingerprints to find equal contents,
  and no more than that (`CacheRefinesReads`). It is not enough that each single write changes
  the fingerprint (`ReusedFingerprintIsStale`).
- The numeral of a COALESCE component may consist of any decimal digits of Unicode. Only with
  ASCII digits is there nothing outside the quotes but keywords, punctuation and a number
  (`FixedTextIff`); other digits are read by SQLite as a column name outside the allowed ones
  (`ArabicIndicFallback`).
- With gap receipts switched off the monitor loop still skips overdue slots
  (`WithoutReceipts`).

## Model

| member | source | states |
|---|---|---|
| PublicBuildSafety.StepKeepsInv | scripts/build_public.py:868-903 | every durable action of a build keeps the relation between phase, directories, prior artifact and candidate |
| PublicBuildSafety.RunKeepsInv | scripts/build_public.py:868-903 | so does every run of a build, whatever was published before it |
| PublicBuildSafety.NeverThreeDirectories | scripts/build_public.py:923-976 | no crash point has final, stage and backup together, so that recovery error is unreachable, as is the one about paths without a journal |
| PublicBuildSafety.CrashAtomicity | scripts/build_public.py:905-976 | a crash anywhere in a build and one completed recovery leave the prior artifact before COMMITTED; after it a recoverable candidate stays, and an unrecoverable one gives way to the backup, or to nothing once that is discarded; a refusal leaves the published directory untouched |
| PublicBuildSafety.ForeignShaTouchesNothing | scripts/build_public.py:905-933 | a recovery for another source SHA is refused and changes nothing but the temporary journal |
| PublicBuildSafety.ReceiptIsNeverFalse | scripts/build_public.py:314-387 | after a COMPLETE receipt every recovery keeps the candidate, which holds exactly the public files, passed the scan and names the request |
| PublicBuildSafety.SafeIff | scripts/build_public.py:1087-1097 | an inventory is safe exactly if it has all public files and otherwise only private ones |
| PublicBuildSafety.ForeignFilesStay | scripts/build_public.py:1116-1134 | over a published directory with any other file no build and no recovery of it, wherever interrupted, moves or removes anything of it |
| PublicBuildSafety.ForeignBackupStays | scripts/build_public.py:934-976 | no recovery of any disk touches a backup with such a file |
| PublicBuildSafety.RecoveredInventory | scripts/build_public.py:973-976 | what a recovery of any disk leaves published under a journal has all public files and otherwise only private ones |
| PublicBuildSafety.CommittedStaysIff | scripts/build_public.py:1050-1084 | on any disk a COMMITTED directory with nothing beside it stays exactly if it has the public files, the manifest of the journal, and the consent of verifier and scan |
| PublicBuildSafety.MidwayCases | scripts/build_public.py:660-682 | a half-done tree removal is either completed by the next recovery to the same result or is a half-removed backup, which is refused |
| PublicBuildSafety.AfterFirstAction | scripts/build_public.py:934-976 | what the next recovery makes of a crash after the first directory action |
| PublicBuildSafety.RecoveryIsRepeatable | scripts/build_public.py:934-976 | a crashed recovery can be repeated with the same result if and only if the disk is in neither of the two exceptional states, and what happens in each |
| PublicBuildSafety.RepeatedCrashesAgree | scripts/build_public.py:905-976 | any number of crashed recoveries outside those states end where one recovery would |
| PublicBuildSafety.WindowExists | scripts/build_public.py:934-976 | the destructive window is reachable exactly from builds that crashed late with a safe prior artifact to bring back |
| PublicBuildSafety.HalfRemovalExists | scripts/build_public.py:942-956 | a recovery can be stopped by a half-removed backup exactly when it discards the backup of a verified commit |
| PublicBuildSafety.OnlyDropBackupHalves | scripts/build_public.py:942-976 | no other recovery plan can leave a half-removed backup |
| PublicBuildSafety.WindowIsReached | scripts/build_public.py:934-976 | a rollback of any safe artifact passes through the window, where the next recovery publishes nothing |
| PublicBuildSafety.WindowIsAmbiguous | scripts/build_public.py:286-308 | the disk inside the window is also that of a first promotion if and only if the restored artifact could have been built for the request, its manifest naming the same SHA and date |
| PublicBuildSafety.LineageRuleRestores | scripts/build_public.py:1050-1084 | a recovery that keeps artifacts of another lineage agrees with the present one at every crash point of a build, and repairs the window if and only if the prior artifact is of another lineage |
| PublicBuildSafety.NothingPublished | scripts/build_public.py:942-976 | a build over a published artifact is recovered to nothing published if and only if it is COMMITTED, without a backup, and the candidate is not recoverable |
| PublicBuildSafety.UnverifiedCommitRuns | scripts/build_public.py:286-350 | a candidate the verifier rejects can be committed and its backup discarded |
| PublicBuildSafety.PromotionRuns | scripts/build_public.py:1116-1134 | the steps from an empty operation to the PROMOTED journal form a run that leaves the candidate in final and the prior artifact in backup |
| PublicBuildSafety.PrefixAdmissible | scripts/build_public.py:868-903 | every prefix of a run is a run, so the theorems speak of each crash point |
| PublicBuildOperation.Operation.WriteJournal | scripts/build_public.py:845-866 | replaces the journal through its temporary file as admissible steps of the build |
| PublicBuildOperation.Operation.Begin | scripts/build_public.py:868-877 | refuses unless no operation is open; otherwise INIT, staging directory and BUILDING with the published directory unchanged |
| PublicBuildOperation.Operation.Mark | scripts/build_public.py:879-885 | advances the journalled phase only where the step is allowed |
| PublicBuildOperation.Operation.Promote | scripts/build_public.py:1116-1134 | succeeds exactly for a candidate with just the public files over no prior artifact or one with all public and otherwise only private files; leaves the whole disk as stated, or the three directories as they were |
| PublicBuildOperation.Operation.Commit | scripts/build_public.py:895-903 | succeeds exactly from PROMOTED and leaves only the published candidate |
| PublicBuildOperation.Operation.RemoveBackup | scripts/build_public.py:660-682 | removes the backup entry by entry, each removal a step of the build |
| PublicBuildOperation.Operation.Build | scripts/build_public.py:286-349 | stages exactly when the last write is an exact and clean directory, the source is unchanged and the result publishable; what is staged carries its own manifest, and otherwise the journal stays at BUILDING |
| PublicBuildOperation.Operation.Publish | scripts/build_public.py:286-387 | writes COMPLETE exactly when no operation was open, the prior artifact, if any, has all public and otherwise only private files, and the candidate can be staged; the commit before it is irreversible, and without it nothing is committed |
| PublicBuildOperation.Operation.Invoke | scripts/build_public.py:286-402 | recovery, build and closing recovery: the candidate and a receipt, exactly when the recovered artifact is safe or absent and the candidate can be staged; or the recovered artifact and no receipt; or a refusal with the published directory as it was |
| PublicBuildOperation.Operation.RemoveTree | scripts/build_public.py:660-682 | removes one directory; every intermediate state is a part of the original |
| PublicBuildOperation.Operation.Converge | scripts/build_public.py:934-970 | follows the recovery plan up to the journal, every state passed through being a crash point of that plan, or refuses without touching anything |
| PublicBuildOperation.Operation.Recover | scripts/build_public.py:905-976 | yields the specified result or error, and every state on the way is one the crash theorems quantify over |
| PublicBuildOperation.CrashPoint | scripts/build_public.py:934-976 | a state within or after the k-th action is a crash point of the whole plan |
| LearningSafety.StepSound | intraday_scanner/cli.py:2842-3166 | each step of an invocation moves the files only forward and establishes what its next step relies on |
| LearningSafety.StepKeepsLock | intraday_scanner/cli.py:2557-2568 | the lock passes only between free and the stepping invocation |
| LearningSafety.CommitKeepsInv | intraday_scanner/cli.py:2842-3166 | a step of one invocation keeps what all the others rely on |
| LearningSafety.EventKeepsInv | intraday_scanner/cli.py:2842-3166 | so do a crash, a growing source and a new invocation |
| LearningSafety.ProtocolInvariant | intraday_scanner/cli.py:2842-3166 | over every interleaving the input hash changes at most once, from unbound to one value; the boundary names the phase-1 reservation; a manifest names the bound one |
| LearningSafety.OnlyTheFrozenCohort | intraday_scanner/cli.py:3083-3166 | once the boundary exists, anything ever frozen or returned has the reserved scope and window, the bounded sources of the boundary with no file modified after the reservation, and the rows of the one bound acquisition, whatever a retry asks for and however the sources grew; with complete files it is the frozen cohort |
| LearningSafety.BoundaryIsChecked | intraday_scanner/cli.py:3000-3058 | whatever is on disk, an invocation goes on only under a boundary of the stored reservation, and without frozen files only over the bounded sources of the boundary |
| LearningSafety.BoundaryCohortIff | intraday_scanner/cli.py:2682-2818 | a success has the rows of the boundary if and only if the acquisition whose hash was bound read them, and it is the cohort of the boundary if and only if the part of the sources outside it was the same at its acquisition |
| LearningSafety.BoundAcquisitionDecides | intraday_scanner/cli.py:2842-2905 | where different open contents give different rows, that is: if and only if the open part did not change between the boundary and the acquisition whose hash was bound |
| LearningRuns.OpenChangeIsFrozen | intraday_scanner/cli.py:2682-2707 | a change outside the boundary before the bind is frozen and returned by the retry |
| LearningRuns.OpenChangeAfterBind | intraday_scanner/cli.py:2872-2878 | the same change after the bind makes the retry fail and change nothing |
| LearningRuns.SoloFreezes | intraday_scanner/cli.py:3083-3166 | an undisturbed invocation over a boundary and incomplete files freezes what it reads if and only if no file was modified after the reservation and what is on disk fits, and otherwise stops without a change |
| LearningRuns.SoloFirst | intraday_scanner/cli.py:3235-3374 | the first invocation of a date freezes what it reads if and only if no file is newer than its own reservation |
| LearningRuns.RetryReturnsFrozen | intraday_scanner/cli.py:2253-2284 | with complete files an invocation of the same scope succeeds with the frozen cohort, without reading the sources |
| LearningOutcome.WedgedForever | intraday_scanner/cli.py:2958-3058 | a reservation without a boundary never leads to a snapshot or a success |
| LearningOutcome.CrashBeforeBoundary | intraday_scanner/cli.py:2908-3058 | every first invocation passes through a point where a stop causes that |
| LearningOutcome.BlockedForever | intraday_scanner/cli.py:3358-3374 | on a blocked date no continuation succeeds or completes the files |
| LearningOutcome.OpenDateSucceeds | intraday_scanner/cli.py:2908-3166 | on any other date some continuation succeeds |
| LearningOutcome.DateIsOpenIff | intraday_scanner/cli.py:2908-3374 | between invocations a date can still succeed if and only if it is not blocked |
| LearningOutcome.GrownBeforeBoundary | intraday_scanner/cli.py:3358-3374 | a file modified between reservation and boundary leads to a blocked date whose boundary matches the sources |
| DailyLearning.Store.ReserveFile | intraday_scanner/cli.py:2908-3000 | installs the reservation or accepts the existing one exactly as stated, under the lock, as protocol steps |
| DailyLearning.Store.ReserveBoundary | intraday_scanner/cli.py:3000-3058 | records the boundary of a reservation just installed, or compares the bounded part of the sources with it |
| DailyLearning.Store.Reserve | intraday_scanner/cli.py:2908-3067 | succeeds exactly when the request is reservable, with the reserved window |
| DailyLearning.Store.Bind | intraday_scanner/cli.py:2842-2905 | extends the reservation once, and accepts only the same hash afterwards |
| DailyLearning.Store.Publish | intraday_scanner/cli.py:2496-2525 | installs snapshot and manifest, or accepts identical ones, and otherwise fails |
| DailyLearning.Store.AcquireEvidence | intraday_scanner/cli.py:3235-3374 | reads the sources exactly when no evidence or ledger file was modified after the reservation |
| DailyLearning.Store.Freeze | intraday_scanner/cli.py:3096-3166 | completes the files with the cohort just acquired exactly when no file was modified after the reservation and what an earlier crash left fits it, and otherwise leaves them alone |
| DailyLearning.Store.RunDaily | intraday_scanner/cli.py:2241-2302 | one whole invocation: succeeds exactly when it is reservable and finds complete files, or no file was modified after the reservation, which may be its own, and what an earlier crash left fits; returns the frozen cohort if there is one, else freezes what the sources hold |
| DailyLearning.Store.Read | intraday_scanner/cli.py:3700-3809 | carries out the checks of scope, signature and binding and returns the cohort exactly if they hold; in a run of the protocol that is exactly for the reserved scope |
| DailyLearning.OrphansMatch | intraday_scanner/cli.py:3096-3166 | what a crash left fits a new acquisition if and only if that reads the bound rows again and, after an installed snapshot, from the very same sources |
| DailyLearning.CompleteIsAuthentic | intraday_scanner/cli.py:3758-3809 | on complete files the reader's checks reduce to the scope |
| DailyLearning.ManifestDetermines | intraday_scanner/cli.py:3700-3809 | whatever is on disk, one signed manifest is accepted with one reservation and one cohort only, of the scope asked for, the reserved window and the bound rows |
| Framing.NumberOfBigEndian | intraday_scanner/cli.py:2357-2364 | an eight-byte length is read back |
| Framing.BigEndianByte | intraday_scanner/cli.py:2361-2363 | which byte of a length is which |
| Framing.EncodeConcat | intraday_scanner/cli.py:2359-2364 | each part contributes the length of its label, the label, the length of its payload and the payload, in this order |
| Framing.PrecedesIff | intraday_scanner/cli.py:2359-2359 | labels are ordered by their first difference |
| Framing.TakeOfFrame | intraday_scanner/cli.py:2357-2364 | a framed field is read back whatever follows it |
| Framing.DecodeOfEncode | intraday_scanner/cli.py:2357-2364 | every list of parts can be decoded from its encoding |
| Framing.EncodeOfDecode | intraday_scanner/cli.py:2357-2364 | and nothing but an encoding decodes |
| Framing.SortSorts | intraday_scanner/cli.py:2359-2359 | sorting by label gives an ascending permutation |
| Framing.AscendingIsUnique | intraday_scanner/cli.py:2359-2359 | two ascending lists of the same parts are equal |
| Framing.HashInput | intraday_scanner/cli.py:2355-2364 | the loop feeds the digest the encoding of the sorted parts, and nothing for no parts |
| Framing.HashInputIsInjective | intraday_scanner/cli.py:2355-2364 | two inputs are hashed alike if and only if they give the same payloads to the same labels, in any order |
| LearningInputs.DatabaseLabels | intraday_scanner/cli.py:2305-2353 | which payload is hashed under which of the seven labels for a database |
| LearningInputs.EvidenceLabels | intraday_scanner/cli.py:2305-2353 | and for an evidence file |
| LearningInputs.FrozenLabels | intraday_scanner/cli.py:3186-3234 | and again for the components of a snapshot |
| LearningInputs.FilledContents | intraday_scanner/cli.py:3188-3232 | the same slots hold the same parts only with the same payloads |
| LearningInputs.PayloadsAgree | intraday_scanner/cli.py:3417-3428 | the stored components give the payloads hashed at acquisition if and only if every component keeps its form |
| LearningInputs.RecomputationAgrees | intraday_scanner/cli.py:3188-3232 | the recomputed hash input is the original one under exactly that condition |
| Dates.YearIsUnique | api/readiness.py:924-940 | a day number belongs to one Gregorian year |
| Computus.OffsetRange | api/readiness.py:1099-1115 | the computed Easter offset lies in 0..34 for every year |
| Computus.EasterIsSunday | api/readiness.py:1099-1115 | the computed Easter is a Sunday in every year |
| Computus.MoonTerm | api/readiness.py:1099-1115 | the computed moon term is the ecclesiastical full moon from golden number and epact, up to the two exceptions |
| Computus.EasterAfterMoon | api/readiness.py:1099-1115 | the computed Easter falls in the week after that full moon |
| Computus.GoodFridayIsCorrect | api/readiness.py:1099-1115 | Good Friday is the Friday before Easter as defined, in every year, between 20 March and 23 April |
| MarketRules.FindLastWeekday | api/readiness.py:1092-1096 | the backward search returns the last such weekday of the month |
| MarketRules.NthNearby | api/readiness.py:1086-1089 | the n-th weekday of a month falls in its n-th week on that weekday |
| MarketRules.ObservedNearby | api/readiness.py:1077-1083 | an observed holiday is a weekday next to the date itself |
| MarketRules.HolidaysAscend | api/readiness.py:928-940 | the ten holidays of every year are weekdays, in order, at least 13 days apart |
| MarketRules.OnlyNewYearIsNotApplied | api/readiness.py:924-940 | in every year each holiday of the rules is a closure, except New Year's Day of a year that begins on a Saturday, which never is |
| MarketRules.ClosuresAWeekApart | api/readiness.py:924-940 | applied closures are at least a week apart, across year ends too |
| MarketRules.AtMostThreeClosedDays | api/readiness.py:924-940 | of any four days in a row one is a market day |
| MarketRules.SixDaysHoldThree | api/readiness.py:904-925 | any six days hold three market days |
| MarketRules.FreshExactly | api/readiness.py:904-921 | a date is fresh exactly if it was published, is not later than today, and at most two market days have come since; a later one is reported as in the future |
| MarketRules.StalenessIsPermanent | api/readiness.py:904-921 | a stale date stays stale, and every date is stale from the sixth day on |
| MarketRules.FiveDaysCanBeFresh | api/readiness.py:904-921 | five days do not suffice: a concrete date |
| SessionCalendar.FindNextMarketDay | intraday_scanner/market_calendar.py:239-245 | the loop finds the first session from a day on, or the error of the coverage |
| SessionCalendar.NextMarketDayIsLeast | intraday_scanner/market_calendar.py:239-245 | a search result is the least session from a covered day on, and conversely |
| SessionCalendar.FirstEligibleIsLeast | intraday_scanner/market_calendar.py:248-264 | the first eligible session is the least one whose close the registration has not missed |
| SessionCalendar.SameDayUntilTheClose | intraday_scanner/market_calendar.py:248-264 | a registration takes part in the session of its day exactly until 16:00, or 13:00 on an early close, to the microsecond |
| SessionCalendar.InceptionIsMonotone | intraday_scanner/market_calendar.py:282-293 | registering earlier never delays either inception date |
| SessionCalendar.PoliciesCompared | intraday_scanner/market_calendar.py:248-279 | the conservative policy is never earlier, and equal exactly when the registration missed the session of its day, early closes included |
| SessionCalendar.TableFollowsRules | intraday_scanner/market_calendar.py:24-165 | on every covered day the published table has a session if and only if the holiday rules call it a market day |
| SessionCalendar.EarlyClosesFollowRule | intraday_scanner/market_calendar.py:143-165 | on every covered day the published early closes are 3 July, 24 December and the day after Thanksgiving where those are sessions |
| SessionCalendar.SearchWithinCoverage | intraday_scanner/market_calendar.py:239-245 | a search looks at no more than four days and succeeds exactly up to the last published session |
| SessionCalendar.PoliciesFailTogether | intraday_scanner/market_calendar.py:248-279 | one policy fails where the other does not exactly on the day before the coverage and on its last session up to the close |
| FingerprintCache.Cache.Read | api/readiness.py:943-967 | a read returns the value and leaves the entries of the specification, evicting older entries of the path |
| FingerprintCache.ReadReplacesLast | api/readiness.py:943-967 | one read is direct if and only if it agrees with the last look at the path, and then leaves just itself in its place |
| FingerprintCache.CacheRefinesReads | api/readiness.py:943-967 | over every run of changes and reads, all cached reads are direct reads if and only if two reads of a path in a row with equal keys always find equal contents |
| FingerprintCache.OneEntryPerPath | api/readiness.py:943-967 | over every run the cache holds exactly the key of the last successful read of each path |
| FingerprintCache.NextRead | api/readiness.py:943-967 | whatever happens between two reads of a path, the second is direct if the file or the build manifest looks different, and repeats the first if both look the same |
| FingerprintCache.ReusedFingerprintIsStale | api/readiness.py:943-967 | a recurring fingerprint serves old bytes |
| MonitorSlots.RecordGaps | intraday_scanner/cli.py:4992-5039 | the gap loop returns the slots overdue for a whole interval, or none with persistence off |
| MonitorSlots.Advance | intraday_scanner/cli.py:4964-4965 | the schedule moves to the newest due slot |
| MonitorSlots.RunLoop | intraday_scanner/cli.py:4944-4970 | the loop follows the specified schedule for any clock readings |
| MonitorSlots.LoopsAgree | intraday_scanner/cli.py:4963-4965 | both loops stop at the same slot: the gaps are exactly the slots skipped |
| MonitorSlots.PassAccounts | intraday_scanner/cli.py:4950-4967 | one pass keeps worked and recorded slots equal to the slots before the pending one |
| MonitorSlots.EverySlotOnce | intraday_scanner/cli.py:4950-4967 | over any run every slot before the pending one is worked or recorded exactly once, and at most one overdue slot is pending |
| MonitorSlots.SlotsAreDistinct | intraday_scanner/cli.py:4950-4967 | no slot of the schedule occurs twice |
| MonitorSlots.WithoutReceipts | intraday_scanner/cli.py:5000-5007 | without receipts a slot is lost exactly when a pass overran a whole interval |
| WeightedSamples.EffectiveNIsBounded | intraday_scanner/expectancy.py:323-330 | for n positive weights the effective size is between 1 and n, 1 only for one weight, n only for equal ones |
| WeightedSamples.CauchySchwarz | intraday_scanner/expectancy.py:323-330 | n times the sum of squares is at least the squared sum, with equality only for equal weights |
| WeightedSamples.MeanIsWithin | intraday_scanner/expectancy.py:308-312 | the mean lies within any bounds of the values |
| WeightedSamples.MeanBalances | intraday_scanner/expectancy.py:308-312 | the mean is the one value about which the weighted deviations cancel |
| WeightedSamples.MeanSpreadsLeast | intraday_scanner/expectancy.py:315-320 | and the one about which the weighted squares are least |
| WeightedSamples.VarianceIsBounded | intraday_scanner/expectancy.py:315-320 | the variance is at most (max - mean)(mean - min) |
| Expectancy.EstimateOne | intraday_scanner/expectancy.py:69-139 | the loop over the audits gathers the specified samples, weights and count, and the estimate follows from them |
| Expectancy.ReturnDecides | intraday_scanner/expectancy.py:142-160 | changing both returns of one audit raises the mean exactly if the return named by the exit bias rises, or their sum if it names neither; what leaves that alone, or is of a name not scanned, changes nothing in the estimate |
| Expectancy.PriorAlone | intraday_scanner/expectancy.py:77-91 | without a counted audit the estimate is the prior |
| Expectancy.OneOwnAudit | intraday_scanner/expectancy.py:77-95 | one audit of the candidate itself weighs 7.5525 against 4 for the prior |
| Expectancy.WeightIsBounded | intraday_scanner/expectancy.py:182-206 | similarity weights lie between 0.05 and 1.5525, below the bonus of the same ticker |
| Expectancy.SimilarityIsSymmetric | intraday_scanner/expectancy.py:182-206 | similarity is symmetric |
| Expectancy.CloserWeighsMore | intraday_scanner/expectancy.py:182-206 | a candidate that is no closer in any respect never weighs more |
| Expectancy.OneDifference | intraday_scanner/expectancy.py:182-206 | what a single difference of score, gap, rotation, signature or tier takes off the weight |
| Expectancy.BandEnclosesMean | intraday_scanner/expectancy.py:95-102 | the band strictly encloses the mean, its guard on the effective size never binds, and its width is bounded by the spread of the returns |
| Expectancy.MarginShrinks | intraday_scanner/expectancy.py:98-100 | the margin falls with either sample size |
| Expectancy.MarginHalves | intraday_scanner/expectancy.py:98-100 | four times the samples halve the margin, which is 1.645 deviations and ten points for one |
| Expectancy.PriorNarrowsTheBand | intraday_scanner/expectancy.py:95-100 | the weight of the prior counts in the effective size behind the band |
| Expectancy.DeviationIs | intraday_scanner/expectancy.py:96-96 | the deviation is the root of the variance about the mean, and at least six |
| Expectancy.TierNeedsSamples | intraday_scanner/expectancy.py:209-267 | every confidence tier is a range of the confidence and implies a minimum of audited setups, 50 for the highest |
| Expectancy.ConfidenceGrows | intraday_scanner/expectancy.py:209-237 | confidence never falls with more samples, more effective samples or less deviation |
| Expectancy.ConfidenceParts | intraday_scanner/expectancy.py:209-237 | what effective size, data, agreement and score can earn, and the cap that the number of samples sets |
| Expectancy.WinProbabilityIsAShare | intraday_scanner/expectancy.py:240-245 | the win probability is 100 exactly when every sample gains and 0 exactly when none does |
| Expectancy.PriorIsBounded | intraday_scanner/expectancy.py:163-179 | the prior return lies between -8 and 8 |
| Expectancy.PriorRises | intraday_scanner/expectancy.py:163-179 | the prior never falls with score, range position, data quality or liquidity and never rises with risk flags or a reason to avoid the name |
| Expectancy.PriorFromTheMiddle | intraday_scanner/expectancy.py:163-179 | it is zero for a middling name and moves from there by fixed amounts up to its bounds |
| Expectancy.EstimateIsSound | intraday_scanner/expectancy.py:69-139 | every estimate made from audits has a mean among the returns in the middle of its band, a capped confidence, an effective size between 1 and its count, and as downside what the band reaches below zero |
| StopPlacement.VolatilityAwareStop | intraday_scanner/scoring.py:98-147 | the stop is the tighter of band and premarket low, rounded up to a tick, never tighter than the configured minimum unless the low is, with the basis and the flag it is reported with |
| StopPlacement.BandIsClamped | intraday_scanner/scoring.py:98-108 | the band is the fraction of the range between the configured minimum and maximum of the entry, and the nearer of them outside |
| StopPlacement.StopIsTheTighterLevel | intraday_scanner/scoring.py:98-125 | the rounded stop is never under the level of the band or 0.985 of the low, and over the higher of the two by less than a tick |
| StopPlacement.CeilIsLeast | intraday_scanner/scoring.py:122-125 | rounding up finds the least tick not below |
| StopPlacement.NeverBeyondTheCap | intraday_scanner/scoring.py:122-126 | the rounded stop never risks more than the configured maximum |
| StopPlacement.NeverAboveTheEntry | intraday_scanner/scoring.py:98-126 | it is at or under a tick-aligned entry if and only if the structural low is |
| StopPlacement.StrictlyBelowTheEntry | intraday_scanner/scoring.py:122-126 | it is strictly under it if and only if the entry is over a tick and the unrounded distance at least one |
| StopPlacement.RoundingIsNotFlagged | intraday_scanner/scoring.py:127-136 | a stop at the range fraction is flagged as inside the range only if that fraction exceeds the entry |
| StopPlacement.RatioIsPinned | intraday_scanner/scoring.py:180-226 | reward to risk of such a plan lies strictly between the two bounds set by the policy's constants |
| StopPlacement.DefaultRatioIsPinned | intraday_scanner/scoring.py:180-226 | with the defaults between 3.070 and 3.195 |
| StopPlacement.DefaultPlanClearsTheFloor | intraday_scanner/scoring.py:180-226 | with rounding the ratio is still above 2.5 if and only if the distance is at least a tick, so a floor of 1.5 never rejects such a plan; under a tick there is no ratio |
| StopPlacement.TinyPlanHasNoRatio | intraday_scanner/scoring.py:122-182 | at an entry of one tick the risk can vanish |
| Formula.GapCurveIsBounded | intraday_scanner/formula.py:98-111 | the gap component lies between 0 and 18 and is under 18 beyond the ideal band |
| Formula.GapCurveRises | intraday_scanner/formula.py:98-111 | it never falls up to the ideal high |
| Formula.GapCurveFalls | intraday_scanner/formula.py:98-111 | it never rises from the ideal low on, if and only if the ideal low is positive |
| Formula.AvoidReasons | intraday_scanner/formula.py:191-230 | the listed reasons are exactly those that apply |
| Formula.EveryRiskIsCharged | intraday_scanner/formula.py:233-273 | with no negative spread no risk that is present is offset by anything, and the penalty is zero if and only if none that is present has points |
| Formula.PenaltyGrows | intraday_scanner/formula.py:233-273 | a row with every risk of another and no narrower spread is penalised at least as much |
| Formula.BandsOf | intraday_scanner/formula.py:114-188 | the other six components lie in their bands |
| Formula.ComponentsAreBounded | intraday_scanner/formula.py:45-69 | the seven components sum to less than 100: a spread costs execution points and a missing one data points |
| Formula.ScaleIsFilled | intraday_scanner/formula.py:45-69 | the bound is tight: a row that misses 100 by exactly the cost of its spread, however small |
| Formula.PenaltyLowersTheCeiling | intraday_scanner/formula.py:65-70 | a penalty comes off the top of the scale whatever the components |
| Formula.HaltedScoresNothing | intraday_scanner/formula.py:45-71 | a halted name scores at most 5 and is graded AVOID |
| Formula.TopGradeIsClean | intraday_scanner/formula.py:191-299 | the best grade excludes halts, offerings, thin volume, prices and gaps outside the limits, and wide spreads over 10/4.3 |
| FormulaLaws.GapEnds | intraday_scanner/formula.py:98-111 | the gap component is empty exactly without a gap and full exactly in the ideal band |
| FormulaLaws.GapAnchors | intraday_scanner/formula.py:98-111 | between its anchors the curve is a straight line |
| FormulaLaws.GapIs | intraday_scanner/formula.py:92-95 | the gap is measured from the previous close, and taken as given without one |
| FormulaLaws.LiquidityEnds | intraday_scanner/formula.py:114-121 | where the liquidity component is empty and where full |
| FormulaLaws.RotationEnds | intraday_scanner/formula.py:124-133 | the float rotation is empty exactly without volume or a known float, full exactly from eight percent of the float on, and in proportion between |
| FormulaLaws.RangeEnds | intraday_scanner/formula.py:136-148 | the range component is full exactly at the high of a range up to 45 percent of the price, empty exactly at the low of one over 67 |
| FormulaLaws.RangeParts | intraday_scanner/formula.py:136-148 | what the place in the range and its width are worth between |
| FormulaLaws.CatalystEnds | intraday_scanner/formula.py:150-162 | where the catalyst component is empty and where full |
| FormulaLaws.CatalystParts | intraday_scanner/formula.py:150-162 | what news, short interest and a scarce float are worth |
| FormulaLaws.ExecutionEnds | intraday_scanner/formula.py:165-168 | where the execution component is empty and where full |
| FormulaLaws.ExecutionParts | intraday_scanner/formula.py:165-168 | each point of the spread costs 1.8, and the price band is worth two |
| FormulaLaws.DataEnds | intraday_scanner/formula.py:171-188 | the data quality is full exactly with every observation there |
| FormulaLaws.PriceParts | intraday_scanner/formula.py:171-188 | what a previous close, a price and a range are worth |
| FormulaLaws.ObservationParts | intraday_scanner/formula.py:171-188 | what volume and freshness are worth |
| FormulaLaws.SourceParts | intraday_scanner/formula.py:171-188 | what a timestamp and complete enrichment are worth |
| FormulaLaws.FundamentalParts | intraday_scanner/formula.py:171-188 | what capitalisation, short interest and float are worth |
| FormulaLaws.NotAvoidedIff | intraday_scanner/formula.py:191-230 | a name is not avoided exactly if it meets every limit |
| FormulaLaws.GradeBands | intraday_scanner/formula.py:288-299 | every other name is graded by its score alone |
| FormulaLaws.MoreVolume | intraday_scanner/formula.py:45-69 | more volume never lowers the score |
| FormulaLaws.AddedNews | intraday_scanner/formula.py:45-69 | news never lowers it |
| FormulaLaws.NarrowerSpread | intraday_scanner/formula.py:45-69 | nor does a narrower spread that is not zero |
| FormulaLaws.SpreadToZero | intraday_scanner/formula.py:45-69 | coming down to a spread of zero raises the sum exactly if the points saved make up for the data points lost |
| FormulaLaws.LowerHigh | intraday_scanner/formula.py:136-148 | nor does a high nearer the price |
| FormulaLaws.HigherPrice | intraday_scanner/formula.py:45-69 | nor a higher price inside the price band and up to the ideal gap |
| FormulaLaws.PriceCanCost | intraday_scanner/formula.py:98-111 | past the ideal gap a higher price can |
| Ranking.SortSorts | intraday_scanner/scoring.py:46-55 | the sort is descending and a permutation |
| Ranking.SortIsStable | intraday_scanner/scoring.py:46-55 | candidates with equal keys keep their order |
| Ranking.ListsPartitionTheScan | intraday_scanner/scoring.py:46-71 | the ranked list holds every row that is not avoided and the avoid list the others, each once; both fall by score and, for equal scores, by volume, and every list is ranked from one |
| Ranking.ThresholdKeepsPrefix | intraday_scanner/scoring.py:58-62 | a threshold keeps a prefix of a falling list |
| Ranking.ExplosiveIsAPrefix | intraday_scanner/scoring.py:58-71 | the explosive list is a prefix of the full ranked list, and part of the returned one exactly when it is not longer |
| OrderBy.SplitOrderComponents | intraday_scanner/sql_safety.py:72-95 | succeeds exactly on balanced parentheses without a blank component, returns the trimmed text between depth-0 commas, and reports a blank component exactly when it comes first |
| OrderBy.PiecesRejoin | intraday_scanner/sql_safety.py:72-95 | joining the raw pieces with commas gives back the text |
| OrderBy.PiecesAreComponents | intraday_scanner/sql_safety.py:72-95 | each returned part is trimmed, nonempty, balanced and free of depth-0 commas |
| OrderBy.SplitOfJoin | intraday_scanner/sql_safety.py:72-95 | splitting parts joined with a comma and a space returns the parts |
| OrderBy.SplitIsStable | intraday_scanner/sql_safety.py:72-95 | what a split returned survives joining and splitting again |
| OrderByGrammar.ParseIff | intraday_scanner/sql_safety.py:13-22 | a string is read as an order if and only if it is a spelling of it by one of the two patterns: the captured name and numeral, keywords in any case, and spaces where the pattern allows or demands them |
| OrderByGrammar.ParseOfText | intraday_scanner/sql_safety.py:13-22 | every well-formed order is matched by a pattern in its own text and captured whole |
| OrderByGrammar.ParsedIsNumeral | intraday_scanner/sql_safety.py:18-22 | a captured fallback is an optional sign and decimal digits |
| OrderByQuoting.QuoteOrderBy | intraday_scanner/sql_safety.py:46-69 | succeeds exactly when every component matches a pattern with an allowed plain identifier, and joins their renderings in order |
| OrderByQuoting.RenderedIsWellFormed | intraday_scanner/sql_safety.py:25-32 | what is rendered is a matched order over an allowed identifier |
| OrderByQuoting.RenderedText | intraday_scanner/sql_safety.py:46-69 | the text an accepted component is rendered in, ending in DESC exactly if the component ends in a space and a spelling of it, and otherwise in ASC |
| OrderByQuoting.BareIsAscending | intraday_scanner/sql_safety.py:57-59 | an allowed column alone is rendered ascending |
| OrderByQuoting.RenderReadsBack | intraday_scanner/sql_safety.py:55-68 | a rendering without its quotes parses back to its order |
| OrderByQuoting.FixedTextIff | intraday_scanner/sql_safety.py:55-68 | outside the quotes there are only keywords, punctuation and a number if and only if the digits of the fallback are ASCII |
| OrderByQuoting.ArabicIndicFallback | intraday_scanner/sql_safety.py:18-22 | an accepted component for which that fails |
| OrderByQuoting.RenderIsComponent | intraday_scanner/sql_safety.py:59-68 | every rendering is one component |
| OrderByQuoting.QuotedListSplits | intraday_scanner/sql_safety.py:46-69 | the quoted clause splits into exactly the rendered components, so nothing captured adds or removes one |

## Left out

- Cryptography: a SHA-256 or HMAC value stands for what it was computed from, so collisions and forgeries do not occur; JSON text, its canonical form and the journal's own hash are values for the same reason.
- Operating system: fsync, symlink and reparse checks, file permissions and the operation lock of the public build. A rename and an exclusive install are single steps; the learning lock excludes other holders and is freed by a stop.
- Public file names: the eighteen public and two private names are numbered; `Artifact` records the verdicts of the inventory, verifier and scan instead of computing them, and an exact inventory is a safe one.
- Publication outside the journal: notifications, web assets, database reads and the checks of output paths before `begin`.
- PublicBuildOperation.Operation.Publish: writes to the staging directory, and its removal after a failed check, are arbitrary whole-directory changes; the outcomes of the source comparison and the publishability checks are inputs.
- Learning sources: the bounded part has a later generation after every change, so an unchanged generation means unchanged content; the open part may change in any way. Reading all database lanes is one step, as its single transaction makes it, and the lock it holds for a whole invocation is not used: the model also allows changes while one runs.
- LearningSafety.OnlyTheFrozenCohort: the fallback from an empty reserved window to the requested one and the field-by-field validators of the snapshot are not modelled; the modification time of the bounded sources is the latest of their files, one without a time left out.
- LearningRuns.SoloFreezes: evidence that is malformed or whose stored hashes disagree is refused by the program before anything is bound; here every acquisition that is in time can be read.
- DailyLearning.Store.RunDaily: describes an invocation that has the store to itself and its evidence file or database at hand; interleavings are the subject of the step machine it refines.
- DailyLearning.Store.Read: snapshot and manifest are read as one step.
- LearningInputs.RecomputationAgrees: assumes that a JSON list is never written like a JSON object and that payloads are shorter than 2^64 bytes, which no Python object reaches; malformed stored components are not modelled.
- Time zones: registrations are local day and time of day, and day numbers are integers; daylight saving and clock changes are left to the caller.
- MonitorSlots.RunLoop: sleeping, interrupts, failing work and the stored form of the receipts; readings of the clock are inputs.
- Policy names: parsing of the inception policy string is an enumeration with one unknown value.
- Floating point: arithmetic is over real numbers; the final rounding of scores, ratios and estimates for display is not modelled, except the tick rounding of entry and stop.
- Expectancy.EstimateOne: text fields are already numbers and upper-case tickers, and `exp` and `sqrt` are given by the properties the lemmas require; the explanation texts are omitted.
- Formula.ComponentsAreBounded: before rounding to two decimals, and for the default component weights of one; `log10` is arbitrary. Informational risk flags, volatility signature, liquidity tier and exit bias are omitted.
- Ranking: the score of a row is an input; only what sorting and ranking read is kept.
- OrderByGrammar.ParseOfText: the digits are those of Unicode 15.1, the version of the Python release the project requires.
- How SQLite reads the rendered clause: the model ends at its text.
- The label that says whether a reward:risk ratio is evidence: it only names the basis of the stop.
- Dashboard, command line, providers, notifiers, persistence, and the remaining services: they forward, format or store.
