# Verified model of otel-bootstrap

This project models the stateful core of otel-bootstrap in Dafny and proves what the
crate promises of it over every run, every input and every interleaving.

* **Boot timeline** (`BootClock`, `BootTimeline`, `BootExports`, `BootReport`, `BootClass`,
  `BootOwnership`, `BootShutdown`). Many threads share one timeline. Every operation has one section under
  the lock, which changes the state and decides what is left to do, and then work done after
  unlocking: write a line, export a span, end the root span, stop a provider. `BootTimeline`
  is the transition system: locked sections and items of work interleave in any order.
  `BootExports` and `BootReport` say what a run exports and writes, told from its events
  alone. `BootClass` is the timeline as an object with fields updated in place, each method
  tied to its locked section. `BootOwnership` adds the telemetry handles, and
  `BootShutdown` says when the root span is exported before its provider is stopped.
* **Lines on stderr** (`Logfmt`, `Digits`) and the **age of the process** (`ProcStat`). The
  printer is the crate's; the reader in `Logfmt` is a reference reader for the same format.
* **Slope of a memory series** (`RealSort`, `TheilSen`, `SlopeLimits`): the median of all
  pairwise slopes, over exact reals, with the exact limits of its robustness.
* **Limit on export-failure events** (`ExportBackoff`) and **retry of refused exports**
  (`ExportRetry`).
* **Log bridge** (`LogBridge`): attributes written to spans, and the walk that copies them
  onto log records.
* **Tower middlewares** (`TowerReadiness`): the handle swap in `call`, as objects and as a
  transition system over any number of services and futures.

`Options`, `Sequences` and `Text` hold shared helpers. `dafny verify dfyconfig.toml` checks
the whole project.

## Where the code and its documentation disagree

The model follows the code. Three statements in comments hold only under a condition:

* `src/bin/rss-probe.rs:182-187` says the median ignores a single step. It does so if and
  only if `4k(n-k) < n(n-1)` for a step after the first `k` of `n` samples
  (`SlopeLimits.StepShowsAtTheBoundary`); a flat series that steps once half way reads as a
  leak (`SlopeLimits.StepHalfWayReadsAsALeak`).
* `src/lib.rs:265` says a boot that never reached ready still exports its root span. For
  that the span has to be ended, and ended before its provider is stopped. Once every handle
  has been shut down it is ended if and only if an initialisation, not the application,
  connected the timeline first (`BootOwnership.AllShutDownEndsTheRoot`); an application that
  flushes the timeline before initialising loses it
  (`BootOwnership.FlushBeforeInitLosesTheRoot`). It is exported, whatever the schedule, if and
  only if in addition every stop of the provider is clear in the sense of the next item
  (`BootShutdown.AllShutDownExportsTheRoot`).
* `src/boot.rs:357-358` and `src/lib.rs:209-210` say the root span is ended before its
  provider shuts down. Over every run, every schedule and every shutdown of the process, that
  is so if and only if each shutdown of the owner, one that overlaps another included, finds
  no thread that has taken the root without having ended it, and the application does not stop
  the provider itself before the root has ended (`BootShutdown.OwnerStopsFollowTheRoot`). On a
  boot that never reached ready, two overlapping shutdowns of the owner break it
  (`BootOwnership.OverlappingShutdownsLoseTheRace`); on one that did, a thread between marking
  the boot ready and ending the root (`BootOwnership.ReadyInFlightLosesTheRace`).

## Model

| member | source | states |
|---|---|---|
| BootTimeline.WorkIsConserved | src/boot.rs:309-403 | Over every interleaving of locked sections and work, the work done and the work in flight are together, as a multiset, exactly the work handed out under the lock. |
| BootTimeline.ReachableState | src/boot.rs:130-138 | Every reachable state is told by the events: the buffer is the first 256 phases recorded, buffered plus dropped is all of them, every buffered flag says whether there is an exporter, the first attach, the first ready and the last service name win, and the root is taken exactly when it is due. |
| BootTimeline.RecordsTellTheEvents | src/boot.rs:377-385 | The phases recorded are those of the record events, one for one in lock order: each has the name and outcome given, its wall start and end clamped to the origin, the time it took and its offset, all told from the instants. |
| BootTimeline.BufferHolds256 | src/boot.rs:75 | The buffer holds every phase recorded up to 256 and the first 256 after that, the rest are dropped, and each is the phase of its record event. |
| BootTimeline.FirstAttach | src/boot.rs:309-313 | The first attach of a run, with no other before it: the provider that wins. |
| BootTimeline.FirstReady | src/boot.rs:278-281 | The first time a run is marked ready, with no other before it: the call that counts. |
| BootTimeline.RootDueStep | src/boot.rs:429-436 | The root becomes due at a step exactly when attach and ready first hold together or the boot is closed with an exporter; a close before attach consumes nothing, and once due it stays due. |
| BootExports.IssuedExports | src/boot.rs:387-402 | The exports handed out are, in order, the first 256 phases recorded before the first attach and then every phase recorded after it, all to the exporter of that attach. |
| BootExports.IssuedExportCount | src/boot.rs:388-395 | Exactly one export is handed out for each of at most 256 phases recorded before the first attach and for each recorded after it. |
| BootExports.ExactlyOnceExport | src/boot.rs:329-349 | Over every interleaving a phase is exported plus being exported exactly as often as it is owed, and never by another exporter: no repeat, no loss. |
| BootExports.AtQuiescenceAllOwedIsExported | src/boot.rs:347-349 | Once every operation has returned, each owed phase has been exported exactly as often as it was recorded. |
| BootExports.OnlyDroppedPhasesAreNeverExported | src/boot.rs:72-75 | The phases not owed to the provider are those recorded before it past the bound of 256, as many as the drop count at the attach; at quiescence the spans exported and one for each of those make up, as a multiset, one span for every phase recorded. |
| BootExports.TasksStayInOrder | src/boot.rs:396-402 | Over every interleaving each operation writes its line before it exports, exports before it ends the root, and ends the root before it stops a provider. |
| BootExports.TakingRun | src/boot.rs:429-436 | There is one event whose locked section takes the root, if and only if it is due: the first at which it is due, and a close unless the boot was ready by then. |
| BootExports.IssuedRootEnds | src/boot.rs:429-436 | The end of the root span is handed out at most once, exactly when due, with outcome ready exactly if the boot was ready at the taking step, at the first ready instant or the closing one, with the buffered and dropped counts of the phases recorded before that step. |
| BootExports.SingleRootEnd | src/boot.rs:286-294 | Over every interleaving the one end of the root is done or in flight once if due, never otherwise, and it is no other end; at quiescence it is done. |
| BootReport.IssuedLines | src/boot.rs:396-399 | The lines handed out are one for every phase in lock order, under the service name known by then, and one for the first ready. |
| BootReport.StderrTellsTheBoot | src/boot.rs:413-417 | At quiescence stderr holds exactly the lines owed, each without a control character and each reading back as what it says. |
| BootReport.LinesTellEveryPhase | src/boot.rs:72-78 | The lines tell every phase recorded, dropped ones included, each with what its record event was given, and the milestone once if the boot reached ready and else never. |
| BootReport.MilestoneTellsReady | src/boot.rs:273-286 | The milestone line tells the offset from the origin of the instant that first marked the boot ready, and what the origin is. |
| BootReport.RecordedTimes | src/boot.rs:377-385 | Every recorded phase starts no earlier than the origin, ends at the origin plus its offset, and spans no more wall time than it took. |
| BootReport.SpansNestInTheRoot | src/boot.rs:318-328 | Every exported phase belongs to the one root span and starts no earlier than it; where the root ended at ready, a phase ends inside it if and only if its offset is within that of the milestone, and every phase whose guard ended by the first ready instant ends inside it. |
| BootClock.GlobalClockIsCalibrated | src/boot.rs:185-213 | The origin is first use less the age of the process exactly when an age is known and representable, else first use itself, and later instants map to the wall clock read at construction plus the time elapsed, or from the second reading where the first underflows. |
| BootClock.WallIsMonotone | src/boot.rs:405-407 | The wall mapping is monotone, never before the origin, and never stretches an interval. |
| BootClock.WallExtent | src/boot.rs:377-385 | The wall extent of a phase is at most its duration, and equal to it exactly when the phase started at or after the origin or took no time. |
| BootClock.MillisIsFloor | src/boot.rs:605-607 | A duration reads as its floor in milliseconds, or as the greatest 64-bit number past that. |
| BootClock.MillisPlaceTheStart | src/boot.rs:605-607 | Below saturation the offset read off a line less the duration read off it is the floored start offset or one more. |
| BootClass.Timeline.constructor | src/boot.rs:185-198 | A new timeline is in the empty state of the transition system. |
| BootClass.Timeline.SetServiceName | src/boot.rs:224-226 | Refines the locked section that names the service. |
| BootClass.Timeline.TakeRoot | src/boot.rs:429-436 | Refines the section that takes the root: nothing without an exporter or a second time. |
| BootClass.Timeline.Record | src/boot.rs:377-403 | Refines the locked section of recording a phase, in its new state and in the work handed out, whose line is of the phase told by the name, outcome and instants given. |
| BootClass.Timeline.MarkReady | src/boot.rs:273-295 | Refines the locked section of marking the boot ready, in its new state and in the work handed out. |
| BootClass.Timeline.DrainPending | src/boot.rs:330-338 | Marks every buffered phase exported and returns, in completion order, exactly those that were not. |
| BootClass.Timeline.Attach | src/boot.rs:309-355 | Refines the locked section of attaching a provider, and returns how many phases it exports, or none where a provider was there. |
| BootClass.Timeline.Flush | src/boot.rs:303-305 | The first provider wins: any later call returns zero, hands out nothing and changes nothing. |
| BootClass.Timeline.Close | src/boot.rs:359-365 | Refines the locked section of closing the boot. |
| BootClass.Timeline.Phases | src/boot.rs:369-375 | The loop returns as many phases as are buffered, each the phase recorded at its position, so in completion order. |
| BootClass.PhaseGuard.End | src/boot.rs:459-464 | Records the phase on the first end and nothing on any later one. |
| BootClass.PhaseGuard.EndAndDrop | src/boot.rs:448-471 | A guard finished or failed and then dropped records its phase once, under its name, with the outcome it was ended with and its own start and end. |
| BootOwnership.AtMostOneOwner | src/lib.rs:1102-1104 | Across any sequence of inits, shutdowns and drops at most one handle owns the timeline, the one whose provider it exports to, and nobody closes the boot before it is attached. |
| BootOwnership.OwnerConnected | src/lib.rs:209-211 | Some handle owns the timeline if and only if an initialisation, not the application, connected it first. |
| BootOwnership.FirstInitConnects | src/lib.rs:1101-1104 | The first initialisation connects the timeline to its own provider, under its own service name unless one was set, and its handle owns it; any later one leaves the timeline as it is. |
| BootOwnership.NonOwnerLeavesTimeline | src/lib.rs:266-270 | Shutting down or dropping a handle that is no owner leaves the timeline state, its exports and its root end as they were. |
| BootOwnership.RootEndsWhenReadyOrOwnerShutDown | src/lib.rs:265-270 | The end of the root is handed out at most once, and, at quiescence, the root has ended, if and only if the timeline was connected and the boot reached ready or an owner was shut down. |
| BootOwnership.AllShutDownEndsTheRoot | src/lib.rs:265-270 | In every run in which every handle was shut down and the boot never reached ready, the end of the root is handed out, and at quiescence done, if and only if an initialisation connected the timeline first. |
| BootOwnership.FlushedFirst | src/boot.rs:309-313 | In every run in which the application flushes the timeline first, no initialisation ever connects it. |
| BootOwnership.FlushBeforeInitLosesTheRoot | src/lib.rs:265-270 | A concrete run in which every handle is shut down and the root of a boot that never reached ready is not ended. |
| BootOwnership.OwnerShutdownTakesTheRoot | src/lib.rs:247-251 | After an owner's shutdown or drop the root has been taken exactly once, and by this call only where nothing took it before. |
| BootOwnership.OwnerShutdownEndsIncomplete | src/boot.rs:359-365 | Where nothing took the root before, an owner's shutdown ends it once, as incomplete, on its own provider, at the instant of the call and with the counts of that moment. |
| BootOwnership.TaskRunsInOrder | src/lib.rs:247-251 | Whatever is interleaved, one operation performs its work in order: what it has left is the end of what it had, and the rest is done. |
| BootShutdown.StopsFollowTheRoot | src/boot.rs:357-365 | Over every run and every schedule of the work left at any point of it, whenever the provider is stopped the root has ended, if and only if each close that stops it finds the timeline connected and no root end in flight, and each other stop of it finds the root ended. |
| BootShutdown.OwnerStopsFollowTheRoot | src/lib.rs:209-211 | Across any sequence of inits, shutdowns, drops and calls of the application, and every schedule, the owner's provider is never stopped before the root has ended, if and only if every shutdown of the owner finds no root end in flight and the application stops the provider only after the root has ended. |
| BootShutdown.RootIsExportedExactly | src/boot.rs:359-365 | Over every run the root is exported, ended by every finish of the run and before any stop of its provider, if and only if it is due and every stop of the provider is clear. |
| BootShutdown.RunCanFinish | src/boot.rs:282-294 | Every run can be finished by performing the work left, so a claim about finished runs is never empty. |
| BootShutdown.AllShutDownExportsTheRoot | src/lib.rs:265-270 | In every run in which every handle was shut down and the boot never reached ready, the root is exported, whatever the schedule, if and only if an initialisation connected the timeline first and every stop of the provider was clear. |
| BootShutdown.OwnerShutDownExportsTheRoot | src/lib.rs:247-270 | Once the owner was shut down, the root is exported, whatever the schedule, if and only if no shutdown of the owner met a root end in flight and the application did not stop the provider before the root had ended. |
| BootOwnership.OverlappingShutdownsLoseTheRace | src/boot.rs:357-365 | A concrete run of a boot that never reached ready in which two shutdowns of the owner overlap and the provider is stopped before the root is ended as incomplete. |
| BootOwnership.ReadyInFlightLosesTheRace | src/lib.rs:209-211 | A concrete run of a boot that reached ready in which the owner stops its provider before the root span is ended. |
| Logfmt.PushValue | src/boot.rs:581-603 | The loop appends to the output exactly the printed form of the value, for which QuotedExactlyWhereNeeded and ValueReadsBack are proved. |
| Logfmt.QuotedExactlyWhereNeeded | src/boot.rs:582-590 | A value is printed as it is if and only if it is not empty and holds no white space, control character, quote, equals sign or backslash, and otherwise stands between quotes. |
| Logfmt.EscapesAreThoseOfTheFormat | src/boot.rs:591-601 | Inside quotes a plain character stands for itself, and each other one is written in the one form the format has for it. |
| Logfmt.EscapeReadsBack | src/boot.rs:592-600 | Each of the four escape forms, braced hexadecimal included, and each plain character reads back as the character. |
| Logfmt.ValueReadsBack | src/boot.rs:580-603 | Any value, bare or quoted, reads back verbatim before a space or the end. |
| Logfmt.FieldsReadBack | src/boot.rs:554-567 | Any list of fields reads back, keys and values verbatim. |
| Logfmt.LineReadsBack | src/boot.rs:554-578 | Every phase line and every milestone line reads back as its name, outcome, milliseconds, origin and service, whatever characters names and services hold. |
| Logfmt.PhaseLineIsNoMilestone | src/boot.rs:77-78 | No phase line, even of a phase named ready, equals a milestone line. |
| Logfmt.RenderedLineHasNoControl | src/boot.rs:592-600 | No line holds a control character, so a phase is one line. |
| Digits.PrintReadsBack | src/boot.rs:597 | Numbers printed in decimal or hexadecimal read back. |
| ProcStat.FieldsSplit | src/boot.rs:653 | Splitting the field tail of a stat line on white space gives back its fields. |
| ProcStat.SpacedWordsSplit | src/boot.rs:653 | Whatever white space stands around and between words, splitting gives the words. |
| ProcStat.LastParenEndsCommand | src/boot.rs:649-652 | The last parenthesis of a stat line is the one that closes the command name. |
| ProcStat.CommandNameIsSkipped | src/boot.rs:647-659 | For every pid, command name and field tail the age is the uptime less ten milliseconds a tick of the twentieth field, and there is none exactly where that field is missing or no 64-bit number, the product overflows, the uptime is missing, or the difference is negative. |
| ProcStat.PrintedStartReadsBack | src/boot.rs:647-659 | A start time as the kernel prints it reads back, and gives an age exactly while it does not overflow and lies within the uptime. |
| ProcStat.DigitsAreParsed | src/boot.rs:653 | Digits, alone or after one plus sign, parse to the number they spell up to the greatest of 64 bits. |
| ProcStat.NoNumberNoAge | src/boot.rs:653 | A start field with anything but digits after an optional plus sign, or with no digit, gives no age. |
| ProcStat.NoCommandNoAge | src/boot.rs:652 | A line without a parenthesis gives no age. |
| RealSort.Sort | src/bin/rss-probe.rs:202 | Sorts the array in place into the sorted order of its values. |
| RealSort.SortedIsSorted | src/bin/rss-probe.rs:202 | The sorted order ascends. |
| RealSort.SortedIsPermutation | src/bin/rss-probe.rs:202 | The sorted order holds the same values, each as often. |
| RealSort.SortedOrderIsUnique | src/bin/rss-probe.rs:202 | Two ascending orders of the same values are equal, so the slope does not depend on the sorting algorithm. |
| RealSort.RankInSorted | src/bin/rss-probe.rs:203-208 | In sorted order the values below any bound come first and those above it last, each counted exactly. |
| TheilSen.MeasureSlope | src/bin/rss-probe.rs:188-209 | Sorting a copy in place and indexing its middle measures the slope of the specification. |
| TheilSen.MedianByRank | src/bin/rss-probe.rs:203-208 | A value with fewer than half of all slopes on either side is the median, and one with half or more above it lies below the median. |
| TheilSen.SlopeIsAMedian | src/bin/rss-probe.rs:179-180 | At most half of all pairwise slopes lie on either side of the slope, and it lies between two of them. |
| TheilSen.PairwiseIsEveryPair | src/bin/rss-probe.rs:189-198 | For any times, a value is among the slopes if and only if it is the slope from some sample to a later one with a later time. |
| TheilSen.PairCount | src/bin/rss-probe.rs:189-198 | On strictly increasing times exactly n(n-1)/2 pairs count. |
| TheilSen.SlopeIsEquivariant | src/bin/rss-probe.rs:188-209 | Scaling a series by any real, a negative one included, and adding a line of slope d gives the scaled slope plus d, if and only if some pair counts or d is zero. |
| TheilSen.OffSlopes | src/bin/rss-probe.rs:182-183 | Of all pairs, at least those between two samples on a line have its slope. |
| TheilSen.MajorityLineIsReported | src/bin/rss-probe.rs:182-183 | A line through g of n samples with 2g(g-1) > n(n-1) is reported exactly, whatever the other samples are. |
| TheilSen.SteadyLeakIsReported | src/bin/rss-probe.rs:182-183 | A leak that grows steadily is reported in full from two samples on. |
| SlopeLimits.StepCounts | src/bin/rss-probe.rs:183-185 | A step after the first k of n samples moves exactly the k(n-k) pairs that straddle it. |
| SlopeLimits.StepShowsAtTheBoundary | src/bin/rss-probe.rs:183-185 | The slope of a single step is zero if and only if 4k(n-k) < n(n-1), and otherwise has the sign of the step. |
| SlopeLimits.StepOnLineShowsAtTheBoundary | src/bin/rss-probe.rs:182-185 | A steady leak with one step on top is reported exactly if and only if 4k(n-k) < n(n-1), and otherwise too high or too low as the step goes. |
| SlopeLimits.StepHalfWayReadsAsALeak | src/bin/rss-probe.rs:183-187 | A concrete series that leaks nothing, steps once and has a positive slope. |
| SlopeLimits.HingeCounts | src/bin/rss-probe.rs:188-209 | In a series level for g samples and rising after that, exactly the pairs not within the level part have a positive slope. |
| SlopeLimits.BreakdownIsSharp | src/bin/rss-probe.rs:188-209 | g of n samples on a line force the slope to be its slope, for all other samples, if and only if 2g(g-1) > n(n-1). |
| Text.ContainsIsSubstring | src/export_backoff.rs:93 | A name contains a word if and only if the word stands somewhere in it. |
| Text.TrimMatches | src/log_bridge.rs:45 | Exactly the trimmed characters go, at both ends and nowhere else. |
| ExportBackoff.LastString | src/export_backoff.rs:70-74 | The string field that wins is the last called name. |
| ExportBackoff.VisitName | src/export_backoff.rs:69-81 | The visitor finds the last string field called name, else the first of any other type. |
| ExportBackoff.KindIsByName | src/export_backoff.rs:69-94 | An event is called by its last string field name, else by its first field name of any other type without the quotes around it, else by its call site; its kind is that name exactly if it is an SDK warning or error and the name holds the word. |
| ExportBackoff.ExportFailureKind | src/export_backoff.rs:85-94 | Visits the fields and returns the kind so told. |
| ExportBackoff.ExportFailureBackoff.Admit | src/export_backoff.rs:38-61 | Refines the step of the transition system on the windows map, for which WindowsMatchHistory is proved. |
| ExportBackoff.ExportFailureBackoff.EventEnabled | src/export_backoff.rs:96-103 | Refines the filter step: an event of no kind passes and leaves the windows as they were. |
| ExportBackoff.WindowsMatchHistory | src/export_backoff.rs:43-60 | Over every stream the window of a kind is determined by that kind's own admissions: the last one and min(60 * 2^j, 3600) seconds after j+1 of them. |
| ExportBackoff.FilterRefinesLimit | src/export_backoff.rs:96-103 | Over every stream an export failure passes if and only if its own kind's history makes it due, and any other event passes and changes nothing. |
| ExportBackoff.KindsAreIndependent | src/export_backoff.rs:4-10 | Other kinds and other events never change a decision. |
| ExportBackoff.AnHourIsEnough | src/export_backoff.rs:8-9 | An event an hour after its kind's last admission passes, one within a minute never does. |
| ExportBackoff.WaitDoubles | src/export_backoff.rs:55 | The wait starts at a minute, doubles up to an hour and never shrinks. |
| ExportBackoff.EarliestGrowsByWait | src/export_backoff.rs:21-22 | The closed form, 60(2^n - 1) seconds up to n = 6 and 3780 + 3600(n-6) after that, is the sum of the waits. |
| ExportBackoff.FilterAdmitsByLimit | src/export_backoff.rs:96-103 | Over every stream the instants of a kind that the filter lets through are exactly those the pure limit admits out of that kind's instants. |
| ExportBackoff.FilterSpacesLines | src/export_backoff.rs:97-101 | Over every stream, with instants in any order, the filter lets the first failure of a kind through, the n-th no earlier than the first plus the closed form, and each at least its wait after the one before. |
| ExportBackoff.FilterBoundsLines | src/export_backoff.rs:4-10 | Over every stream the filter lets at most n failures of a kind through while every instant of it falls short of the n-th earliest one. |
| ExportBackoff.FilterAttainsTheBound | src/export_backoff.rs:38-61 | On any stream in which a kind fails every second the filter lets through exactly the earliest instants, so the closed form is attained. |
| ExportRetry.LeadingRefusals | src/export_retry.rs:73-76 | The length of the leading run of refusals, cut off at a limit: all of them refused, and the next answer not, unless the limit is reached. |
| ExportRetry.UnavailableHoldsTheWord | src/export_retry.rs:62-64 | An answer is a refusal exactly if it is an error whose text holds the word Unavailable. |
| ExportRetry.RetryUnavailable.ExportLogs | src/export_retry.rs:67-81 | Against any exporter: no retry without a runtime; else one retry after each refusal, and none after the first other answer or the last delay. All attempts are on the same batch, after exactly the matching prefix of delays, and the last answer is returned. |
| ExportRetry.RetryUnavailable.ExportSpans | src/export_retry.rs:97-110 | The same, so the two loops agree on every exporter. |
| ExportRetry.LostOnlyWhenAllRefused | src/export_retry.rs:62-81 | An export is lost as unavailable if and only if every attempt allowed was refused, and any other answer ends the retries at once. |
| LogBridge.WritesRefineOneMapPerSpan | src/log_bridge.rs:125-146 | Over any writes across spans, each span holds one value a key, the last written, in the order of first insertion; its tracked fields, its parent and other spans do not matter. |
| LogBridge.RunTellsStories | src/log_bridge.rs:192-208 | Over every run of spans created and written to in any order, each span tracks exactly the configured keys its creation mentions, each with the text of the last field of that name, and one value for each key written since, the last, in the order of first insertion. |
| LogBridge.ScopeIsThePathOut | src/log_bridge.rs:234 | The walk visits the span and every one that encloses it, each once, from the inside out. |
| LogBridge.RecordTellsTheRun | src/log_bridge.rs:229-252 | Over every such run and every hash-map order, a key looked up in the span-derived part of a record has the value told by the nearest enclosing span, a configured field of its creation before a value written later, and none where no enclosing span was told any. |
| LogBridge.FirstMatchIsLexicalScoping | src/log_bridge.rs:229-252 | For every hash-map order, looking a key up by first match yields its value in the nearest enclosing span that holds it, a tracked field before an attribute, and nothing exactly where none does. |
| LogBridge.WalkIsComplete | src/log_bridge.rs:234-249 | The span-derived part of a record holds a tracked field or attribute if and only if an enclosing span carries it. |
| LogBridge.Entries | src/log_bridge.rs:237 | Iterating a hash map gives each entry once, in some order. |
| LogBridge.Registry.Collect | src/log_bridge.rs:34-49 | The visitor captures exactly the configured keys the fields mention, each with the text of the last field of that name: a string as it is, other text without the quotes around it. |
| LogBridge.Registry.NewSpan | src/log_bridge.rs:192-208 | Refines one creation of the specification: the new span tracks exactly the configured keys given at creation, with the texts given, and earlier spans stay as they were. |
| LogBridge.Registry.RecordSpanLogAttrOn | src/log_bridge.rs:129-146 | Refines one write of the specification, on a span that is there and on one that is not. |
| LogBridge.Registry.InjectSpanContext | src/log_bridge.rs:229-252 | Appends to the record a walk over the span and all that enclose it, nearest first. |
| TowerReadiness.TraceService.PollReady | src/grpc_middleware.rs:77-79 | Polls the handle the service holds now. |
| TowerReadiness.TraceService.Call | src/grpc_middleware.rs:81-106 | The future takes the very handle that was polled, readiness and all, and the service keeps a fresh one that is not ready. |
| TowerReadiness.TraceService.Start | src/grpc_middleware.rs:105 | A future, when it starts, calls its own handle once, and panics exactly if that handle is not ready. |
| TowerReadiness.TraceService.Clone | src/grpc_middleware.rs:63-66 | A clone of a service holds a fresh handle of its own. |
| TowerReadiness.RunMatchesCallers | src/axum_middleware.rs:96-113 | Over every run no two services or futures share a handle, and each holds one nobody has called, ready exactly as the caller left it. |
| TowerReadiness.FuturesCallReadyHandles | src/grpc_middleware.rs:159-169 | Over every run the inner service is called exactly once for each future started, in that order, and never for one dropped first; each call is on a handle nothing else holds and nobody has called, polled ready exactly if the service was polled ready before the call that made the future. |
| TowerReadiness.PollingBeforeEveryCallIsEnough | src/grpc_middleware.rs:95-105 | If callers poll before every call, the inner service is never called on a handle that is not ready, however many services and futures there are and however late a future starts. |

## Left out

- Floating point: samples, slopes and the uptime are exact, so rounding, NaN, infinities and the total order on them are not modelled; the uptime arrives parsed, or as nothing where it could not be.
- Integer width: drop counts and instants are unbounded. The saturating millisecond conversion, checked subtraction, checked tick product and 64-bit parse are modelled; the 64-bit counter of dropped phases, the signed span attributes, and a wall time past the latest representable one are not.
- What a span carries besides its phase and its exporter: attributes, status and the root's origin attribute are functions of those. The `tracing` event beside each span export and root end is not an item of work of its own.
- What becomes of a span that is ended, or exported, after its provider was stopped: exports are counted when they are performed. For the root span the order is proved; a phase that completes after its provider was stopped is owed and performed all the same.
- Meter and logger providers, the timeout of a drop and its background thread: stopping a provider is one item of work.
- Mutex poisoning: the lock is an atomic section.
- The future wrappers that time a phase (`time`, `try_time`) and ambient context across polls: one branch each over the phase guard.
- The derivation of the default service name: a parameter of the timeline.
- The fields, severity and name of a log event, set before the walk: they appear only as the record given to it. Filters of the subscriber and kinds of attribute value other than strings, booleans and integers.
- Hash maps are modelled as maps listed in any order; debug text of a field arrives already formatted.
- Trace context, spans, response headers and the response of the middlewares: the swap is the same in all three services and is modelled once. The object form covers one service; the transition system over many holds handles as values.
- The delays of a retry: each is recorded, not slept, and the default list is a parameter.
- A reader of the lines on stderr: the crate has none, so the one in `Logfmt` is a reference.
- Provider, exporter, resource and subscriber construction, sampler, protocol, timeout and endpoint resolution, TLS and certificates, profiling agents, runtime metrics, the probe's sinks and its `statm` parsing: calls into other libraries, or easier forms of what is modelled.
