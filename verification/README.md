# basefyio, modelled and proved

A Dafny model of the parts of basefyio whose behaviour is hardest to see from the code, with proofs of what
they are for. `dafny verify dfyconfig.toml` checks all of it.

| module | models |
|---|---|
| `WriteRate`, `Alerts`, `Scratch`, `Growth` | the parts of the storage autopilot: the write rate and its bounded sample buffer, repeated alerts and the trimmed event log, the scratch sweep, the growth arithmetic |
| `Pilot` | one pass of the autopilot as a step on its persistent state and on the world, and runs of passes |
| `VolumeRuns`, `HistoryRuns`, `ScratchRuns` | what holds over whole runs: the volume, the memory of the autopilot, recovery scratch |
| `RateLaws`, `Decisions` | what the rate means, and what a pass decides, alerts and records, told by sizes, minutes and the token alone |
| `Convergence`, `OneGrowth` | coming to rest, and when one growth is enough for it |
| `AutopilotClass` | `class Autopilot`, its methods in the form of the source, each tied to its step of `Pilot` |
| `Redirects`, `Landings` | the redirect table, the middleware and the sidebar's links as one rewriting system; where every address comes to rest, told by its text |
| `Text`, `Overlap` | `split` and `join`, and when a text comes back out of its own replacement |
| `Secrets`, `PromptKeys`, `Passwords` | masking of secrets on screen and in the prompt; the password generator and its validator |
| `Markdown`, `Inline` | the block loop of the Markdown view and the inline loop |
| `MarkdownPrint`, `InlineTokens` | blocks and nodes written down and read back |
| `ChatContent`, `ChatParts`, `Escape` | chat answers cut at code fences, and what is shown of the pieces; the HTML escape chain |
| `ChatSync`, `ChatPanel` | the upload of chat conversations as a protocol, and the panel's refs that carry it out |
| `ChatRuns`, `ChatTalk`, `ChatGuard`, `ChatRest`, `ChatFaults` | its runs: rows and logs; what conversations hold; when appends may overlap; what is complete at rest; lost answers and closing |
| `Reconciliation`, `ReportOrder`, `KeylessOrder` | the order, the folded view and the counts of the import report; both told by the fields of its tables; where tables without a key stand |

## How the world is modelled

- Sizes are GiB and times are seconds, both as reals. Python floats are read as exact reals, with `round(x, 1)`
  (ties to even) and `math.ceil` written out.
- Of a file system's own size a constant share `shown` is what statvfs reports as its total, and a constant
  share `usable` is what files can fill, `0 < usable <= shown <= 1`. The rest is reserved: when root has written
  there, statvfs reports nothing available and the usage reads 100 per cent.
- A pass of the autopilot gets everything it learns from outside in one `Input`: what the provider and the
  kernel made of the volume, whether commands work, the time, the usage, the scratch directory as it is. A run
  is any sequence of inputs on a clock that never goes back; every resize, extension, deletion and token answer
  may fail in any pattern. An accepted resize that ends without success may still take effect later
  (`promised`).
- `cfg` is sensible when `0 < TARGET < GROW_AT <= 100`, `MIN_STEP >= 1`, `MIN_FREE >= 0` and `0 <= HORIZON <=
  60`; theorems that need it say so.
- Strings are sequences of characters. Regular expressions are written out as predicates and scanning functions;
  `\s`, the dot and `trim` follow JavaScript. `toLowerCase` maps ASCII letters only.
- `localeCompare` is a parameter of which only the laws of a preorder are used. The library's sort is specified
  as a stable sort by the comparator, which is proved to exist and to be unique.
- The chat panel's effect has its timer as a part of the state: it is started by whatever sets the list of
  conversations, and not by an append that comes back or a request that fails.
- What a removal whose errors are ignored leaves of a directory is an input: nothing, all of it, or a part.
- Random draws are arbitrary; server identifiers and local identifiers are never given out twice.

## What the proofs found

- The 120-sample buffer gives the rate of full history exactly when passes are more than 1860/121, about 15.4,
  seconds apart (`WriteRate.SpacingIsExact`).
- An uncapped growth ends the usage and time-to-full reasons for every volume exactly when the target, divided
  by the usable share and rounded to a tenth, is below `GROW_AT` (`Growth.PurposeExactly`); `TARGET < GROW_AT`
  alone does not do. With 80 and 79.98 a growth from 90 to 100 GB still reads 80.0 per cent, and a second growth
  follows (`OneGrowth.TwoGrowthsHappen`). The same condition decides when the convergence bound of one growth
  holds (`OneGrowth.OneGrowthExactly`); settling itself needs no such condition
  (`Convergence.SteadyRunsSettle`).
- A gap of at most 2 GiB between device and file system is not what step 1 looks for; at the ceiling it stays
  for ever (`VolumeRuns.HealsExactly`, `VolumeRuns.SmallGapIsNeverHealed`).
- `freed` also counts directories whose removal failed, in part or whole: five bytes reported, none gone
  (`Scratch.FreedButStillThere`). It is what is gone exactly when removals leave nothing of the dead but empty
  directories (`Scratch.FreedExactly`).
- The first occurrence of an alert after a clear is reported at once because the missing time reads as the
  epoch; the exact condition is in `Alerts.FirstAfterClearIsReported`.
- The screen mask can fail for a password that holds bullets: some text shows it exactly when it can overlap its
  own mask beyond the six characters the mask keeps (`Secrets.MaskShowsSecretExactly`). The validator accepts
  such passwords, for instance eight bullets and `aA1` (`Passwords.AcceptedMayShow`). Bullets in one secret never
  bring another one back on screen (`Secrets.HideSecretsComplete`).
- The prompt placeholder can spell the password it replaces, for example `password` in `<db-password>`
  (`Secrets.PasswordIsShown`). For a password without angle brackets, and every service key,
  `Secrets.PromptLeaksExactly` says exactly when; for a password with brackets `Secrets.PromptShowsExactly` does,
  where no service key is masked before it. For a service key without angle brackets, and every password,
  `PromptKeys.KeyLeaksExactly` says exactly when: the two placeholders can work on each other. Generated
  passwords are never shown (`Passwords.GeneratedPasswordNeverShows`).
- The Markdown view silently drops some lines: a line with a pipe before a line of spaces, colons and pipes
  without a dash, and a heading that holds a bare line end (`Markdown.DroppedExactly`). Of `a|b` before `:|:` the
  first line is lost (`Markdown.PipeLineIsDropped`).
- A list whose first item holds a pipe and whose second line is nothing but white space, colons, pipes and dashes is
  read as a table; nothing else keeps a dashed list from being read back as written (`MarkdownPrint.DashedExactly`).
- A failed create or append is retried at the next change, as the comment in the code says, and only then: when
  nothing more is said, the message stays on no row (`ChatRest.FailureRests`). Once nothing is on its way and no
  timer is running, a conversation stands complete on the server exactly when none of its requests has failed
  since the timer last fired (`ChatRest.RestIsCompleteExactly`).
- When the timer fires for a conversation whose last append is still on its way, its log stays a prefix, whatever
  order the two arrive in, exactly if the two stretches make the same messages in either order
  (`ChatGuard.GuardExactly`); where nothing is said twice they never do (`ChatGuard.GuardIsExact`). The code has no
  such guard, and a short run in which nothing fails comes to this point (`ChatFaults.OverlapHappens`).
- A create or append that takes effect but comes back as failed is tried again with the next change: the
  conversation can get a second row, or the same message twice (`ChatFaults.TwoRowsHappen`,
  `ChatFaults.DoubledLogHappens`). One row each and prefix logs are secure exactly in the runs that lose no such
  answer (`ChatFaults.OneRowExactly`, `ChatFaults.LogsExactly`).
- Closing a conversation cleans up for good exactly when no create of it is on its way and every row made for it
  is the one row that is deleted (`ChatFaults.ClosingCleansUpExactly`). A conversation whose first create was lost
  leaves that row behind (`ChatFaults.LostRowOutlivesClosing`).
- The comment above the reconciliation table puts tables without a key second; the code sorts by attention, then
  by the rank of the row kind, then by name. A matching table without a key comes behind an uncounted table with
  a key and a note (`KeylessOrder.KeylessComesThird`); `KeylessOrder.KeylessSecondExactly` says when the comment
  holds.
- The redirect bound of three hops is tight (`Redirects.ThreeHopsHappen`).

## Model

| member | source | states |
|---|---|---|
| `VolumeRuns.FirstWorkingPassHeals` | scripts/storage-autopilot.py:521-538 | After any run in which every extension fails, a gap over 2 GiB is closed by the first pass whose extend command works, whatever token, throttle and growth reasons say. |
| `VolumeRuns.HealsExactly` | scripts/storage-autopilot.py:521-538 | A working pass that does not grow the volume leaves file system and device equal if and only if there was no gap or the gap was over 2 GiB. |
| `VolumeRuns.SmallGapIsNeverHealed` | scripts/storage-autopilot.py:525-525 | At the ceiling a gap of at most 2 GiB stays in every run, even if every command works. |
| `VolumeRuns.SizesAreSafe` | scripts/storage-autopilot.py:510-627 | In every run, with every pattern of failures: file system within device within volume, no size ever shrinks, and the volume never exceeds the ceiling or what it already was. |
| `VolumeRuns.GrowthsAreBounded` | scripts/storage-autopilot.py:642-661 | A run has at most ceil((MAX_SIZE_GB - size) / MIN_STEP_GB) successful growths, none from the ceiling on. |
| `VolumeRuns.RequestIsBounded` | scripts/storage-autopilot.py:629-661 | A size asked for is above the present one, within the ceiling, and a whole step larger unless it is the ceiling; it needs a token and a volume. |
| `VolumeRuns.AttemptsAreApart` | scripts/storage-autopilot.py:654-663 | Any two growth attempts of a run, failed or not, lie at least GROW_RETRY_SECONDS apart. |
| `VolumeRuns.DryRunTouchesNothing` | scripts/storage-autopilot.py:381-384 | No pass of a dry run changes volume or scratch. |
| `VolumeRuns.PassVolume` | scripts/storage-autopilot.py:510-627 | Nothing in a pass touches the volume but healing and one granted request. |
| `Decisions.GrowthIsAskedExactly` | scripts/storage-autopilot.py:553-655 | A pass asks for growth if and only if it finds the mount, its volume reads at least GROW_AT per cent, has less than MIN_FREE available, or fills at the measured rate within the horizon while reading at least the gate, the provider takes the token, the size is below the ceiling and the last attempt is ten minutes old. |
| `Decisions.GrowthIsLeast` | scripts/storage-autopilot.py:656-661 | What it asks for is the ceiling, or the least multiple of ten that holds one step more than the present size, the usage at the target, and that of an hour later at the measured rate. |
| `Decisions.RisingRunAsksExactly` | scripts/storage-autopilot.py:553-655 | In a run whose usage has risen by `r` GiB in every minute, passes wide enough apart, the next pass asks for growth exactly when the volume is full, short of room or full within the horizon at the rate `r`, and token, ceiling and last attempt allow it. |
| `Decisions.RisingRunIsMeasured` | scripts/storage-autopilot.py:363-379 | The rate such a run acts on is `r`, whatever was kept of its history. |
| `Decisions.AlertsAreRaisedExactly` | scripts/storage-autopilot.py:570-611 | A pass raises and clears each alert exactly when the reasons for growth, the token, the size, the outcome of the growth and the system disk say so. |
| `Decisions.RunAlertsExactly` | scripts/storage-autopilot.py:510-627 | Over a run a condition is raised, or found gone, exactly in the passes that have to. |
| `Decisions.EventsAreRecordedExactly` | scripts/storage-autopilot.py:521-608 | Beside alerts a pass records an extension of more than 1 GiB, freed scratch, a growth with its sizes and a cleanup above the emergency limit, each exactly when it happened. |
| `Decisions.AnswerIsRemembered` | scripts/storage-autopilot.py:397-412 | A pass remembers the answer about the token if it asks, and otherwise what was remembered. |
| `Decisions.UnaskedDoesNotMatter` | scripts/storage-autopilot.py:397-412 | A pass asks only without an answer less than six hours old for the same volume and token: where there is one, nothing depends on what the provider would say. |
| `Decisions.AsksAreApart` | scripts/storage-autopilot.py:397-412 | In a run with one volume and token the provider is asked at most once in six hours. |
| `Decisions.RoundsToNearest` | scripts/storage-autopilot.py:558-568 | The per cents decided on are the nearest tenths, of two the even one. |
| `Convergence.SteadyRunsConverge` | scripts/storage-autopilot.py:553-582 | Where the target, seen through the usable share and rounded, is below GROW_AT: with a steady level, even one in the reserve, and working resizes a run grows the volume at most max(1, ceil((MIN_FREE + what is held of the reserve) / room of a step)) times, and after that many unthrottled passes has no reason to grow or stands at the ceiling. |
| `Convergence.SteadyRunsSettle` | scripts/storage-autopilot.py:553-582 | For every sensible configuration, with no premise on rounding: a steady run has no reason to grow or stands at the ceiling once more of its passes were unthrottled than ceil((MAX_SIZE_GB - size) / MIN_STEP_GB). |
| `Convergence.OpenPassesGrow` | scripts/storage-autopilot.py:642-663 | Every unthrottled pass of a steady run grows the volume until it has settled. |
| `Convergence.SpacedRunsAlwaysSettle` | scripts/storage-autopilot.py:642-663 | Passes ten minutes apart settle for every sensible configuration after one pass more than the ceiling leaves room for growths. |
| `Convergence.SpacedRunsSettle` | scripts/storage-autopilot.py:642-663 | Where the rounded target is below GROW_AT they settle after as many passes as growths may be needed. |
| `OneGrowth.OneGrowthExactly` | scripts/storage-autopilot.py:553-582 | Where one step makes room for MIN_FREE and the reserve is untouched: one growth is enough in every steady run, for every ceiling, if and only if the rounded target is below GROW_AT. |
| `OneGrowth.TwoGrowthsHappen` | scripts/storage-autopilot.py:656-661 | With GROW_AT 80 and TARGET 79.98 a steady run grows a volume twice, from 90 to 100 GB and again. |
| `Convergence.GrowthReducesNeed` | scripts/storage-autopilot.py:656-661 | Where the rounded target is below GROW_AT, every needed growth strictly lowers the number of growths still needed. |
| `Convergence.RunProgress` | scripts/storage-autopilot.py:553-582 | The invariant of steady runs, where the rounded target is below GROW_AT: the need left and the growths done never exceed the need at the start, and every unthrottled pass either grows or finds the volume settled. |
| `Growth.NewGbIsLeast` | scripts/storage-autopilot.py:656-661 | The new size is the least multiple of ten that meets the step, the target now and the target after an hour at the present rate, or else exactly the ceiling. |
| `Growth.GrowthServesItsPurpose` | scripts/storage-autopilot.py:656-661 | Right after an uncapped growth neither the usage reason nor the time-to-full reason holds, and the usage reason does not hold an hour later at the measured rate. |
| `Growth.PurposeExactly` | scripts/storage-autopilot.py:558-568 | An uncapped growth ends the usage and the time-to-full reason on every volume, for every usage and every rate, if and only if the rounded target is below GROW_AT. |
| `WriteRate.BufferRefinesHistory` | scripts/storage-autopilot.py:363-379 | For passes wide enough apart, the rate from the pruned 120-entry buffer is the rate of all samples ever taken. |
| `WriteRate.SpacingIsExact` | scripts/storage-autopilot.py:363-379 | That holds for every history if and only if 121 times the spacing is over 1860 seconds. |
| `WriteRate.NarrowSpacingForgets` | scripts/storage-autopilot.py:363-379 | For any closer spacing there is a history whose rate the buffer gets wrong. |
| `WriteRate.KeptIsSuffix` | scripts/storage-autopilot.py:366-368 | The buffer is a suffix of history of at most 120 samples; a sample leaves it only by age or because 120 younger ones are there. |
| `WriteRate.RateIsSteepest` | scripts/storage-autopilot.py:369-379 | The rate is at least every window's slope and, when positive, is the slope of one of them. |
| `RateLaws.RateAtLeastExactly` | scripts/storage-autopilot.py:363-379 | The rate is at least `r` GiB per minute if and only if `r` is not positive or usage rose by `r` for every 60 seconds since the oldest sample of some window: 50 to 180, to 660, or to 1860 seconds ago. |
| `RateLaws.SteadyRiseIsMeasured` | scripts/storage-autopilot.py:363-379 | A usage that rises by `r` GiB in every 60 seconds is measured as `r`, as soon as a sample is between 50 and 1860 seconds old. |
| `WriteRate.FirstInIsFirst` | scripts/storage-autopilot.py:371-374 | A window's slope starts at its oldest kept sample, and is left out exactly when the window is empty. |
| `HistoryRuns.RunRateIsHistoryRate` | scripts/storage-autopilot.py:553-554 | In every run of passes wide enough apart, the rate a pass acts on is the rate of everything the run ever measured. |
| `HistoryRuns.SamplesAreKept` | scripts/storage-autopilot.py:363-368 | The persisted samples of a run are what the buffer keeps of its whole history, whatever else passes do. |
| `HistoryRuns.RunIsRecorded` | scripts/storage-autopilot.py:279-316 | The log of a run is the last 500 of what the log held and all the run's events, its alerts are exactly the reported operations in order, its notification times are those of the operations. |
| `HistoryRuns.RunAlertsAreDebounced` | scripts/storage-autopilot.py:577-611 | In every run an operation puts an alert in the log if and only if its window has passed since the epoch and since every standing report of its kind. |
| `HistoryRuns.RunOpsInOrder` | scripts/storage-autopilot.py:510-627 | All alert operations of a run happen on a clock that never goes back. |
| `HistoryRuns.TokenVerdictIsRecent` | scripts/storage-autopilot.py:397-412 | The verdict a pass acts on is what the provider said of the same volume and token in this pass or in one less than six hours ago. |
| `Alerts.ReportedExactly` | scripts/storage-autopilot.py:306-316 | A condition found true is reported if and only if its window has passed since the epoch and since every report of it not cleared. |
| `Alerts.ReportsAreApart` | scripts/storage-autopilot.py:306-313 | Two reports of one kind with no clearing between them lie at least its window apart. |
| `Alerts.FirstAfterClearIsReported` | scripts/storage-autopilot.py:306-316 | The first occurrence after a clear is reported, provided the clock itself is past the window. |
| `Alerts.TimeIsLatestReport` | scripts/storage-autopilot.py:306-316 | The stored time of a kind is the time of its latest report that was not cleared, and missing if there is none. |
| `Alerts.LogIsRecentHistory` | scripts/storage-autopilot.py:292-300 | Trimming at every event leaves exactly the last 500 events of all that ever happened. |
| `Scratch.RenewedIsNeverDeleted` | scripts/storage-autopilot.py:447-487 | A restore whose lease is never thirty minutes old is never deleted, in any interleaving of renewals, sweeps and everything else. |
| `Scratch.LeaseDecidesExactly` | scripts/storage-autopilot.py:466-468 | A leased restore outlives a run if and only if every sweep over it found its lease younger than thirty minutes. |
| `Scratch.FateExactly` | scripts/storage-autopilot.py:455-480 | A restore, leased or not, outlives any interleaving of steps whose removals work if and only if every sweep over it finds its lease younger than thirty minutes or, without one, its container running or something written in the last two hours. |
| `Scratch.UnleasedDecidesExactly` | scripts/storage-autopilot.py:469-478 | Without a lease the container `bf-pitr-...` of the same name and the times of the directory and its children alone decide. |
| `Scratch.SparedIsNeverDeleted` | scripts/storage-autopilot.py:455-480 | A restore that something spares at every sweep is never touched, whatever removals leave and whatever is created meanwhile. |
| `Scratch.DeletionsAreJustified` | scripts/storage-autopilot.py:447-487 | Whatever vanishes was removed by its own restore or by a sweep that at that moment found the directory of a restore whose lease was thirty minutes old, or that had no lease, no running container and nothing written for two hours. |
| `Scratch.SweepExactly` | scripts/storage-autopilot.py:455-487 | A sweep judges every directory as it was when it began: of those of restores with a lease thirty minutes old, or without lease, container and writes of the last two hours, there is left exactly what their removal leaves, and all else stays as it was. |
| `Scratch.SweepIsSteps` | scripts/storage-autopilot.py:455-487 | A sweep is its turns in order, so what holds of interleaved turns holds of whole sweeps. |
| `ScratchRuns.RunIsSteps` | scripts/storage-autopilot.py:540-551 | The scratch root after a run is what the run's sweeps and everything between them, in their order, make of it. |
| `ScratchRuns.RestoreOutlivesRun` | scripts/storage-autopilot.py:447-487 | No run of the autopilot deletes a restore whose lease is never thirty minutes old. |
| `ScratchRuns.FateInRunExactly` | scripts/storage-autopilot.py:540-551 | The same decides over whole runs of the autopilot. |
| `ScratchRuns.RunDeletionsAreJustified` | scripts/storage-autopilot.py:447-487 | Whatever a run has lost was removed by its own restore or by a sweep when nothing spared it: no lease younger than thirty minutes, or else no container and no write of the last two hours. |
| `Scratch.FreedExactly` | scripts/storage-autopilot.py:479-487 | `freed` is the bytes gone if and only if removals leave nothing of the dead but empty directories. |
| `Scratch.FreedAddsUp` | scripts/storage-autopilot.py:479-487 | Conservation, partial removals included: the bytes reported freed are the bytes gone and the bytes that removals leave of the dead. |
| `Scratch.FreedButStillThere` | scripts/storage-autopilot.py:484-486 | A directory whose removal fails: five bytes reported, none gone. |
| `Scratch.FreedIsAtLeastGone` | scripts/storage-autopilot.py:479-487 | Whatever removals fail, no byte gone is missing from the report. |
| `AutopilotClass.Autopilot.RunOnce` | scripts/storage-autopilot.py:508-627 | One pass changes state and world exactly as `Pilot.Pass` says, for a resize outcome that is possible. |
| `AutopilotClass.Autopilot.TryGrow` | scripts/storage-autopilot.py:629-699 | Refuses, reports, waits, or attempts and settles a growth exactly as decided from credit, ceiling and throttle. |
| `AutopilotClass.Autopilot.Grow` | scripts/storage-autopilot.py:414-445 | The two deadline loops end in one of the possible outcomes, reporting success only when the kernel shows the new size. |
| `AutopilotClass.Autopilot.MeasureRate` | scripts/storage-autopilot.py:363-379 | Computes the steepest windowed rate and stores the pruned buffer. |
| `AutopilotClass.Autopilot.SweepScratch` | scripts/storage-autopilot.py:447-487 | The accumulating loop leaves exactly the swept root and returns the bytes it judged dead. |
| `AutopilotClass.Autopilot.GrowIfNeeded` | scripts/storage-autopilot.py:553-582 | Step 3: measures, asks for credit, and grows or clears all growth conditions. |
| `AutopilotClass.Autopilot.HealGap` | scripts/storage-autopilot.py:521-538 | Step 1: extends over a gap and records it only when more than 1 GiB of capacity came of it. |
| `AutopilotClass.Autopilot.FreeScratch` | scripts/storage-autopilot.py:540-551 | Step 2: sweeps and records what was freed. |
| `AutopilotClass.Autopilot.RelieveAndWatch` | scripts/storage-autopilot.py:584-611 | Steps 4 and 5: the emergency event and the system disk alert. |
| `AutopilotClass.Autopilot.CheckCredit` | scripts/storage-autopilot.py:570-575 | The token's verdict is asked for exactly when token and volume are known. |
| `AutopilotClass.Autopilot.VerifyToken` | scripts/storage-autopilot.py:397-412 | Answers from memory exactly when the stored verdict is under six hours old and for the same volume and token. |
| `AutopilotClass.Autopilot.ExtendFilesystem` | scripts/storage-autopilot.py:381-395 | Grows the file system to the device, or reports failure and changes nothing. |
| `AutopilotClass.Autopilot.EventOnce` | scripts/storage-autopilot.py:306-313 | Reports and stores the time, or changes nothing. |
| `AutopilotClass.Autopilot.ClearCondition` | scripts/storage-autopilot.py:315-316 | Forgets one kind's time and no other. |
| `AutopilotClass.Autopilot.Record` | scripts/storage-autopilot.py:279-302 | Appends to the log and trims it to 500. |
| `Redirects.RedirectsStop` | apps/admin-ui/middleware.ts:10-85 | From every host, path, query and cookie state following redirects stops, after at most as many hops as counted and never more than three, at the address named in one step. |
| `Landings.OldLinkLands` | apps/admin-ui/middleware.ts:10-43 | For every rest `r`, `/dashboard/admin/r` and `/dashboard/management/r` come to rest at `/console/r` on the console's host, query kept, from that host and from the app's; elsewhere at `/dashboard/admin/r`, or the password page. |
| `Landings.OldNameLands` | apps/admin-ui/middleware.ts:10-43 | The bare names come to rest at `/console/manage`. |
| `Landings.ConsoleLands` | apps/admin-ui/middleware.ts:7-43 | The app's host hands `/console` and everything below it over to the console's host; every other host shows it. |
| `Landings.DashboardLands` | apps/admin-ui/middleware.ts:34-37 | The console's host hands all other pages of the dashboard to the app's host, where a forced password change shows its own page instead. |
| `Landings.RootLands` | apps/admin-ui/middleware.ts:32-32 | The console's host opens with `/console`, any other with its own first page. |
| `Landings.PasswordPageLands` | apps/admin-ui/middleware.ts:66-80 | The password page is shown to those who have to set one, and the dashboard of the right host to everybody else. |
| `Landings.OthersStay` | apps/admin-ui/middleware.ts:45-85 | Nothing else is redirected. |
| `Landings.HostReads` | apps/admin-ui/middleware.ts:24-27 | A host header is read as the first of its list, without the white space around it, in small letters. |
| `Redirects.HopDescends` | apps/admin-ui/middleware.ts:10-85 | Every redirect leads to an address with exactly one hop less to go and the same final address; no redirect is sent exactly when none are left. |
| `Redirects.RestsOnItsHost` | apps/admin-ui/middleware.ts:16-43 | After three hops none is left, and then an admin host shows neither `/` nor a dashboard path, an app host neither console nor old admin path. |
| `Redirects.HopsAreCounted` | apps/admin-ui/middleware.ts:45-85 | After `k` hops exactly `k` fewer are left. |
| `Redirects.ThreeHopsHappen` | apps/admin-ui/middleware.ts:72-80 | On every admin host whose app host alone asks for a new password three hops do happen. |
| `Redirects.ConfigLeadsToLegacy` | apps/admin-ui/next.config.js:13-22 | Every renamed address leads to an old admin route, which the middleware takes over. |
| `Redirects.OtherHost` | apps/admin-ui/middleware.ts:23-43 | The twin of a split host is again read as itself, so hosts neither grow nor lose parts along the hops. |
| `Redirects.HrefIsHonest` | apps/admin-ui/components/dashboard-sidebar.tsx:102-110 | Rewriting a sidebar link does not change where it ends, and for a console page or rewritten link no hop is left. |
| `Secrets.HideSecretsComplete` | apps/admin-ui/components/connection-strings.tsx:431-435 | A masked secret without bullets occurs nowhere in what is shown, whatever the other secret holds, the order and the overlaps. |
| `Secrets.MaskAllComplete` | apps/admin-ui/components/connection-strings.tsx:431-443 | For any number of secrets: after the whole fold no secret is left, and no later mask recreates an earlier one. |
| `Secrets.MaskShowsSecretExactly` | apps/admin-ui/components/connection-strings.tsx:431-435 | Some text shows a password masked alone if and only if the password can overlap its own mask beyond the six kept characters. |
| `Secrets.ScreenHides` | apps/admin-ui/components/connection-strings.tsx:431-435 | Whatever the service key, a password that does not overlap its mask is shown by no text. |
| `Secrets.BulletFirstIsShown` | apps/admin-ui/components/connection-strings.tsx:431-435 | Every password that begins with a bullet is shown by some text. |
| `Secrets.LoneMaskShowsExactly` | apps/admin-ui/components/connection-strings.tsx:431-435 | The mask alone holds its secret if and only if the secret has at most fourteen characters and only bullets after the sixth. |
| `Secrets.ScreenReads` | apps/admin-ui/components/connection-strings.tsx:431-435 | A secret masked alone is replaced everywhere by its first six characters and eight bullets. |
| `Overlap.ShowsExactly` | apps/admin-ui/components/connection-strings.tsx:434-434 | Some text holds a string after that string was replaced by a text beginning with a prefix of it, if and only if the string overlaps the replacement beyond the prefix. |
| `Secrets.PromptComplete` | apps/admin-ui/components/connection-strings.tsx:438-443 | The prompt holds no secret free of angle brackets and of the wording of the placeholders that can come after its own masking. |
| `Secrets.PromptLeaksExactly` | apps/admin-ui/components/connection-strings.tsx:438-443 | For every service key: some prompt shows a password without angle brackets if and only if the wording of its placeholder holds it and, unless the two are the same, no masked service key stands inside it. |
| `Secrets.PromptShowsExactly` | apps/admin-ui/components/connection-strings.tsx:438-443 | With brackets or without: where no service key is masked, some prompt shows a password if and only if it can overlap its placeholder. |
| `Secrets.PromptHides` | apps/admin-ui/components/connection-strings.tsx:438-443 | With any other service key, a password that does not overlap its placeholder stays out of every prompt. |
| `Secrets.PasswordIsShown` | apps/admin-ui/components/connection-strings.tsx:438-443 | The password `password`, masked, is still in the prompt. |
| `PromptKeys.KeyLeaksExactly` | apps/admin-ui/components/connection-strings.tsx:438-443 | For every password: some prompt shows a service key without angle brackets if and only if its own wording holds it, where no other secret is masked; and otherwise if and only if the password's wording holds it and the password does not, or it stands in what masking the password makes of the key's placeholder. |
| `PromptKeys.PromptReads` | apps/admin-ui/components/connection-strings.tsx:438-443 | The service key is replaced by `<your-secret-key>` first, then a password apart from it by `<db-password>`. |
| `PromptKeys.TwiceReplaced` | apps/admin-ui/components/connection-strings.tsx:438-443 | One replacement after another: a secret replaced by a placeholder that the next secret does not reach across is left nowhere, in no text, unless it is left in what the second replacement makes of the placeholder. |
| `PromptKeys.ReplaceAround` | apps/admin-ui/components/connection-strings.tsx:438-443 | Replacing what cannot reach across the ends of a placeholder works on the text before it, on it, and on the text behind it apart. |
| `Secrets.MaskKeepsTheRest` | apps/admin-ui/components/connection-strings.tsx:431-443 | Every stage of the fold replaces one secret and keeps everything between its occurrences as it is. |
| `Secrets.Active` | apps/admin-ui/components/connection-strings.tsx:432-433 | The masked secrets are exactly those present with at least eight characters. |
| `Text.SplitJoin` | apps/admin-ui/components/connection-strings.tsx:434-434 | Splitting loses nothing and leaves no separator in a piece. |
| `Text.SplitJoinReplaces` | apps/admin-ui/components/connection-strings.tsx:434-434 | `split` then `join` is the replacement of all occurrences from the left. |
| `Passwords.GenerateStrongPassword` | apps/admin-ui/components/connection-strings.tsx:53-79 | For all draws the password is the one they name, has the requested length, four at least, uses only the four alphabets, and the validator accepts it if and only if eight or more were asked for. |
| `Passwords.GeneratedExactly` | apps/admin-ui/components/connection-strings.tsx:53-79 | A password is generated by some draws if and only if its characters can be put in an order that begins with a small letter, a capital, a digit and a symbol and goes on with any of the four alphabets. |
| `Passwords.Shuffle` | apps/admin-ui/components/connection-strings.tsx:72-75 | The in-place loop does exactly the exchanges its draws name. |
| `Passwords.ShufflePermutes` | apps/admin-ui/components/connection-strings.tsx:72-75 | The exchanges permute the characters and leave what is above their start in place. |
| `Passwords.ShuffleReachesAll` | apps/admin-ui/components/connection-strings.tsx:72-75 | Every arrangement of the characters comes out for some draws. |
| `Passwords.ShuffleInjective` | apps/admin-ui/components/connection-strings.tsx:72-75 | Different draws arrange distinct characters differently, so uniform draws give a uniform shuffle. |
| `Passwords.Seed` | apps/admin-ui/components/connection-strings.tsx:54-70 | The first four characters are drawn from the four classes, the others from all, up to the length asked for. |
| `Passwords.GeneratedPasswordNeverShows` | apps/admin-ui/components/connection-strings.tsx:431-443 | A generated password is free of what defeats the masks: with any service key it shows neither on screen nor in the prompt. |
| `Passwords.AcceptedMayShow` | apps/admin-ui/components/connection-strings.tsx:44-51 | A password the validator accepts, and a text in which the mask shows it. |
| `Markdown.BlocksCompose` | apps/admin-ui/components/markdown-view.tsx:43-120 | Parsing A, an empty line and B gives the blocks of A and then those of B, unless A ends in an open fence. |
| `Markdown.ComposesExactly` | apps/admin-ui/components/markdown-view.tsx:43-120 | An open fence is the only obstacle: composition for all B holds if and only if A does not end in one. |
| `Markdown.EndsOpenExactly` | apps/admin-ui/components/markdown-view.tsx:43-121 | Lines end in an open fence if and only if some turn of the loop begins at a fence line that no other fence line follows. |
| `Markdown.OverrunExactly` | apps/admin-ui/components/markdown-view.tsx:46-54 | A turn runs past the last line if and only if it begins at a fence line and no later line is one. |
| `Markdown.DocumentsCompose` | apps/admin-ui/components/markdown-view.tsx:37-120 | The same for whole documents, with line splitting and its carriage returns. |
| `Markdown.DroppedExactly` | apps/admin-ui/components/markdown-view.tsx:43-120 | A line that is not blank gives no block if and only if it is a pipe line before a dashless delimiter or a heading with a bare line end that nothing else claims. |
| `Markdown.PipeLineIsDropped` | apps/admin-ui/components/markdown-view.tsx:43-120 | A line with a pipe that gives no block. |
| `Markdown.Render` | apps/admin-ui/components/markdown-view.tsx:36-121 | The loop gives the blocks of all lines and stops behind the last one, or one further exactly when the lines end in an open fence. |
| `Markdown.Turn` | apps/admin-ui/components/markdown-view.tsx:43-120 | One turn consumes a nonempty range of lines, at most one line past the end, and puts out the block of that range. |
| `MarkdownPrint.PieceReadsBack` | apps/admin-ui/components/markdown-view.tsx:43-120 | Whatever kind of block is written down, with any marks, white space and contents its kind allows, one turn takes all its lines and puts out what was meant: code, rule, heading, table, quote, both lists in item order, paragraph. |
| `MarkdownPrint.DocumentReadsBack` | apps/admin-ui/components/markdown-view.tsx:36-121 | Any pieces written one after the other, an empty line between, are read back piece by piece, in order. |
| `MarkdownPrint.TextReadsBack` | apps/admin-ui/components/markdown-view.tsx:36-121 | The same for the whole document as one string, with either kind of line break. |
| `MarkdownPrint.GridReadsBack` | apps/admin-ui/components/markdown-view.tsx:70-85 | A table of any header and rows comes back cell by cell. |
| `MarkdownPrint.DashedExactly` | apps/admin-ui/components/markdown-view.tsx:95-101 | Dashed items come back as a list if and only if the first two lines are not taken for a table. |
| `Inline.Inline` | apps/admin-ui/components/markdown-view.tsx:6-28 | The loop gives a reading of the whole text: every token stands where one first begins, plain text runs to the next token, and the nodes concatenate to the text. |
| `InlineTokens.TokenExactly` | apps/admin-ui/components/markdown-view.tsx:8-24 | What is a token, with its contents: exactly the characters of code, bold or a link written down with nonempty contents free of the closing character. |
| `InlineTokens.WrittenReadsBack` | apps/admin-ui/components/markdown-view.tsx:6-28 | Nodes written down one after the other, texts without marks between them, are the reading of what was written. |
| `Inline.NodesTile` | apps/admin-ui/components/markdown-view.tsx:6-28 | The nodes concatenate to the text, none lost or doubled. |
| `Inline.ReadingIsSettled` | apps/admin-ui/components/markdown-view.tsx:6-28 | A text has only one such reading, so the contract of `Inline` settles its result. |
| `Inline.LinkRematches` | apps/admin-ui/components/markdown-view.tsx:20-22 | The unanchored second match of a link token succeeds, at its start, with the same two groups. |
| `ChatContent.ParseContent` | apps/admin-ui/components/ai-assistant.tsx:111-127 | The parts come from segments that concatenate to the input: text before a fence holds no fence, and only a last text may hold one that is never closed. |
| `ChatParts.PartsAreShown` | apps/admin-ui/components/ai-assistant.tsx:117-126 | Each segment is shown as it has to be: text as it is; a fence marked SQL in large or small letters as SQL, any other as code with its mark or `code`; the body without the white space at its ends. |
| `ChatContent.CanonicalUnique` | apps/admin-ui/components/ai-assistant.tsx:111-127 | There is only one such cutting of an input. |
| `ChatContent.PartsAreSettled` | apps/admin-ui/components/ai-assistant.tsx:111-127 | A text has only one such list of parts, so the contract of `ParseContent` settles its result. |
| `ChatContent.Exec` | apps/admin-ui/components/ai-assistant.tsx:114-116 | Each match is the leftmost one from the last position on. |
| `ChatContent.PairMatches` | apps/admin-ui/components/ai-assistant.tsx:114-114 | Wherever two fences stand apart the first one starts a match: the greedy word and line break cost none. |
| `Escape.ChainIsSimultaneous` | apps/admin-ui/components/ai-assistant.tsx:1073-1077 | The four replacements in sequence equal one simultaneous replacement per character. |
| `Escape.EscapedRoundTrip` | apps/admin-ui/components/ai-assistant.tsx:1073-1077 | Reading the entities back gives the original text for every text, and no bracket or quote is left in the escaped one. |
| `ChatRuns.LogsArePrefixes` | apps/admin-ui/components/ai-assistant.tsx:319-360 | In every run that loses no answer and overlaps no appends, whatever creates and appends fail, each server log is at all times a prefix of its conversation. |
| `ChatTalk.ShownIsSaid` | apps/admin-ui/components/ai-assistant.tsx:317-412 | Whatever is created, sent, lost or closed meanwhile, a conversation that is not closed stays and holds what was said to it, in order. |
| `ChatTalk.ClosedStays` | apps/admin-ui/components/ai-assistant.tsx:391-412 | A conversation that is closed is not shown again. |
| `ChatFaults.LogsExactly` | apps/admin-ui/components/ai-assistant.tsx:319-360 | A run without overlapping appends is at all times secure against second rows and logs that are no prefixes if and only if it has lost no answer for a conversation then open. |
| `ChatFaults.DoubledLogHappens` | apps/admin-ui/components/ai-assistant.tsx:348-356 | A run in which an append is stored, comes back as failed, and is stored again with the next message. |
| `ChatRest.RestIsCompleteExactly` | apps/admin-ui/components/ai-assistant.tsx:317-360 | In every run that loses no answer and overlaps no appends: when no timer is running and nothing is on its way, a conversation stands complete on the server if and only if no append of it and no create of it with something to say has come back as failed since the timer last fired. |
| `ChatRest.FailureRests` | apps/admin-ui/components/ai-assistant.tsx:330-342 | A run in which the first create fails: everything rests, and the message is on no row. |
| `ChatGuard.GuardExactly` | apps/admin-ui/components/ai-assistant.tsx:346-356 | A firing is safe for all returns of the appends then on their way if and only if, for each conversation with news and an append already on its way, the two stretches make the same messages in either order. |
| `ChatGuard.GuardIsExact` | apps/admin-ui/components/ai-assistant.tsx:346-356 | Where no conversation says anything twice, a firing is safe for all those returns if and only if no conversation with news has an append on its way already. |
| `ChatFaults.OverlapHappens` | apps/admin-ui/components/ai-assistant.tsx:346-356 | A run without failures to a state in which nothing was said twice and the timer is about to overlap an append. |
| `ChatRuns.OneRowEach` | apps/admin-ui/components/ai-assistant.tsx:322-345 | In every run that loses no answer to a create, even with overlapping requests, an open conversation never gets two server rows and shares none. |
| `ChatFaults.OneRowExactly` | apps/admin-ui/components/ai-assistant.tsx:328-343 | A run is at all times secure against second rows if and only if it has lost no answer to a create of a conversation then open. |
| `ChatFaults.TwoRowsHappen` | apps/admin-ui/components/ai-assistant.tsx:330-342 | A run in which a create makes a row, comes back as failed, and is tried again after the next message. |
| `ChatSync.StepSound` | apps/admin-ui/components/ai-assistant.tsx:317-412 | Every step but a lost answer to a create keeps row and conversation together. |
| `ChatSync.StepFaithful` | apps/admin-ui/components/ai-assistant.tsx:317-412 | Every guarded step that loses no answer keeps log, append on its way and counter in agreement: nothing missing, doubled or out of order. |
| `ChatFaults.ClosingCleansUpExactly` | apps/admin-ui/components/ai-assistant.tsx:391-412 | Whatever was lost before: after closing no run, lost answers and all, ever holds a row of the conversation if and only if no create of it was on its way and every row made for it is the one that closing deletes. |
| `ChatFaults.SoundClosingCleansUp` | apps/admin-ui/components/ai-assistant.tsx:391-412 | For conversations that lost no answer to a create: no later run holds a row of a closed one if and only if no create of it was on its way and its row, if it had one, was deleted. |
| `ChatFaults.LostRowOutlivesClosing` | apps/admin-ui/components/ai-assistant.tsx:391-412 | A run in which the answer to the first create is lost, the conversation is closed, and its row stays. |
| `ChatFaults.CloseDuringCreateLeavesARow` | apps/admin-ui/components/ai-assistant.tsx:391-412 | A conversation closed while its create is on its way always leaves a row that no open conversation owns. |
| `ChatPanel.Panel.Fire` | apps/admin-ui/components/ai-assistant.tsx:321-358 | The timer's loop over the conversations sends creates and tails exactly as the protocol step says. |
| `ChatPanel.Panel.FlushChat` | apps/admin-ui/components/ai-assistant.tsx:323-356 | One turn of it: a row is asked for, or the tail is sent and counted as sent. |
| `ChatPanel.Panel.CreateReturns` | apps/admin-ui/components/ai-assistant.tsx:330-342 | A create that comes back files the conversation under its row; one that comes back as failed, row or no row, allows another try. |
| `ChatPanel.Panel.AppendReturns` | apps/admin-ui/components/ai-assistant.tsx:350-356 | An append that comes back as failed, stored or not, sets the counter back to where it started. |
| `ChatPanel.Panel.OpenChat` | apps/admin-ui/components/ai-assistant.tsx:375-389 | A new chat starts with its row, or without one when none is made or none is known of. |
| `ChatPanel.Panel.CloseChat` | apps/admin-ui/components/ai-assistant.tsx:391-412 | Closing forgets row and counter, and the last chat is replaced by an empty one. |
| `Reconciliation.FoldedViewIsPrefix` | apps/admin-ui/components/import-reconciliation-table.tsx:75-89 | Differing tables form a prefix, those needing attention a longer one, the folded view is exactly that prefix and `hidden` the remainder. |
| `Reconciliation.ComparatorOrders` | apps/admin-ui/components/import-reconciliation-table.tsx:75-85 | The comparator is a total preorder for every locale. |
| `Reconciliation.SortExactly` | apps/admin-ui/components/import-reconciliation-table.tsx:75-85 | A view is a stable sort of the tables if and only if it is the one arrangement: existence and uniqueness. |
| `ReportOrder.BeforeExactly` | apps/admin-ui/components/import-reconciliation-table.tsx:24-85 | The comparator puts one table before another exactly when it calls for attention and the other does not, or else differs, or else is not counted, or else is only planned where the other is not, or else by name. |
| `ReportOrder.ViewIsInOrder` | apps/admin-ui/components/import-reconciliation-table.tsx:75-85 | In the sorted view no table stands behind one it has to stand before. |
| `Reconciliation.CountsAddUp` | apps/admin-ui/components/import-reconciliation-table.tsx:9-22 | `counted` is `matching` plus the differing tables among those counted. |
| `ReportOrder.CountsSplit` | apps/admin-ui/components/import-reconciliation-table.tsx:9-22 | All tables are the counted, those without a count and those only planned; the counted are the matching and the differing ones among them. |
| `KeylessOrder.KeylessSecondExactly` | apps/admin-ui/components/import-reconciliation-table.tsx:64-85 | Tables without a key come right behind the differing ones if and only if each has a row kind, a name or a place that puts it before every noted table with a key. |
| `KeylessOrder.KeylessComesThird` | apps/admin-ui/components/import-reconciliation-table.tsx:64-85 | In every locale a matching table without a key comes behind an uncounted one with a key and a note. |

## Left out

- React rendering, hooks, dialogs, toasts, styles and keys, and the React nodes made of inline tokens.
- The provider's API, shell commands, mail, and parsing of their output: their answers are inputs of a pass.
- Secrets.PromptComplete: sufficient only; the exact conditions are in `Secrets.PromptLeaksExactly`,
  `Secrets.PromptShowsExactly` and `PromptKeys.KeyLeaksExactly`.
- PromptKeys.KeyLeaksExactly: for service keys without angle brackets.
- Secrets.MaskShowsSecretExactly: exact where no service key is masked too; with one, `Secrets.ScreenHides`
  gives the safe half, since the key's mask can destroy the text that would show the password.
- Secrets.PromptShowsExactly: with a masked service key as well and angle brackets in the password,
  `Secrets.PromptHides` gives the safe half, for the same reason.
- Convergence.SteadyRunsConverge: starts from a volume with no half-done resize and a level never lower before,
  and counts the room one step adds through the usable share.
- ScratchRuns.RestoreOutlivesRun: a run renews leases between sweeps; renewals between two turns of one sweep are
  covered by `Scratch.RenewedIsNeverDeleted`, which interleaves steps freely, and not by runs of passes.
- Scratch.LeaseDecidesExactly: for removals that leave nothing; what a failed or partial one leaves of a directory
  is covered by the other theorems on sweeps.
- HistoryRuns.TokenVerdictIsRecent: the hash of the token is modelled as the token itself.
- AutopilotClass.Autopilot.RunOnce: a pass that an exception aborts halfway, `flock` and the JSON files are not
  modelled; passes do not overlap and state persists between them.
- AutopilotClass.Autopilot.RelieveAndWatch: of the emergency cleanup only the gain and its event are modelled.
- AutopilotClass.Autopilot.SweepScratch: removing the container of a dead restore is not modelled; the listing
  of live containers and the time of each look are inputs.
- `lastGrowAt`, the status file, event titles and details: written and never read by the decisions modelled
  here.
- A volume grown by hand or shrunk between passes; sizes change only by what the autopilot asked for.
- URL parsing, path normalisation and trailing slashes, cookies beyond the one bit, client-side redirects.
- The header `host` as a fallback for `x-forwarded-host`: one header stands for both, and for the host of the
  request's own address.
- Characters outside the basic plane as pairs of code units: lengths and slices count characters.
- `JSON.stringify` and dotenv quoting of the text before it is masked.
- The distribution of random draws: any draw within range is allowed.
- Formatting of bold and code after escaping in the chat bubbles.
- ChatRuns.LogsArePrefixes: edits of a message already said and "clear chat" are outside it, and so are the
  upload of old local history and a change of team.
- The count of unverified empty tables, the import wizard, number and date formats, pagination, token scopes.
