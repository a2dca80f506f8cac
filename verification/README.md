# vmtest: the update protocol, its receiver, and what they rest on

vmtest boots a virtual machine with QEMU, mounts host directories in it and runs a
command there. The main thread and two reader threads report progress as `Output`
messages over one channel; a UI thread turns them into a windowed display and a
verdict, which becomes the exit code of the program. This project models that in Dafny
and proves what holds of every run, under every interleaving of the threads, for every
outcome of every fallible call and for all text streamed.

| file | contents |
|---|---|
| `Text.dfy`, `Messages.dfy` | library string operations that the code relies on; the update alphabet |
| `Streams.dfy` | the line splitters of the two reader threads |
| `Screen.dfy` | the specification of the display and the verdict: a fold over the messages, without erasing or redrawing |
| `Sharing.dfy` | what holds of a terminal that an interactive QEMU writes to between any two operations of the UI |
| `Ui.dfy` | the receiver as written: `Stage`, `target_ui` and `Ui::run`, erasing and redrawing in place, refining `Screen` |
| `GuestExec.dfy`, `Mounts.dfy` | `run_in_vm` with its polling backoff; mounting in the guest with retries |
| `Protocol.dfy` | the transition system: main thread, readers, QEMU, live senders, channel, receiver |
| `Invariants.dfy` | its inductive invariant |
| `Runs.dfy` | theorems about whole runs: conservation, control language, line placement, termination, reaping |
| `Stages.dfy` | the guest's part of a run: the protocol sends what `setup_vm` and `run_in_vm` send |
| `PromptReaders.dfy` | schedules on which the readers keep up with the main thread |
| `Contract.dfy`, `Variants.dfy` | when what is documented of the updates holds: nothing after a failure, every variant, the order |
| `Verdicts.dfy`, `FinalScreens.dfy`, `ScreenTexts.dfy` | receiver and protocol together: verdicts, exit codes, final screens, and these spelled out |
| `Paths.dfy`, `KernelArgs.dfy`, `Config.dfy`, `Qga.dfy` | init path, kernel command line, configuration, connecting to the guest agent |
| `MountTags.dfy`, `GuestMounts.dfy`, `Readback.dfy` | what QEMU is told to export, what the guest is told to mount, and that what they read agrees |

How the parts connect. An `Env` holds the answer of every fallible call of a run and
the two byte streams that QEMU will write. A schedule says who moves next, and is
`Allowed` if each move is enabled when it is made; `After(env, schedule)` is the state
reached. Every theorem about runs quantifies over all environments and all allowed
schedules. `FateOf(env)` names the first call that fails, and the theorems say that the
control messages, the verdict and the shape of the final screen depend on the fate
alone. `Ui.TargetUi` proves that the receiver's verdict is that of the specification, for
whatever messages it receives, and that its screen is `Screen.ScreenAfter`, up to the
rows that an interactive QEMU writes to the same terminal (`Sharing.Leaves`), so that
the lemmas of `Verdicts` and `FinalScreens` are statements about the code's own
erase-and-redraw.
`Stages.Realizes` ties the setup stage of an environment to the answers that
`MountTags.SetupVm` consumes, and its command to what `GuestExec.RunInVm` returns.

Where the code differs from its documentation, or from what one would expect, the model
follows the code, and a lemma states exactly when the expected property holds:

- `src/output.rs:9-11` says that nothing follows a failure. The readers may send lines
  after one; `Contract.ContractKeptIff` says for which runs they can.
- `src/output.rs:5-7` says that a successful run sends at least one of each variant in
  order. `Variants.EveryVariantIff` says which runs send each variant: those whose
  command exits and whose stages all have lines. `Variants.OrderGuaranteedIff` says
  which are sure to keep the order: those whose readers have no lines. So no run is sure
  to do both (`Variants.NoRunIsAsDocumented`).
- The exit code is cast with `as i32` (`src/ui.rs:243`): a nonzero multiple of 2^32 is
  reported as PASS (`FinalScreens.FalsePass`). Its stage is expanded and its error
  printed, but with the UI on and the command's output not asked for, erasing the three
  stage headings by count then erases the last three rows instead, so the error stays
  whole only if at least three lines came after it (`FinalScreens.FailureIsVisibleIff`,
  `FinalScreens.FalsePassExample`), and the two-row screen is not left
  (`FinalScreens.PassingScreen`).
- An interactive QEMU inherits the terminal (`src/qemu.rs:742-748`) that the UI erases by
  count. A passing interactive run leaves the two-row screen only if QEMU wrote nothing
  to it; otherwise it leaves two rows and as many as QEMU wrote
  (`FinalScreens.PassingScreen`, `FinalScreens.OneConsoleRow`).
- The boot-log reader removes the last character of every line whatever it is
  (`src/qemu.rs:979`): it loses one character exactly if the log does not end in a
  newline (`Streams.BootLinesRoundTripIff`, `Streams.UnterminatedBootLog`).
- The comment at `src/qemu.rs:604` says that the polling period grows up to 5 s. It
  stops at 3.2 s (`GuestExec.PeriodIsBounded`).
- A host directory mounted at two guest paths, once writable and once not, is exported
  twice under one tag (`MountTags.MountsWhatWasMeantIff`, `MountTags.SharedPathBreaks`).
- A comma in a host path, be it a mount's, the rootfs or the base directory, breaks the
  export's settings (`MountTags.ExportParsesBackIff`); whitespace in the init path breaks the kernel
  command line (`KernelArgs.CommandLineParsesBackIff`).
- `file_name().unwrap()` at `src/qemu.rs:154` panics on a host path that ends in `..`;
  `Paths.AcceptedIff` says exactly when (for instance `Paths.DotDotPanics`), and `Paths.InitPathRoundTrip` that `gen_init`
  never gets there.

## Model

| member | source | states |
|---|---|---|
| Runs.ControlLanguage | src/qemu.rs:1037-1188 | Under every schedule, the non-line messages received are at all times an initial part of the one list that the run's fate determines (six shapes), and all of it once the channel hangs up |
| Runs.Conservation | src/ui.rs:194-200 | Received plus queued is always everything sent, in order; at hang-up everything was received once, every thread is done, and each thread has sent exactly what its calls and its stream prescribe |
| Runs.ReaderSendsStreamLines | src/qemu.rs:502-524 | The messages of a reader thread are the lines of its splitter, tagged as boot or command lines |
| Runs.LinePlacement | src/qemu.rs:820-868 | Boot lines never precede BootStart, setup lines lie after SetupStart and before SetupEnd, command lines never precede CommandStart, the main thread's own command lines precede CommandEnd |
| Runs.SetupEndFollows | src/qemu.rs:1107-1144 | In a completed run every setup line is followed by a SetupEnd |
| Runs.OnlyLateLinesFollowFailure | src/qemu.rs:958-986 | What is received after a failure is a boot or command line sent by a reader thread, never a control message |
| Contract.ContractKeptIff | src/output.rs:9-11 | The documented "no update after a failure" holds on all schedules of a run if and only if the run does not fail or the readers it starts have no lines |
| Contract.BrokenByLateLines | src/output.rs:9-11 | Constructs, for every failing run with reader lines, a schedule that breaks it |
| Contract.FailureFirst | src/qemu.rs:958-986 | The main thread can report its failure before either reader has sent anything |
| Invariants.StepKeepsInvariant | src/qemu.rs:1030-1188 | Every enabled move of any thread, of QEMU or of the receiver keeps the invariant: conservation, each thread on its script, senders live exactly as long as their owners, QEMU's state, message order |
| Invariants.InvariantHolds | src/vmtest.rs:135-142 | The invariant holds after every allowed schedule |
| Invariants.MainStaysOnCourse | src/qemu.rs:1030-1188 | Each move of the main thread sends the next message of the script that remains at its program counter, and leaves the rest |
| Runs.WorkDrops | src/qemu.rs:508-523 | Every move leaves less work, so no thread can go on forever |
| Runs.EveryRunEnds | src/ui.rs:288-302 | No schedule is longer than a bound in the size of the two streams and of the reports |
| Runs.RunsHangUp | src/ui.rs:194-200 | A run that cannot move has hung up; if kill and wait succeed, only a QEMU that is waited for and never exits can prevent it |
| Runs.CanComplete | src/ui.rs:288-302 | Every partial run extends to one in which the channel hangs up |
| Runs.QemuIsReaped | src/qemu.rs:917-937 | If kill and wait succeed, then once the main thread leaves `run`, or the channel hangs up, or a boot failure is received, QEMU was never spawned or is reaped |
| Verdicts.VerdictIndependent | src/ui.rs:188-269 | The verdict of a completed run does not depend on the schedule or on any line: none iff a call failed, 0 for an interactive run, else the exit code cast to 32 bits, equal to it iff it fits |
| Verdicts.FinalPage | src/ui.rs:188-266 | Headings, expansion and verdict of the final page are those of the run's fate on every schedule |
| Variants.EveryVariantIff | src/output.rs:5-7 | A completed run sends all nine variants, without a failure, iff its command exits and boot log, mounts, and command report or stream each have a line |
| Variants.OrderGuaranteedIff | src/output.rs:5-7 | On all schedules of a run the updates come in the documented order iff the readers that it starts have no lines |
| Variants.NoRunIsAsDocumented | src/output.rs:5-7 | With unbounded pipes, every run has a schedule on which the variants do not even occur in turn among other messages: no boot line precedes the end of the boot |
| Variants.ReadersLast | src/qemu.rs:958-986 | With unbounded pipes, every run has a schedule on which everything the main thread sends precedes every line of the readers |
| Contract.MainFirst | src/qemu.rs:958-986 | With unbounded pipes, the main thread can finish before either reader has sent anything |
| Stages.SetupPlays | src/qemu.rs:1107-1144 | The setup part of the protocol's script plays exactly the messages of `MountTags.SetupVm`, then the report of its error or the command's messages |
| Stages.GuestStages | src/qemu.rs:1133-1173 | In every completed run that boots, the main thread sends boot start and end, the messages of `MountTags.SetupVm`, and those of the command |
| Stages.CommandIsRunInVm | src/qemu.rs:1159-1173 | What `GuestExec.RunInVm` returns for the command decides the run's fate, its command lines and its CommandEnd |
| Stages.GuestIsPrintable | src/qemu.rs:610-633 | Everything sent from the guest, by mounts and command, satisfies the single-line assertion, given only that every answer is what `run_in_vm` returns for some guest process |
| FinalScreens.PassingScreen | src/ui.rs:252-266 | With the UI on, on every schedule and whenever QEMU writes, a run with verdict 0 leaves exactly the old rows, the target heading and PASS, iff it was interactive and QEMU wrote nothing to the terminal, or it exited with 0; an interactive one leaves two rows and as many as QEMU wrote |
| FinalScreens.OneConsoleRow | src/qemu.rs:742-748 | An interactive run in which QEMU writes one row always leaves three, for instance that row, the heading and PASS |
| Sharing.ForeignWritten | src/qemu.rs:742-748 | Rows that QEMU writes, at any time, keep what holds of a shared terminal: old rows stay, heights add up, and without the UI none of its rows is lost |
| Sharing.OwnErased | src/ui.rs:41-45 | Erasing no more rows than it has drawn keeps that too, whoever wrote the rows erased |
| FinalScreens.FalsePass | src/ui.rs:243 | The verdict is 0 if and only if the run was interactive or its exit code is a multiple of 2^32 |
| FinalScreens.FalsePassExample | src/ui.rs:243-266 | A run that exits with 2^32 and prints nothing is reported as passed, and on an enabled terminal its error is erased |
| FinalScreens.FailureIsVisibleIff | src/ui.rs:252-266 | On every schedule the final rows of a run with an error contain the error, contiguous and in order, iff the UI is off, the output was asked for, the verdict is not a pass, or at least three lines followed the last control message; where QEMU wrote nothing to the terminal |
| FinalScreens.SharedFailureIsVisible | src/ui.rs:149-176 | Where an interactive QEMU shares the terminal, all rows of the error are shown in order whatever it writes, and contiguous with the UI on, since QEMU is reaped before the last stage is redrawn |
| FinalScreens.ErrorSurelyShownIff | src/ui.rs:252-266 | The UI draws a run's error whole on all schedules iff it is off, the output was asked for, or the verdict is not a pass |
| PromptReaders.FewLateLines | src/qemu.rs:502-524 | Every run whose command exits has a schedule on which at most two lines follow the end of the command |
| FinalScreens.CommandOutputShown | src/ui.rs:149-160 | With the UI off, the output asked for, or a verdict that is not a pass, the final rows show every command line received, in order |
| FinalScreens.LastStageLines | src/ui.rs:202-249 | The last stage of a completed run holds the rows of its lines, those of its error, and those of the late lines, in this order |
| Screen.BaseIsKept | src/ui.rs:252-266 | For every message sequence, the rows above a target's own are never erased, not even by the final erasing by count |
| FinalScreens.ErrorInLastStage | src/ui.rs:169-176 | The last stage of a failed run holds its whole error, whatever lines came before or after it |
| Verdicts.AssertionNeverFires | src/ui.rs:95-98 | Every line received in any run satisfies the single-line assertion of `print_line`, given only what `run_in_vm` guarantees of its lines |
| Stages.SetupSucceeds | src/qemu.rs:1107-1127 | SetupEnd(Ok) is received iff target setup and boot succeed and every mount is mounted by the retry rule |
| Verdicts.RunTargets | src/ui.rs:283-315 | Over completed runs of the protocol, the program's exit code for a sole target is its command's (modulo 2^32, equal if it fits), 0 for an interactive run, and 69 if a call failed; for several it is the number of those that neither were interactive nor exited with a multiple of 2^32 |
| Stages.VerdictOfGuest | src/qemu.rs:633 | A completed run whose command is launched and polled to its end has the verdict of the guest process: n if it exits with n in the i32 range, 0 if it has no exit code |
| Runs.LastWordIsReceived | src/qemu.rs:1133-1173 | The last word of a completed run is the error of the first call that failed, in its own words, or the exit code that polling returned |
| ScreenTexts.FinalRowsAre | src/ui.rs:188-266 | With the UI on, the rows of every completed run, spelled out: the headings of its stages, the lines of the last one if it stays expanded, and PASS or FAILED; before PASS as many rows as stages are erased |
| ScreenTexts.LastRowIs | src/ui.rs:252-266 | With the UI on, the last row is PASS iff the run was interactive or its exit code is a multiple of 2^32, FAILED iff it exits otherwise, and neither if the output was asked for or a call failed |
| ScreenTexts.PlainScreenIs | src/ui.rs:188-266 | Without the UI, the rows of every completed run are the target heading, every stage heading, line and error in the order received, and the verdict |
| ScreenTexts.WithoutUi | src/ui.rs:41-45 | Without the UI everything is shown in the order received, for any messages |
| ScreenTexts.ExitTextIs | src/ui.rs:235-242 | The error of a failing command spells out its exit code |
| Ui.TargetUi | src/ui.rs:188-269 | For every message sequence the receiver's erasing and redrawing ends with the specified verdict and screen; if QEMU writes to the terminal as well, between any two operations, with as many more rows as it wrote, the last stage's lines among them if expanded, and nothing above touched |
| Ui.Turn | src/ui.rs:194-249 | One turn of the loop: what is drawn and what is still to come lead to the same final page |
| Ui.Run | src/ui.rs:283-315 | Exit code as the sole verdict or the number of failed targets without overflow; rows that were there before stay, and where no QEMU shares the terminal the screens of the targets stand one below the other |
| Ui.Handle | src/ui.rs:202-249 | One message: the stage draws the updated page, `stages` counts the finished sections, `rc` is the page's |
| Ui.Finish | src/ui.rs:252-266 | Dropping the last stage, erasing `stages` rows and printing PASS or FAILED yields the specified final rows |
| Ui.Stage.constructor | src/ui.rs:63-75 | The previous stage's window is removed, what it leaves stays, and the heading follows |
| Ui.Stage.PrintLine | src/ui.rs:95-138 | The line is cached and the screen is again the rows above and the window: the last ten lines, or all of them without the UI; the sub-slice is never empty or out of range |
| Ui.Stage.Drop | src/ui.rs:149-160 | Under the heading remain all lines if expanded or without the UI, else none |
| Ui.Stage.ErrorOut | src/ui.rs:169-176 | Every line of the error is printed in red, in order, and the stage is expanded |
| Ui.WindowErased | src/ui.rs:81-87 | Erasing `window_size` rows removes exactly the visible window and no row above it, in both modes |
| Ui.WindowRedrawn | src/ui.rs:129-137 | Writing the last `window_size` lines after erasing completes the new window |
| Screen.OnlyControlsMatter | src/ui.rs:202-249 | Lines, wherever they arrive, change no heading, no expansion and no verdict |
| Screen.LinesOnlyGrow | src/ui.rs:95-138 | Late lines only add to the running stage, and change neither the verdict nor the expansion |
| Screen.UnexpandedLeavesHeadings | src/ui.rs:149-160 | Stages dropped unexpanded leave one row each, so that erasing by count is right |
| Screen.Wrap32Faithful | src/ui.rs:243 | The cast keeps an exit code iff it is in range, always modulo 2^32, and yields 0 iff it is a multiple of 2^32 |
| Screen.RowHoldsLine | src/ui.rs:101-127 | A row holds the text of its line less the whitespace at its end, styled iff the UI is on |
| Screen.WindowIs | src/ui.rs:12 | The window shows the last ten lines, or all if there are fewer or the UI is off |
| Screen.HeadingTexts | src/ui.rs:163-166 | The headings of targets and stages, spelled out |
| Streams.StreamCommandOutput | src/qemu.rs:508-523 | The loop sends exactly the lines of the stream, dropping a newline only where there is one |
| Streams.StreamChildOutput | src/qemu.rs:972-985 | The loop sends exactly the lines of the stream, each without its last character |
| Streams.CommandLinesRoundTrip | src/qemu.rs:508-523 | On every UTF-8 stream the lines, each followed by a newline, spell the stream, plus a newline if it was unterminated |
| Streams.BootLinesSpell | src/qemu.rs:972-985 | On every UTF-8 stream they spell the stream with its last character replaced by a newline |
| Streams.BootLinesRoundTripIff | src/qemu.rs:972-985 | They spell the stream itself iff it is empty or ends in a newline |
| Streams.DamagedLineIsDropped | src/qemu.rs:508-523 | A line that is not UTF-8 is dropped by either splitter, and no other line changes |
| Streams.DamagedTailIsDropped | src/qemu.rs:508-523 | So is a damaged end of the stream without a newline |
| Streams.UnterminatedBootLog | src/qemu.rs:972-985 | The boot log "up" without a newline is reported as "u" |
| Streams.SplitAtLineBoundary | src/qemu.rs:508-523 | Splitting a stream after a newline and concatenating the lines gives the lines of the whole |
| Streams.StreamedLinesAreSingle | src/qemu.rs:508-523 | No line of either splitter contains a newline or counts as more than one line |
| GuestExec.RunInVm | src/qemu.rs:540-634 | Polls until the first poll at or after the exit, or an earlier failing one; sleeps the backoff periods; returns the process's own exit code, 0 if it has none, and the lines of stdout, a notice if it was cut off, and the same of stderr, in this order, single lines only |
| GuestExec.ReturnsOneResult | src/qemu.rs:540-634 | The result is determined by the guest process, and its lines are single |
| GuestExec.SleptClosedForm | src/qemu.rs:582-608 | The time slept before the n-th poll in closed form |
| GuestExec.PeriodIsBounded | src/qemu.rs:582-608 | The period never decreases and stays between 200 and 3200 ms |
| GuestExec.DetectionIsPrompt | src/qemu.rs:582-608 | An exit at T > 0 ms of sleep is seen before 2T + 200 and before T + 3200 ms |
| GuestExec.FirstPollIsUnique | src/qemu.rs:582-608 | Which poll detects the exit is determined by the time of the exit |
| Mounts.MountWithRetry | src/qemu.rs:875-898 | The retry loop stops at the first answer other than 32 or after the last try; its last answer, lines and sleep are those of that many attempts |
| Mounts.MountInGuest | src/qemu.rs:856-904 | Succeeds iff `mkdir` and the mount rule do; at most five mount calls, none if `mkdir` fails; at most ten seconds of sleep |
| Mounts.MountedIff | src/qemu.rs:868-903 | Mounted iff `mkdir` returned 0 and some attempt returned 0 after nothing but 32s |
| Mounts.MountLinesAre | src/qemu.rs:863-898 | What is sent are the lines of `mkdir`, then those of every mount call made, each whole and in its place |
| Mounts.SleptIs | src/qemu.rs:893-895 | After n retried attempts n(n-1)/2 seconds were slept |
| Mounts.SetupErrorIs | src/qemu.rs:1110-1124 | The error of setup is that of the first mount that failed |
| Mounts.SetupGoesOn | src/qemu.rs:1110-1124 | Setup sends the lines of one mount after those of the one before |
| Mounts.SetupSucceedsIff | src/qemu.rs:1107-1126 | Setup succeeds iff the shared mount and every configured mount do |
| Mounts.FailureStops | src/qemu.rs:1110-1124 | Nothing after the first failing mount has any effect |
| Mounts.TriedLinesAreSingle | src/qemu.rs:863-866 | No setup line can trip the single-line assertion |
| MountTags.Plan9FsArgs | src/qemu.rs:310-332 | Split at its commas, the argument for an id, path and tag without commas gives exactly one id, one path (`.` if empty) and one mount tag, the right ones, and `readonly=on` iff asked for |
| MountTags.SettingsParseBackIff | src/qemu.rs:310-332 | Splitting the argument at commas gives the intended settings iff id, path and tag have no comma |
| MountTags.ExportParsesBackIff | src/qemu.rs:690-714 | For each export of a target (root, shared directory, mounts) that is iff its host path has no comma |
| MountTags.VmArgsAre | src/qemu.rs:463-490 | Processors and memory come first, the user's own arguments last |
| MountTags.ArgsAre | src/qemu.rs:683-714 | After the fixed arguments comes the disk image, or the rootfs's export and the kernel with its arguments; the user's arguments come last |
| MountTags.VmconfigArgs | src/qemu.rs:462-491 | One export for each mount in the order of the map, then the extra arguments |
| MountTags.QemuArgs | src/qemu.rs:683-714 | What `Qemu::new` boots and exports, in order; with either source of the rootfs; the panicking branch is not reached |
| MountTags.SetupVm | src/qemu.rs:1107-1127 | Messages, result and mount requests of setup: the shared directory at `/mnt/vmtest`, then each mount at its own place in the guest, under the tag of its host path, read-only iff not writable; the requests up to the first mount that fails, and none after it, or all of them if every mount succeeds, whatever the order of the map |
| MountTags.GuestPathsRequested | src/qemu.rs:1110-1124 | After a successful setup exactly `/mnt/vmtest` and the configured guest paths were requested |
| GuestMounts.MountCall | src/qemu.rs:875-891 | The mount call is a 9p mount of the tag at the place requested, `ro` among its comma-separated options iff the request is read-only |
| GuestMounts.FixedOptionsSpelled | src/qemu.rs:41 | Its other options are those that the kernel's root flags have |
| Readback.TagsToldAreRequested | src/qemu.rs:690-714 | If nothing else on the command line looks like an export and no exported path has a comma, the mount tags that QEMU reads from its arguments, less the root's, are those that a successful setup requests, and it reads the root's iff it boots a kernel |
| Readback.MountIsTold | src/qemu.rs:466-474 | For each mount whose path has no comma, whatever else is on the command line, some argument tells QEMU its own path under its own tag, read-only iff not writable |
| Readback.SharedIsTold | src/qemu.rs:707-712 | So does one for the shared directory, writable, under `vmtest-shared`, if its path has no comma |
| Readback.RootIsTold | src/qemu.rs:690-695 | And for a kernel one for the rootfs, writable, under `/dev/root`, if its path has no comma |
| MountTags.AllAreExported | src/qemu.rs:690-714 | Whatever the order of the map, the exports are the root (if booting a kernel), the shared directory and every mount |
| MountTags.AllAreRequested | src/qemu.rs:1107-1124 | Whatever the order of the map, the requests are the shared one and one for each mount |
| MountTags.TagsAgree | src/qemu.rs:707-714 | The tags requested in the guest are exactly the tags exported, except for the root's |
| MountTags.MountsWhatWasMeantIff | src/qemu.rs:466-474 | A mount's tag finds only its own directory (paths compared by components, as their hash does), read-only on both sides or neither, iff mounts whose host paths hash alike are alike |
| MountTags.DistinctPathsSuffice | src/qemu.rs:466-474 | It suffices that no two host paths of the target have the same hash |
| MountTags.SharedPathBreaks | src/qemu.rs:466-474 | One directory mounted both writable and read-only breaks it for every hash |
| MountTags.ConfiguredPathIsMounted | src/vmtest.rs:111-126 | From configuration to guest, for every base directory, empty and relative ones included: whatever export the request for a guest path finds is the path configured for that place, below the base if it was relative, with the configured writability |
| MountTags.SharedIsMounted | src/qemu.rs:707-714 | The shared directory's request finds the base directory, writable |
| Paths.InitPathRoundTrip | src/qemu.rs:175-209 | For every rootfs (absolute, relative or empty) and absolute temp dir the script is accepted, its guest path is the temp dir and the file name, the place of the rootfs followed by the guest path is the host path, and the rootfs components followed by those of the guest path end it |
| Paths.AcceptedIff | src/qemu.rs:134-156 | `guest_init_path` succeeds iff the temp dir is absolute and the host path ends in it and a name, and panics iff it ends in it and a `.` or `..` |
| Paths.DotDotPanics | src/qemu.rs:134-156 | For instance temp dir `/tmp` and script path `/tmp/..` panic |
| Paths.DotsDisappear | src/qemu.rs:136-146 | Doubled and trailing slashes and inner dots make no difference to components |
| Paths.PushRelative | src/vmtest.rs:94-103 | Pushing a relative path appends its components, and onto the empty path yields it |
| Paths.ConcatAbsolute | src/qemu.rs:176-178 | Concatenating an absolute path as a string appends its components, and onto the empty string yields it |
| KernelArgs.CommandLineParsesBackIff | src/qemu.rs:383-426 | Splitting the command line on whitespace gives the generated parameters followed by the user's words, for every user string, iff the init path has no whitespace |
| KernelArgs.Build | src/qemu.rs:368-429 | The five arguments; the last parses back into the generated parameters and the whitespace-split user arguments |
| KernelArgs.GeneratedAre | src/qemu.rs:383-417 | The generated parameters, spelled out |
| Config.Check | src/vmtest.rs:20-73 | No problem iff the target is sound, else the problem that is first in the order of the checks |
| Config.SoundIff | src/vmtest.rs:20-73 | Sound, spelled out: named, with a command, an image or a kernel but not both, firmware and kernel arguments only where they apply |
| Config.FirstIs | src/vmtest.rs:20-73 | Which problem is reported, spelled out |
| Config.ResolvedMeans | src/vmtest.rs:118-124 | Image, kernel, firmware, rootfs and mounts all mean what was configured, and the rest of the target is as it was |
| Config.Validate | src/vmtest.rs:18-77 | Passes iff every target is sound, else names the first unsound target and its first problem |
| Config.SetupQemu | src/vmtest.rs:111-124 | Up to `Qemu::new`: fails iff the index is out of range, else every path of the target is resolved, each mount's once, and nothing else changes |
| Config.ResolveMeans | src/vmtest.rs:94-103 | For every base a resolved path is the input if that is absolute or the base empty, else the base followed by the input; it is absolute iff base or input is, and resolves to itself iff one is or the base is empty |
| Config.ValidTargetsBoot | src/qemu.rs:684-705 | After validation the panic of `Qemu::new` is unreachable; kernel arguments are given only to targets that boot a kernel |
| Qga.Connect | src/qga.rs:61-109 | At most 80 (KVM) or 120 attempts; connects iff an attempt made before 80 or 120 seconds syncs and gives a version, and fails otherwise with the error that clock and answer determine |
| Qga.NextCheck | src/qga.rs:75-105 | Between two deadline checks lie a failed attempt and a second of sleep |
| Text.LineEnds | src/qemu.rs:613-617 | A newline ends a line |
| Text.LineEndsInBoth | src/qemu.rs:613-617 | So does a carriage return before a newline |
| Text.LastLineIs | src/qemu.rs:613-617 | What follows the last newline is a line unless empty |
| Text.TrimEndIs | src/ui.rs:102 | Trimming takes off all the whitespace at the end, and nothing else |
| Text.SignedDecimalIs | src/ui.rs:240 | A formatted exit code reads back as its number |
| Qga.EndIsUnique | src/qga.rs:75-108 | Clock and answers determine where the loop ends |
| Qga.ChecksAreSpaced | src/qga.rs:75-105 | Deadline checks are at least a second apart for every retried attempt |

## Left out

- Sockets, the QMP and QGA wire formats, process spawning, temporary files, file permissions, `/dev/kvm` and OVMF probing: their outcomes are fields of `Env` or parameters.
- ANSI stripping, clipping to the terminal width and styling: a styled row is `Styled(text, look)`, an unanalysed function of the trimmed line that yields one row; wrapping and scrolling, and target names with newlines, are not modelled, and a row cleared beyond the top of the model's terminal is simply absent.
- `ui_enabled` is constant during a run.
- An interactive QEMU writes whole rows: cursor movements, clearing and rows left unfinished are not modelled. Which of the rows on a shared terminal are erased in favour of others is left open, except for what the lemmas say. With the UI off, its rows may come between those of an error.
- Pipes and sockets are unbounded: a boot log that fills its pipe would make QEMU wait for the reader, so that fewer schedules are possible than `Contract.MainFirst`, `Variants.ReadersLast` and `Variants.NoRunIsAsDocumented` use.
- Error chains: an error is its `{:?}` rendering, an arbitrary string; which context is attached to it is not modelled.
- `RunInVm`: polls take no time of their own, as in the bound that counts sleep only; the warning about slow commands and the choice of the capture mode by agent version are not modelled; a missing exit code becoming 0 is taken from the code as it is.
- `Qga.Connect`: random sync values and the parsing of the version are not modelled; a failing version query and a version that does not parse are one answer.
- Read errors of the reader threads other than invalid UTF-8, which the code would retry forever if they persisted.
- `QemuIsReaped`: inspecting, killing and waiting for QEMU succeed or fail together, in one field of `Env`; the `expect` on an interactive wait is taken to succeed; a QEMU reaped early by a status query while booting counts as reaped by the later cleanup; that descendants of QEMU could hold its pipes open is not modelled, nor is the debug dump of its output.
- `Runs.RunsHangUp`: that QEMU exits after accepting `quit`, after a failed QMP connection or when an interactive user leaves is the environment's doing; the lemma names these waits.
- Reading stderr to its end returns once QEMU is gone.
- `MountTags.SetupVm`: the order in which a hash map is visited is a parameter, the same for exports and requests or not; the results hold for each order.
- The arguments of the guest's `mkdir` and `sync` calls, and of the command's shell script.
- `MountTags.QemuArgs`: the arguments before the rootfs, and those of a disk image and its firmware, are parameters; they are single lookups.
- `Ui.Receiver` holds the messages that the channel will deliver; that they are those of a protocol run is `Verdicts.CompletedRun`.
- `Ui.Run`: lists of more than 2^31 - 1 targets, on which the counter would overflow, are excluded; the truncation of the exit code to eight bits by the operating system is not modelled.
- Exit codes are unbounded integers rather than 64-bit ones, which only widens the statements; hashes are any function from path components to the naturals.
- Characters are Dafny's; paths are taken to be text.
- Command-line parsing, target filtering, TOML decoding, logging, shell templates and build scripts: wrappers around libraries, or not executable logic.
