# testboxd in Dafny: admission gates, substitution, libraries, group files, wire

This project models the test-execution daemon `testboxd` and its client `dibc`
and proves properties of the model. `dafny verify dfyconfig.toml` checks all of it.

## What is modelled

**The daemon's threads** (`Daemon*.dfy`). A state holds the acceptor, a sequence of
connection handlers, a sequence of test threads, the three mutexes, both gate
counters, the status groups, the set of cancelled threads and the fate of each test's
arguments. Every lock, unlock, creation, timed join, cancellation and join is a step of
its own, and steps of different threads interleave freely. What a thread does without
giving up a mutex in between is one step where no other thread could tell: a gate's
check with the increment or the wait that follows from it, a decrement with its
signal. Waiters may wake spuriously, a signal may wake any sleeper, newcomers may take a slot before
a woken waiter does, and creations and reads may fail. `Reachable` means reachable
from the initial state by any finite run. Three facts of the code are kept as they are:
the connection gate admits 101 connections (it tests `> 100` before it increments,
although its debug text speaks of 100), a read error jumps past the decrement and
loses a connection slot for good, and a failed `pthread_create` loses a test slot for
good. The main results: both counters are conserved; no wakeup is lost at the test gate; the
nested gates cannot deadlock while a slot of each kind is left, and the daemon can
start a further test if and only if a slot of each kind is left; cancellations hit
live threads only; no thread is joined twice, and nobody goes on from a join before
the test has ended; every ended run is settled, and what its body recorded stays.

**String substitution** (`Rescan.dfy`, `ReplaceString.dfy`). `replace_string` on its two
reallocated buffers is proved against repeated rewriting of the leftmost occurrence.
That this equals one left-to-right pass is false in general: with the search string
`ab` and an empty replacement, `aabb` becomes the empty string, one pass gives `ab`.
The exact condition, on the two strings alone, is proved
(`RescanIsOnePassExactly`): no placement of the search string over the replacement
agrees with it on the overlap (for a placement that sticks out to the left, one whose
left part can stand before a leftmost occurrence). References `$(NAME)` replaced by
an absolute path meet it.

**Libraries and cases** (`LibList.dfy`, `CaseRegistry.dfy`, `Libraries.dfy`). The linked list of loaded
libraries is a heap of nodes; its methods keep it acyclic and in step with the
dynamic linker's open counts. The case, suite and group registries are sets of names.
`Libraries.dfy` puts the two together: when, over a sequence of loads and unloads, the
registries hold exactly what the libraries still listed have put there.

**Group files** (`GroupFile*.dfy`). The three nested parsers share
one stream and emit calls on the databases; they are proved to emit exactly the calls
of one flat automaton folded over the lines, on every file: lines too long for
the buffer, missing `END_` lines and suites that cannot be added included.

**Runs, times, options, wire** (`RunLoop.dfy`, `TimeString.dfy`, `CommandLine.dfy`,
`CommandSettings.dfy`, `Framing.dfy`, `Wire.dfy`): the run loops against a closed form, `time_str_to_sec`, the option phase
of `cmd_parse` as two independent folds, packing and unpacking of the command line on
every input, and reassembly of the responses.

## Where the code does not do what one would expect

- 101 read errors, or 100 failed test-thread creations, end the service for good
  (`DaemonProgress.ServiceCanBeLost`, `DaemonProgress.ServesExactlyWhenSlotsAreLeft`).
- Unloading a library deletes cases and groups it shares with others and never
  removes a suite (`CaseRegistry.UnloadUndoesLoadExactly`); a library loaded twice and
  unloaded once stays listed without its cases (`Libraries.SecondCopyLosesItsCases`;
  exactly when this cannot happen: `Libraries.InSyncExactlyWhenClean`).
- An argument in front of the node name is overwritten by that name, and the row the
  name would have taken is left empty (`CommandLine.ForwardedRows`).
- The value of `--maxtmo` is forwarded to the test as well
  (`CommandLine.MaxTimeoutValueIsForwarded`; `CommandLine.DocumentedReadingExactly` says
  on exactly which lines this changes anything).
- A handler that waits for its test reads the test's arguments once more, without
  knowing whether the test has freed them (`DaemonArguments.LateReadIsReachable`;
  exactly when: `DaemonArguments.ReadsFreedExactly`); those of a cancelled test are never
  freed (`DaemonArguments.CancelledLeak`).
- An empty argument ends the daemon's unpacking (`Framing.CommandRoundTrip`).
- With an empty search string, or a replacement that contains the search string,
  `replace_string` never returns once the search string occurs (`Rescan.NeverHalts`;
  for replacements no longer than the search string this is exactly the case where the
  two are equal, `Rescan.TerminatesExactly`).
- Neither side checks that a command fits: `Framing.Pack` and `Framing.Unpack` say
  exactly which ones leave the buffers.

## Model

| member | source | states |
|---|---|---|
| DaemonInvariants.InvKept | dibd/testboxd_threads.c:94-194 | every step of acceptor, handler or test thread keeps the whole invariant: mutex ownership, both counters, no lost wakeup, groups, cancellations, targets |
| DaemonInvariants.ReachableInv | dibd/testboxd_threads.c:94-194 | the invariant holds in every reachable state |
| DaemonInvariants.ConnLockKeptConn | dibd/testboxd_sockets.c:104-107 | the connection mutex is owned exactly by the handler between its lock and unlock |
| DaemonInvariants.TestLockKeptConn | dibd/testboxd_threads.c:100-109 | the test mutex is owned exactly by the handler at the gate's check or increment; sleeping releases it |
| DaemonInvariants.TestLockKeptTest | dibd/testboxd_threads.c:178-183 | or by the test thread inside its outer cleanup |
| DaemonInvariants.StatusLockKeptConn | dibd/testboxd_threads.c:128-133 | the status mutex is owned exactly by the handler at one of the two cancel sites |
| DaemonInvariants.StatusLockKeptTest | dibd/testboxd_threads.c:185-194 | or by the test thread inside its status cleanup |
| DaemonInvariants.ConnCountKept | dibd/testboxd_sockets.c:139-151 | each step changes connection_count exactly with the slots occupied or lost, and never past 101 |
| DaemonInvariants.TestCountKept | dibd/testboxd_threads.c:100-116 | each step changes test_thread_cnt exactly with the slots reserved, occupied or leaked, and never past 100 |
| DaemonInvariants.NoLostWakeupKept | dibd/testboxd_threads.c:100-109 | a sleeper at the test gate means every free slot already has a signalled waiter on its way, kept by every step |
| DaemonInvariants.AcceptorWakeupKept | dibd/testboxd_sockets.c:139-146 | the acceptor sleeps only while all 101 slots are taken, kept by every step |
| DaemonInvariants.GroupsKept | dibd/testboxd_threads.c:221-227 | a group's thread field is set exactly while its thread's status cleanup is due, and a cleared one is settled, kept by every step |
| DaemonInvariants.CancelledKept | dibd/testboxd_threads.c:129-132 | only threads that registered a group are ever cancelled, kept by every step |
| DaemonSafety.SlotConservation | dibd/testboxd_threads.c:100-116 | in every reachable state both counters equal the slots in use plus the slots leaked, at most 101 and 100 |
| DaemonSafety.NoWakeupIsLost | dibd/testboxd_threads.c:100-109 | with the test mutex free, a sleeping unsignalled waiter implies at least as many signalled waiters as free slots, spuriously awake ones not counted |
| DaemonSafety.MutualExclusion | dibd/testboxd_threads.c:100-109 | two threads inside critical sections of the same mutex are the same thread |
| DaemonSafety.CancelHitsLiveThread | dibd/testboxd_threads.c:165-176 | a step that newly cancels a thread is one of the two cancel sites, holds the status mutex, and hits a thread that has not terminated |
| DaemonSafety.ThreadFieldIsLive | dibd/testboxd_threads.c:185-194 | a group's thread field other than -1 names a live thread, and no two groups name the same one |
| DaemonSafety.LookupFindsExactlyRegistered | dibd/testboxd_threads.c:129 | the lookup by thread succeeds exactly while the test is registered and its status cleanup has not run |
| DaemonSafety.TimeoutCancelsExactlyRegistered | dibd/testboxd_threads.c:125-135 | past its deadline a joining handler cancels its own test in exactly that case, and nothing else |
| DaemonSafety.KillCancelsExactlyTheOwner | dibd/testboxd_threads.c:165-176 | the kill command cancels exactly the thread that runs the group it names, if that thread's status cleanup has not run |
| DaemonSafety.EndedRunIsSettled | dibd/testboxd_threads.c:185-194 | once a registered test thread is past its status cleanup, cancelled or not, its group has thread -1 and action done or stopped |
| DaemonSafety.OutcomeIsFinal | dibd/testboxd_threads.c:185-194 | over every continuation: a done or stopped recorded by the body survives cleanup and cancellation, anything else becomes stopped when the thread field is cleared, and it stays cleared |
| DaemonSafety.CancelledWasRegistered | dibd/testboxd_threads.c:129-132 | a cancelled thread is one that registered a status group |
| DaemonSafety.JoinHoldsNoMutex | dibd/testboxd_threads.c:125-134 | neither the timed nor the final join is done while holding any of the three mutexes |
| DaemonInvariants.JoinersKept | dibd/testboxd_threads.c:118-135 | no two handlers join the same test, kept by every step |
| DaemonSafety.WaitedTestHasEnded | dibd/testboxd_threads.c:125-135 | over every run: a handler that joins a test, timed out and cancelled or not, goes on only after that test has terminated |
| DaemonSafety.WaiterJoinsItsTest | dibd/testboxd_threads.c:94-135 | over every run: a handler told to wait leaves the gate only by a creation of its own, and unless that creation fails it goes no further before the very test it created has terminated |
| DaemonSafety.JoinedByOne | dibd/testboxd_threads.c:125-134 | a test has one joining handler at most |
| DaemonSafety.NeverJoinedAgain | dibd/testboxd_threads.c:125-134 | over every run: a test nobody is joining never gets a joining handler, so no thread is joined twice |
| DaemonSafety.BoundsAreMet | dibd/testboxd_sockets.c:139-146 | the bounds are tight: a reachable state counts 101 connections and 100 tests with the last handler asleep |
| DaemonProgress.RankStep | dibd/testboxd_threads.c:94-194 | each own step of the daemon lowers a measure of the work left; accepting raises it by 35 at most, a spurious wakeup by 2 |
| DaemonProgress.OwnStepsAreBounded | dibd/testboxd_threads.c:100-109 | in every run own steps are bounded by initial work, connections accepted and spurious wakeups: no livelock |
| DaemonProgress.RestOrStep | dibd/testboxd_threads.c:100-135 | the wait-for argument: some thread can take a step in which nothing fails (no failed read or creation, no early exit, no test dying of a cancellation, no missed deadline), or only sleepers and the accept call are left |
| DaemonProgress.AtRestShape | dibd/testboxd_sockets.c:132-151 | at rest a handler sleeps only if all 100 test slots leaked, and the acceptor only if lost and sleeping handlers fill all 101 |
| DaemonProgress.DeadlockFree | dibd/testboxd_sockets.c:132-151 | with at most 100 read errors and 99 failed creations every reachable state has an enabled failure-free own step, unless nothing is waiting |
| DaemonProgress.ComeToRest | dibd/testboxd_threads.c:178-183 | from every state some run of such steps ends with nobody on the way, leaking nothing |
| DaemonProgress.ServesExactlyWhenSlotsAreLeft | dibd/testboxd_threads.c:111-116 | a further test can be admitted by some continuation if and only if at most 100 connection slots and 99 test slots have leaked |
| DaemonProgress.WedgedByReadErrors | dibd/testboxd_sockets.c:69-73 | after 101 read errors the acceptor never passes its gate again, in any continuation |
| DaemonProgress.ServiceCanBeLost | dibd/testboxd_sockets.c:69-73 | reachable states exist in which either kind of leak has ended the service |
| DaemonArguments.FreedExactly | dibd/testboxd_threads.c:74-91 | a test's arguments have been freed exactly if its body is over by its own end and not by a cancellation |
| DaemonArguments.FreesOwn | dibd/testboxd_threads.c:74-91 | arguments are freed only by the test's own thread, as it leaves its body by itself |
| DaemonArguments.NoDoubleFree | dibd/testboxd_threads.c:88-89 | a test thread that frees its arguments does so for the first time |
| DaemonArguments.ReadsFreedExactly | dibd/testboxd_threads.c:118-144 | of the creator's reads after the creation, exactly the one of max_timeout ahead of the join can find the arguments freed, and does exactly if the test's body has ended meanwhile without being cancelled |
| DaemonArguments.ReportReadsLive | dibd/testboxd_threads.c:137-144 | the read of gen_xml_file after a cancellation always finds the arguments |
| DaemonArguments.CancelledLeak | dibd/testboxd_threads.c:137-144 | over every continuation: the arguments of a cancelled test are never freed |
| DaemonArguments.FreedStay | dibd/testboxd_threads.c:88-89 | over every continuation: freed arguments stay freed |
| DaemonArguments.LateReadIsReachable | dibd/testboxd_threads.c:118-123 | a reachable state in which the creator is about to read freed arguments |
| DaemonPaths.OnlyTimeoutsCancel | dibd/testboxd_threads.c:118-134 | over every run: a handler that waits for a test is still waiting, or answering, or its timed join has given up on that test |
| DaemonPaths.TimeoutCancels | dibd/testboxd_threads.c:125-134 | over every run: a waiting handler found past the cancel site has given up its timed join and been there, under the status mutex; a test registered at that moment is cancelled, for good |
| DaemonPaths.KillKills | dibd/testboxd_threads.c:165-176 | over every run: a handler that parsed a kill command gets further only by the kill of the group it was given, under the status mutex; if that group's thread has its cleanup ahead, it is cancelled, for good |
| DaemonPaths.AnswersBeforeLeaving | dibd/testboxd_sockets.c:69-107 | over every run: no connection is left without an answer, but for one whose read failed |
| DaemonPaths.TestCommandCreates | dibd/testboxd_threads.c:94-116 | over every run: a handler that parsed a test command gets further only by a creation of its own |
| DaemonPaths.UtilityIsQuiet | dibd/testboxd_sockets.c:87-107 | over every run: a handler that parsed a utility command does nothing but reply and leave |
| DaemonPaths.ReportedExactly | dibd/testboxd_threads.c:137-144 | over every run: the handler of a test, once past its join, has reported a cancellation if and only if the test died of one |
| DaemonPaths.FinishedRun | dibd/testboxd_threads.c:197-288 | a reachable state in which a test has recorded done, ended so and given its slot back |
| DaemonPaths.CancelledRun | dibd/testboxd_threads.c:125-144 | a reachable state in which a test was timed out, cancelled, joined and reported, its group stopped and its slot given back |
| Rescan.HaltsByWeight | dibd/testboxd_utilities.c:71-112 | for every weighting of characters: if the replacement weighs less than the search string, the rescan ends within as many replacements as the source weighs |
| Rescan.HaltsByCount | dibd/testboxd_utilities.c:71-112 | in particular if some character occurs less often in the replacement, within its count in the source |
| Rescan.HaltsByAbsence | dibd/testboxd_utilities.c:71-112 | in particular if the replacement lacks a character of the search string, such as its first |
| Rescan.HaltsByLength | dibd/testboxd_utilities.c:71-112 | and if the replacement is shorter than the search string, within the length of the source |
| Rescan.NeverHalts | dibd/testboxd_utilities.c:71-72 | it never ends if the search string occurs in source and replacement |
| Rescan.HaltsByDifference | dibd/testboxd_utilities.c:71-112 | it ends if the replacement differs from the search string and is as long |
| Rescan.TerminatesExactly | dibd/testboxd_utilities.c:71-112 | for every replacement no longer than the search string, on every source: the rescan ends if and only if the two differ or the search string does not occur |
| Rescan.OnePassCuts | dibd/testboxd_utilities.c:71-112 | the single pass cuts the source at search strings into pieces free of it and joins them by the replacement |
| Rescan.RescanIsOnePassExactly | dibd/testboxd_utilities.c:71-112 | rescanning ends and equals the single pass on all sources if and only if the two strings do not clash |
| Rescan.DisjointEndsDoNotClash | dibd/testboxd_utilities.c:71-112 | no clash if neither non-empty string contains the other's first character |
| Rescan.RemovalClashes | dibd/testboxd_utilities.c:71-112 | exactly when an empty replacement clashes, and that it does whenever the search string's first two characters differ |
| ReplaceString.ReplaceString | dibd/testboxd_utilities.c:54-116 | null for a null argument, else a fresh buffer with the rescan's result; every copy fits the tracked capacity, and the loop ends |
| ReplaceString.ReplaceFirst | dibd/testboxd_utilities.c:75-110 | one iteration replaces exactly the occurrence found, growing either buffer when the string and its terminator do not fit |
| ReplaceString.Build | dibd/testboxd_utilities.c:94-96 | copy and two concatenations within the capacity computed |
| ReplaceString.EmptyNeverHalts | dibd/testboxd_utilities.c:71-72 | an empty search string makes the loop endless |
| ReplaceString.CreatePathFromEnv | dibd/testboxd_libs.c:39-66 | a path exactly if there is a reference that fits its buffer and whose variable is set: the rescan of the path with the whole reference replaced; a reference that does not fit is an overrun, whatever the environment |
| ReplaceString.ReferenceShape | dibd/testboxd_libs.c:46-53 | the extracted reference is `$(`, a name without `)`, and `)`, and occurs in the path |
| ReplaceString.ReferenceExactly | dibd/testboxd_libs.c:46-47 | a reference is found if and only if a `)` follows the first `$(` |
| ReplaceString.ReferenceStretch | dibd/testboxd_libs.c:46-53 | and is the stretch from that `$(` through the first such `)`, its name what stands between |
| ReplaceString.ReferenceUnbordered | dibd/testboxd_libs.c:49-50 | a reference has no proper border |
| ReplaceString.NoOverlap | dibd/testboxd_utilities.c:72 | occurrences of a borderless string never overlap |
| ReplaceString.EnvironmentExpansion | dibd/testboxd_libs.c:46-56 | for a name without `/` and a value starting with `/` and free of `$` the expansion ends, and replaces every occurrence of the reference and nothing else |
| LibList.Registry.Load | dibd/testboxd_libs.c:250-291 | a load prepends its library exactly if it opens and has its symbol, a failed one restores list and counts; the list stays acyclic and counts stay equal to numbers of nodes |
| LibList.Registry.Unload | dibd/testboxd_libs.c:395-534 | an unload of an open library removes the first node with its handle; a null head, a missing symbol and the not-present branch are unreachable; closing twice keeps counts equal to numbers of nodes |
| LibList.Unlink | dibd/testboxd_libs.c:444-518 | the pointer surgery removes exactly the first node with the handle and leaves an acyclic list |
| LibList.Registry.ListLibs | dibd/testboxd_libs.c:549-564 | lists every loaded library once, last loaded first |
| LibList.CountsFollowLevels | dibd/testboxd_libs.c:238-544 | over every command sequence a handle's nodes follow a counter raised by its loads and lowered by its unloads, never below zero |
| LibList.UnloadTakesBackItsLoad | dibd/testboxd_libs.c:375-544 | a load and its unload cancel out around any commands on other handles |
| CaseRegistry.Registries.Load | dibd/testboxd_libs.c:293-363 | the nested loops add exactly the library's cases valid on the board, all its suites and all its groups |
| CaseRegistry.Registries.LoadTests | dibd/testboxd_libs.c:318-356 | the innermost loop adds exactly the suite's cases valid on the board |
| CaseRegistry.Registries.Unload | dibd/testboxd_libs.c:420-439 | the nested loops remove exactly the library's cases, whatever their board, and its groups |
| CaseRegistry.KnownAfterLoad | dibd/testboxd_libs.c:293-363 | name by name: a case is known after a load if and only if it was before or the library carries it with a mask that shares a bit with the board; suites and groups likewise, whatever their cases |
| CaseRegistry.KnownAfterUnload | dibd/testboxd_libs.c:420-439 | name by name: after an unload exactly the cases and groups the library carries are gone, whatever the board, and no suite is |
| CaseRegistry.UnloadUndoesLoadExactly | dibd/testboxd_libs.c:420-439 | load then unload restores cases if and only if the names were disjoint, groups likewise, suites if and only if all were known |
| CaseRegistry.UnloadHitsSharedCases | dibd/testboxd_libs.c:430-436 | unloading the second of two libraries removes exactly the cases of the first it names as well |
| Libraries.Loader.Load | dibd/testboxd_libs.c:238-370 | list and registries together: a load that takes lists its library and adds its names, one that fails changes neither |
| Libraries.Loader.Unload | dibd/testboxd_libs.c:375-544 | an unload that takes drops one node and all the names, whatever the open count; one that fails changes neither |
| Libraries.StepInSync | dibd/testboxd_libs.c:420-439 | where a registry holds exactly what the listed libraries put there, the next command keeps that if and only if it is no unclean unload |
| Libraries.InSyncExactlyWhenClean | dibd/testboxd_libs.c:238-544 | over every sequence of loads and unloads each registry follows the list throughout if and only if every unload is clean: it names nothing another listed library or an earlier entry accounts for, and leaves nothing behind |
| Libraries.CleanWhenListedOnce | dibd/testboxd_libs.c:420-439 | among libraries without common names an unload is clean if and only if the library is listed once, or has put nothing there |
| Libraries.SeparateLibraries | dibd/testboxd_libs.c:293-363 | for cases and for groups, libraries meet that condition exactly if they share no name with each other or with what was there before |
| Libraries.CleanForSuites | dibd/testboxd_libs.c:420-439 | for suites an unload is clean exactly if all of the library's suites are still accounted for |
| Libraries.SecondCopyLosesItsCases | dibd/testboxd_libs.c:430-436 | a library loaded twice and unloaded once stays listed without a single case |
| GroupFile.LineLength | dibd/testboxd_libs.c:578 | fgets takes at least one character, and never more than the buffer holds beside the terminator |
| GroupFile.LineStops | dibd/testboxd_libs.c:578 | a read ends right behind the first newline, at the end of the file, or where the buffer is full, whichever comes first |
| GroupFile.ArgumentExactly | dibd/testboxd_libs.c:584-585 | a keyword counts wherever it stands in a line, and its argument runs from its first occurrence to the last `)`; exactly when there is none, and when it is not closed |
| GroupFile.BeforeLastIs | dibd/testboxd_libs.c:585 | the text before the last `)`, if there is one |
| GroupFile.LineRules | dibd/testboxd_libs.c:579-582 | comment lines and lines of at most one character change nothing; of others just the newline is dropped |
| GroupFile.TopRules | dibd/testboxd_libs.c:743-756 | outside groups a line counts if and only if it carries GROUP with a name |
| GroupFile.GroupRules | dibd/testboxd_libs.c:695-719 | between suites: what a SUITE line does with and without a name and when the attachment fails, what END_GROUP does, and that nothing else counts |
| GroupFile.SuiteRules | dibd/testboxd_libs.c:584-676 | inside a suite: DESCR, then TC with 1 to 31 tokens, then EXEC, then END_SUITE, wherever they stand in the line, and that nothing else counts |
| GroupFile.Parser.Gets | dibd/testboxd_libs.c:578 | each read consumes exactly the next line of the shared stream |
| GroupFile.Parser.AddTcFromFile | dibd/testboxd_libs.c:567-683 | the innermost parser, up to END_SUITE or the end of file, leaves the automaton where it would be |
| GroupFile.Parser.AddSuiteFromFile | dibd/testboxd_libs.c:685-727 | the middle parser leaves the automaton where it would be, including after a suite that could not be added |
| GroupFile.Parser.AddGroupFromFile | dibd/testboxd_libs.c:730-771 | on every file the three nested parsers make exactly the calls of the flat automaton and consume every line once |
| GroupFileRoundTrip.LastParenthesisCloses | dibd/testboxd_libs.c:585 | a text in parentheses is read back whole, `)` inside it included |
| GroupFileRoundTrip.KeywordLine | dibd/testboxd_libs.c:695-696 | a printed keyword line gives back its text, whatever it contains |
| GroupFileRoundTrip.TokensOfSpaced | dibd/testboxd_libs.c:594-600 | tokens joined by blanks are split into the same tokens |
| GroupFileRoundTrip.EntryIsNoDescription | dibd/testboxd_libs.c:584-589 | a TC line whose tokens lack `DESCR(` is not taken for a description |
| GroupFileRoundTrip.ExecIsNoOther | dibd/testboxd_libs.c:584-625 | an EXEC line whose text has neither keyword is not taken for a description or a test entry |
| GroupFileRoundTrip.NoiseIsSkipped | dibd/testboxd_libs.c:579-580 | comment and blank lines anywhere change nothing |
| GroupFileRoundTrip.LinesOfFlatten | dibd/testboxd_libs.c:738 | whole lines that fit the buffer are read back as they were written |
| GroupFileRoundTrip.LinesAreTheText | dibd/testboxd_libs.c:578 | whatever the file, the reads give all of its text back in order |
| GroupFileRoundTrip.RoundTrip | dibd/testboxd_libs.c:567-771 | for any set of registered cases, a printed tree with noise anywhere makes exactly the tree's calls, less the entries whose case is not registered, and ends at the top level |
| GroupFileRoundTrip.ReadBack | dibd/testboxd_libs.c:730-771 | so does the nested parser on that file |
| GroupFileRoundTrip.PrintedReadsBack | dibd/testboxd_libs.c:730-771 | for the printed tree itself it is enough that its lines fit the buffer |
| GroupFileRoundTrip.NothingIsDropped | dibd/testboxd_libs.c:603-622 | a suite whose cases are all registered makes one call for each item, in order, with its text or all its tokens |
| GroupFileLayout.TokensOfPadded | dibd/testboxd_libs.c:594-600 | however many blanks stand in front, behind and between, the tokens are the words |
| GroupFileLayout.ReadInside | dibd/testboxd_libs.c:584-676 | blanks and tabs around a line change nothing, in any mode |
| GroupFileLayout.LaidOutRoundTrip | dibd/testboxd_libs.c:567-771 | the round trip for indented files: the tree's lines with blanks and tabs around them, comments and blank lines anywhere in between |
| GroupFileLayout.RefusalsAreLocal | dibd/testboxd_libs.c:708-712 | on a database that refuses some attachments: each group makes its calls up to and with the first refusal, the rest of it is passed over, and the next group is read as if nothing had happened |
| RunLoop.RunTests | dibd/testboxd_threads.c:249-277 | both loops make exactly the closed form's executions, return -1 exactly after a failure, end stopped exactly if stop-on-fail met one and done otherwise; only the case loop sleeps |
| RunLoop.ExecutionsAre | dibd/testboxd_threads.c:455-487 | the closed form, min(loops, first failure + 1 if stopping, first late execution + 1 if timed), is the first iteration that ends the loop, or all loops |
| RunLoop.ExecutionsExactly | dibd/testboxd_threads.c:251-272 | from outcomes and clock alone: n executions if and only if none but the last failed under stop-on-fail or came after clock(0) + execution time, and the last did or was the last loop |
| RunLoop.TimedRun | dibd/testboxd_threads.c:251-270 | a timed run no failure stops makes exactly the executions that end by its deadline and one more, or all loops |
| RunLoop.UntimedRunsAllLoops | dibd/testboxd_threads.c:255-272 | neither timed nor stopped by a failure, a run makes all its loops |
| RunLoop.WaitedRun | dibd/testboxd_threads.c:137-154 | an uncancelled waited run reports PASS if and only if every one of its executions, of which there is at least one, returned 0 |
| RunLoop.OtherReports | dibd/testboxd_threads.c:111-161 | the reports of a run that could not be created, that nobody waits for, that was cancelled, and of every returned status |
| TimeString.FindColons | dibd/testboxd_utilities.c:127-146 | the scan finds exactly the first three colons, -1 for missing ones, and reads no further than the terminator |
| TimeString.TimeStrToSec | dibd/testboxd_utilities.c:118-182 | fails exactly below three characters; a well-formed string gives 86400 d + 3600 h + 60 m + s whatever the scratch buffer held |
| TimeString.ReadParts | dibd/testboxd_utilities.c:148-178 | each field is the number before its colon, read through one shared scratch buffer |
| TimeString.Total | dibd/testboxd_utilities.c:179 | a well-formed string stands for at most 8916039 seconds |
| TimeString.DigitValue | dibd/testboxd_utilities.c:153 | the digits are the ten decimal ones with their values |
| TimeString.FieldsPinColons | dibd/testboxd_utilities.c:131-146 | in a well-formed string the first three colons delimit the four fields |
| TimeString.CanonicalReaches | dibd/testboxd_utilities.c:148-179 | every number of seconds below 8640000 is the value of a canonical string |
| TimeString.CanonicalIsInjective | dibd/testboxd_utilities.c:148-179 | and of only one |
| CommandLine.ParseOptions | dibd/testboxd_args.c:386-536 | the one interleaved pass is two independent folds: settings over the options alone, forwarded rows over the words alone; and exactly which lines are accepted |
| CommandLine.ThreadArgs.constructor | dibd/testboxd_threads.c:35-56 | the defaults: waiting unless the level is OFF or OFF_LOG, one loop, no time, no arguments |
| CommandSettings.LineIsReadAsTyped | dibd/testboxd_args.c:391-507 | every line of options, values and words is read as what was typed, in order |
| CommandSettings.SettingsAre | dibd/testboxd_args.c:393-482 | from the options alone: loops is the count of the last --loop, or the largest there is if an --exe_time came later, or 1; flags hold exactly if given; times and the timeout are the last ones given, else 0; the last --verbose counts, and a later --wait lifts a quiet level to responses |
| CommandSettings.LastIs | dibd/testboxd_args.c:391-482 | the last option of a kind is the one with none of that kind behind it |
| CommandSettings.RefusedExactly | dibd/testboxd_args.c:393-482 | options are refused if and only if one is out of range: verbosity 0 to 3, everything else positive, times well formed |
| CommandSettings.AcceptsExactly | dibd/testboxd_args.c:513-536 | a line is accepted if and only if no option is out of range, some word names a node, and verbosity 3 without a delay goes with one untimed loop |
| CommandSettings.AcceptedMeans | dibd/testboxd_args.c:386-508 | the settings of an accepted line are the ones its options mean |
| CommandSettings.NodeIsFirstNamed | dibd/testboxd_args.c:483-506 | the node is the first word that names a group, suite or case, or an executable, in this order of preference; and the rows then forwarded |
| CommandLine.AcceptedSettings | dibd/testboxd_args.c:400-406 | on every accepted line: waiting exactly if the level is neither OFF nor OFF_LOG, at least one loop, OFF_LOG without delay only for one untimed loop |
| CommandLine.ForwardedRows | dibd/testboxd_args.c:483-506 | the rows forwarded for the first recognized word at position m: the words, with the name over row 0 and row m left empty if m > 0 |
| CommandLine.ForwardsExactlyWhenNodeFirst | dibd/testboxd_args.c:483-506 | the words arrive as typed if and only if the first of them is recognized |
| CommandLine.DocumentedReadingExactly | dibd/testboxd_args.c:446-453 | on every line whose options are accepted the settings are those of the reading in which `--maxtmo` takes its value along; node and forwarded rows are so too if and only if the scan meets no `--maxtmo` with a row behind it; each such one adds one row |
| CommandLine.MaxTimeoutValueIsForwarded | dibd/testboxd_args.c:446-453 | a line on which the readings differ: the value of `--maxtmo` is set and forwarded too |
| Framing.Pack | dibc/dibc.c:142-157 | the client's loop leaves the arguments without the two option pairs in the buffer, each with its NUL, zeros behind; it exits exactly on an unknown socket type, faults on a missing value, and overflows the message exactly if the kept arguments, or the terminator behind all of them, do not fit |
| Framing.Unpack | dibd/testboxd_sockets.c:77-87 | on every message the daemon's loop yields the strings up to the first empty one, and leaves its buffers exactly if no empty one stands inside the message, or there are more strings than rows, or one is too long for its row |
| Framing.UnpackingPacked | dibd/testboxd_sockets.c:77-87 | unpacking a packed list gives it back up to its first empty argument |
| Framing.CommandRoundTrip | dibc/dibc.c:144-157 | the daemon gets back the client's arguments without the pairs if and only if none of them is empty |
| Wire.OptionsAreTaken | dibc/dibc.c:144-156 | the words are forwarded in order; the last socket type (local or inet) and the last address given count, by default the local socket and localhost |
| Wire.BadOptionsStop | dibc/dibc.c:34-49 | an unknown socket type ends the client, a missing value faults, with what was taken before |
| Wire.OverflowsExactly | dibc/dibc.c:152-157 | the message overflows if and only if the words with their NULs take more than its size, or all of it and the final terminator is still to come |
| Wire.WordsAre | dibd/testboxd_sockets.c:77-87 | any message is its unpacked strings, each with its NUL, followed by an empty one or by a stretch without NUL |
| Wire.WordsAreWords | dibd/testboxd_sockets.c:77-87 | none of the unpacked strings is empty or holds a NUL |
| Wire.PackedFits | dibd/testboxd_sockets.c:75-81 | a packed command fits the daemon's rows if and only if there are no more words than rows and each fits one with its NUL |
| Wire.TextIs | dibc/dibc.c:191-192 | what is printed of a message is its part from the payload up to the first NUL |
| Wire.AnswerIs | dibc/dibc.c:175-195 | for messages of which just the last is marked done, whatever follows: the answer is as long as those messages and prints their texts in order |
| Responses.Receive | dibc/dibc.c:175-195 | however reads cut the stream, exactly the texts through the first done message are printed and nothing behind it is read; after a failed read, a beginning of that |
| Responses.ReadMessage | dibc/dibc.c:178-189 | the inner loop fills the buffer with exactly the next message |

## Left out

- Rescan.TerminatesExactly: no exact condition for replacements longer than the search string, where termination of one-rule rewriting is an open question. For those, HaltsByWeight, NeverHalts and RescanIsOnePassExactly give conditions on one side.
- ReplaceString.CreatePathFromEnv: takes its path and environment as values; what the source does after an overrun is undefined and not modelled.
- TimeString.TimeStrToSec: strings that are not four fields of digits (missing colons, empty seconds, longer fields) are read without leaving the string, but their value is not specified, because the scratch buffer may then be stale or unset.
- Responses.Receive: a read that returns 0 for ever keeps the client looping; the stream is taken to contain a message marked done.
- CommandLine.ParseOptions: strtol, the time conversion and the lookup of nodes are parameters; strings are not cut to the width of a row, and there are at least as many rows as arguments.
- Framing.Pack: what the source does without an option's value, or behind the end of the message, is undefined: the model stops there, and so does Unpack. The address is not cut to its 128 characters.
- GroupFileRoundTrip.RoundTrip: suites can always be added to their groups, and reading a group file does not change which cases are registered.
- CommandLine.DocumentedReadingExactly: what converts to a positive number is taken to be no option, as holds of strtol.
- GroupFile.Parser.AddGroupFromFile: a keyword line without `)`, an empty TC, or one with 32 tokens or more stops the model as a fault, since the source then has undefined behaviour; an EXEC line is one call with its raw text, without environment expansion, path splitting and the executable check.
- Database functions (case, suite, group, status) are sets, or a trace of calls answered by arbitrary functions of the history; attaching a null suite is taken to fail, and the suite handed back by a successful attach to be the one attached.
- Early exits of a test thread before its status group is registered run the outer cleanup only, as intended; registering the group and pushing its cleanup is one step.
- Status groups are only ever appended; clearing them, and an index out of range at the kill command, are not modelled.
- A signal wakes one sleeper; a wait that wakes more is a spurious wakeup.
- Cancellation happens while a test body runs; thread identifiers are not reused, and pthread_cancel of a live thread succeeds.
- The 480-second minimum of the join's timeout: the timed join may give up at any time.
- Allocation failures other than the acceptor's, integer widths, logging and printing.
- Concurrent loading and unloading of libraries, other users of dlopen, and the descriptions and functions stored with a case.
- The suite and group handlers' bodies, XML start and end messages, and libtestbox itself, which is not part of this model.
- The numeric verbosity levels (OFF 0, RESP 1, OFF_LOG 3): libtestbox_verb.h is not part of this model, and only their order matters.
- Step mode, the utility phase of `cmd_parse`, start-up arguments, allocation of argument rows: easy members.
- Sockets, files, terminal settings, daemonizing and signals.
