# Verified models of sandbox-ai

This project models, in Dafny, the parts of sandbox-ai whose correctness is hardest to see from reading
one function, and proves what the code and its documentation promise of them.

* **The setup ceremony** (`PhaseOrder`, `PhaseRunner`, `ApplyPass`, `Propagation`, `Gate`, `Reports`): ordering phases
  by their dependencies, the plan pass and the apply pass over a host state that the phases' callbacks change, failure
  propagation, the decision between the passes, and what each phase reports and leaves behind. A phase's `probe`,
  `act`, `reverify` and `rollback` are arbitrary functions of the phase and the host, and any of them may raise.
* **The doctor** (`DoctorOrder`, `DoctorRun`, `Cascade`): the in-degree queue, the run of the checks, and which of them
  are skipped.
* **The output frame** (`Normalize`, `NormalForms`, `Framing`, `FrameTheorems`, `FrameScan`): the dispatcher's
  BEGIN and EXIT lines, the executor's regular expressions with their exact multi-line behaviour, recovery and
  normalisation.
* **The health-check bundle** (`PyInts`, `Preflight`, `PreflightTheorems`, `PreflightVerdicts`, `PreflightRoundTrip`,
  `HealthCheck`): the second marker protocol inside the frame, its parser, and the way from the shell to the
  verdicts.
* **The typed-op wire** (`Shell`, `PlainWords`, `Wire`, `FwdWire`, `WireOrder`, `ExpandedWire`, `Paths`,
  `ComposeArgv`, `ComposeShell`, `FwdArgv`, `HelperArgv`, `OperatorWire`, `Grammars`): shell quoting against POSIX token
  recognition (sections 2.2 and 2.3 of the Shell Command Language), what becomes of text that is not quoted,
  the Python and Go parsers and builders, and the checks in front of the
  Go ones. `Py…` and unprefixed names are the operator's side, `Go…` names the dispatcher's.
* **Allocators and id maps** (`Subnets`, `Ipam`, `IpamRuns`, `IdMaps`, `SubidFiles`, `Subid`, `SubidRuns`):
  the slot ledger, alone and under every interleaving of processes, the address plan, the maps between
  container and host ids, and the blocks of subordinate ids.
* **The audit journal** (`Journal`): both encoders, and a decoder written from the "Journal Export Format"
  section of systemd's Journal Export Formats.
* **The lock protocol** (`Locks`, `LockProtocol`, `LockWindow`, `LockSteps`): `start`, `stop`, `destroy`, probes and
  workspace backups as interleaved steps over two file locks, an advisory record and a clock, with crashes.

`Options`, `StringOrder`, `Graphs` and `Text` are the shared library.

`dafny verify dfyconfig.toml` checks everything.

## What the proofs found

* **Failure does not pass through a mode-skipped phase.** The docstring of the apply pass speaks of any
  transitive ancestor; the code propagates failure only along chains of applicable phases. In the ceremony of
  `Propagation.FailureStopsAtASkippedPhase` a phase is reported correct behind a failed ancestor. The documented
  rule holds, for all callbacks and hosts, exactly when every applicable phase that is reached from another along
  dependencies is also reached through applicable phases only (`Propagation.DocumentedRuleIff`).
* **A probe that answers FAIL or BLOCKED_BY in the apply pass is acted on**, and the gate counts BLOCKED_BY
  neither as a mutation nor as a refusal. "Nothing to apply" is silent about such a phase
  (`Gate.NothingToApplyIff`, `Gate.GateCanBeSilentAboutAnAct`).
* **Normalisation is not idempotent**, contrary to its docstring: ESC [ ESC [ 0 m 0 m is a counterexample. It is
  idempotent exactly when the text after the first pass's ANSI and carriage-return steps holds no control sequence.
* **The frame's round trip needs no assumption about the output** as long as the last line is terminated: the
  first BEGIN and the last EXIT are genuine. The newline that ended the BEGIN line stays in the text, and leading
  blank lines of the output are lost to `\s*$`.
* **"Appears more than once" is counted without overlap**: two copies of a bundle marker that share their
  underscores count as one (`PreflightTheorems.OverlappingCopiesAreMissed`). What is rejected is exactly two copies
  that share no character.
* **Container to host to container is the identity exactly when a user's own ranges are disjoint**; host to
  container to host always is.
* **A live `destroy` shuts the gate of `start` only while its record is fresh and not yet wiped.** Although the
  `destroy` still holds its lock, the gate can be passed once the record is stale (not up to 59 seconds after the
  reading it was made from, from 61 seconds on), and, at any age, between the wiping of the record and the unlocking
  at the exit from its context; at no other point (`LockWindow.PassableIff`). The teardown itself is kept apart by the
  state lock whatever the clock says. A workspace backup, which skips the state lock, does not shut the gate reliably
  at all.
* **The path operands of the compose command are not quoted.** The words the shell reads off the command line of an
  accepted wire are the intended ones, whatever files and users there are, exactly when every path stands for itself
  without quotes; for the operator's own requests, exactly when the path of the home directory does. A home with a
  blank or with `{a},b}` in its name is accepted by the dispatcher's checks and misread (`ComposeShell.BlankInHome`,
  `ComposeShell.BracesInHome`); a `#`, a `~`, a lone `[` or a lone `{` inside it does no harm.

## Model

| member | source | states |
|---|---|---|
| PhaseOrder.OrderPhases | src/core/setup/phase_runner.py:320-366 | whatever the input order, the result is the lexicographically least by id among all topological orders of the in-set dependency graph; an unknown dependency is reported iff the mode is strict and one exists; a cycle is reported iff the graph has one, and the ids named are exactly those from which a cycle can be reached |
| PhaseOrder.LeastTopologicalUnique | src/core/setup/phase_runner.py:345-366 | there is only one such order, so equal graphs give equal orders |
| PhaseOrder.GreedyIsLeast | src/core/setup/phase_runner.py:349-365 | taking the least ready id at every step beats every other topological order |
| PhaseOrder.FindUnknown | src/core/setup/phase_runner.py:338-344 | the strict guard finds an unknown dependency iff some phase lists one, and names the phase and the dependency |
| PhaseRunner.Runner.RunPlanPass | src/core/setup/phase_runner.py:548-590 | one outcome per phase in dependency order, equal to the specification on the unchanged host; the calls made are one probe for each applicable phase, in that order, and nothing else |
| PhaseRunner.Runner.RunApplyPass | src/core/setup/phase_runner.py:593-708 | the host, the calls and the outcomes after the pass are those of the specification, over the callbacks' effects on the host |
| PhaseRunner.Runner.ApplyOne | src/core/setup/phase_runner.py:711-730 | act, then reverify; a raise in either or an unconfirmed reverify is the failure turn, else the phase is correct and reverified |
| PhaseRunner.Runner.Failed | src/core/setup/phase_runner.py:733-752 | rollback is called iff the phase has one, and its own failure is noted in the detail |
| ApplyPass.OrderedPhasesAreASchedule | src/core/setup/phase_runner.py:345-366 | the order produced by the sort puts every in-set dependency strictly before its dependent, without duplicates |
| ApplyPass.OutcomeFromFinalFailures | src/core/setup/phase_runner.py:650-671 | every outcome is the one that the final set of failures gives: no later phase can change an earlier verdict |
| ApplyPass.FailedSetIsLeast | src/core/setup/phase_runner.py:636-706 | the failed phases are the least set that holds every applicable phase failing on its own and every applicable phase depending on the set |
| ApplyPass.EachPhaseGetsItsDueCalls | src/core/setup/phase_runner.py:672-752 | act is called once for exactly the applicable, unblocked phases whose probe calls for it, and rollback exactly after a failed act or reverify of a phase that has one |
| ApplyPass.OrderDoesNotMatter | src/core/setup/phase_runner.py:593-708 | with each phase's replies fixed, any two schedules of the same phases fail the same set and give each phase the same outcome and the same calls |
| Propagation.FailedIffChain | src/core/setup/phase_runner.py:593-708 | a phase fails iff a chain of applicable phases, each depending on the next, leads from it to one that fails by itself |
| Propagation.BlockedIffChain | src/core/setup/phase_runner.py:650-706 | a phase is reported BLOCKED_BY iff a chain of applicable phases over at least one dependency leads from it to one that fails by itself |
| Propagation.DocumentedRuleIff | src/core/setup/phase_runner.py:600-603 | "any transitive ancestor failed" makes an applicable phase BLOCKED_BY for all callbacks and hosts iff in the given phases every applicable phase reached from an applicable one along dependencies is also reached through applicable phases |
| Propagation.FailureStopsAtASkippedPhase | src/core/setup/phase_runner.py:636-650 | a ceremony of three phases where the documented rule fails: the first fails, the second is skipped by mode, the third is reported correct |
| Gate.TallyPlan | src/core/setup/cli_flow.py:112-124 | each bucket counts exactly its outcomes and the buckets add up to all of them |
| Gate.DecideGate | src/core/setup/cli_flow.py:213-248 | refused iff some outcome is a refusal; else nothing-to-apply iff no outcome is a mutation and there are no extra mutations; else proceed, prompt or ask for --yes by the two flags |
| Reports.GateMatrix | src/core/setup/cli_flow.py:213-248 | the matrix over the results themselves: refused iff one is CONFLICT or FAIL; else nothing-to-apply iff none is MISSING or DRIFT and there are no extra mutations; else proceed with --yes, prompt on a terminal, ask for --yes otherwise |
| Reports.CountsOne | src/core/setup/cli_flow.py:82-124 | which results each bucket of the tally counts |
| Reports.CountsAddUp | src/core/setup/cli_flow.py:112-124 | every outcome counts, wherever it stands |
| Gate.NothingToApplyIsHonest | src/core/setup/cli_flow.py:239-248 | if the gate says nothing-to-apply and no probe answered BLOCKED_BY, the apply pass calls no act, leaves the host as it is and reports phase by phase what the plan reported |
| Gate.NothingToApplyIff | src/core/setup/cli_flow.py:112-124 | after nothing-to-apply the apply pass would act iff some probe answered BLOCKED_BY |
| Gate.GateCanBeSilentAboutAnAct | src/core/setup/phase_runner.py:690-706 | a ceremony of one phase where nothing-to-apply is said and the apply pass changes the host |
| Reports.PlanReports | src/core/setup/phase_runner.py:566-590 | a phase of another mode is planned as skipped, one whose probe raises as FAIL with the exception's text, any other with its probe's own result and detail |
| Reports.RaisingProbeIsRefused | src/core/setup/cli_flow.py:239-241 | an applicable phase whose probe raises or answers CONFLICT in the plan pass makes the gate refuse, whatever the flags and the other phases |
| Reports.HostIsHandedOn | src/core/setup/phase_runner.py:637-708 | the apply pass begins on the host it is given, each turn begins on the host the one before left, and the pass leaves what the last turn left |
| Reports.SkippedReport | src/core/setup/phase_runner.py:637-650 | a phase of another mode is reported SKIPPED with the mode's name and touches nothing |
| Reports.BlockedReport | src/core/setup/phase_runner.py:652-665 | an applicable phase that depends on a failed one is reported BLOCKED_BY, naming the first of its dependencies that has failed, and touches nothing |
| Reports.ProbedReport | src/core/setup/phase_runner.py:667-701 | for an applicable phase with no failed dependency: a raised probe is a FAIL with the exception's text, the answers ALREADY_CORRECT, SKIPPED and CONFLICT are reported as given and never as reverified, and nothing is touched |
| Reports.ConfirmedReport | src/core/setup/phase_runner.py:718-729 | when the probe calls for the act, the act does not raise and the reverify confirms it: ALREADY_CORRECT, reverified, in the words of the act, on the host that the act left |
| Reports.FailedReport | src/core/setup/phase_runner.py:718-752 | when the act or the reverify raises or the reverify does not confirm: FAIL, not reverified, with the reason; the host is the one the act left or, for a phase with a rollback, the one the rollback left, and the detail says how the rollback ended |
| Reports.FailsAloneIff | src/core/setup/phase_runner.py:690-730 | the two notions the failure theorems are stated with, calling for action and failing by itself, are what the probe's, act's and reverify's replies say |
| DoctorOrder.TopologicalSort | src/core/doctor/registry.py:477-500 | emits every check at most once, dependencies first, and exactly the checks from which no dependency cycle can be reached |
| DoctorOrder.AllEmittedIffAcyclic | src/core/doctor/registry.py:490-500 | all checks are emitted iff the dependency graph has no cycle |
| DoctorOrder.BuildTables | src/core/doctor/registry.py:479-487 | the in-degrees and adjacency lists hold exactly the in-set links, repetitions included |
| DoctorRun.RunChecks | src/core/doctor/registry.py:503-557 | with the final set of applicable checks that ended in fail or skip, every check reports a mode skip, a dependency skip naming its failed dependencies, or its own run; the checks run are exactly those neither mode-skipped nor depending on that set, in order |
| DoctorRun.RunExactlyOnce | src/core/doctor/registry.py:526-555 | a check's run is called exactly once if it runs and never otherwise |
| Cascade.NotRunIffChain | src/core/doctor/registry.py:537-555 | an applicable check does not run iff a chain of applicable checks leads from it, over at least one dependency, to one whose own run ends in fail or skip |
| Cascade.WhatIsReported | src/core/doctor/registry.py:526-557 | a check of another mode reports a skip that names the mode, never a pass; one that does not run reports a skip under its own name; any other reports exactly what its run returned |
| Cascade.SkipNamesBlockers | src/core/doctor/registry.py:537-549 | a dependency skip names the dependencies that ended badly, and there is at least one |
| Cascade.KeptInOrder | src/core/doctor/registry.py:537-541 | the dependencies named are taken out of the list one after the other, in its order |
| Cascade.KeptOne | src/core/doctor/registry.py:537-541 | each is named exactly if it ended badly |
| Cascade.NamesJoined | src/core/doctor/registry.py:544 | the names are joined by a comma and a space |
| Normalize.NormalizedIsClean | src/core/executor.py:30-46 | no carriage return and no run of three newlines is left |
| Normalize.IdempotentIff | src/core/executor.py:41-46 | normalising twice is normalising once iff the text after the ANSI and carriage-return steps of the first pass holds no control sequence |
| Normalize.IdempotentWithoutEsc | src/core/executor.py:41-46 | in particular when no ESC survives the first ANSI pass |
| Normalize.NotIdempotentInGeneral | src/core/executor.py:30-46 | the docstring's unconditional claim fails on a concrete input |
| Normalize.NormalizeAroundMarker | src/core/executor.py:43-46 | a marker line passes unchanged and separates what happens on its two sides |
| NormalForms.CsiIff | src/core/executor.py:27-27 | what is taken for a control sequence at a place is exactly ESC, a bracket, digits and semicolons, and one letter |
| NormalForms.SequenceIsStripped | src/core/executor.py:43 | a control sequence goes, and stripping goes on behind it |
| NormalForms.CharacterStays | src/core/executor.py:43 | any character that starts none stays |
| NormalForms.ReturnsAreDropped | src/core/executor.py:44 | every carriage return goes, and nothing else |
| NormalForms.RunsAreCollapsed | src/core/executor.py:45 | of every run of newlines the first two stay, and everything between the runs |
| Framing.Executor.RecoverInnerExit | src/core/executor.py:193-251 | equals the recovery specification on every text, and the frame nonce is stashed iff a BEGIN line was found |
| Framing.Executor.BindExit | src/core/executor.py:227-251 | the last EXIT with the expected token gives the code; both frame lines are cut out, the later first; non-zero raises |
| FrameTheorems.FrameRoundTrip | src/core/executor.py:193-251 | for every nonce, every exit code and every output that is empty or newline-terminated, forged frames included: code 0 completes with the normalised output minus leading blank lines, after the newline of the BEGIN line, and every other code fails with that code and the same text; the nonce found is the frame's |
| FrameTheorems.InjectedRoundTrip | src/core/executor.py:221-251 | the same for a token that the executor injected, with nothing lost at the front: code 0 completes, every other code fails with it |
| FrameTheorems.DispatchIsRecovered | src/templates/dispatch/main.go:158-195 | every framed dispatch is recovered, whether it returns before its process image is replaced or the replaced image ends with the trailer: code 0 completes, every other code fails with it |
| FrameTheorems.RecoveredBetween | src/core/executor.py:221-251 | on any text, with any BEGIN match and any list of EXIT matches: without one of the BEGIN's token there is no exit code; otherwise the last one with it decides, 0 completes and any other code fails with it, and the text is what is left, normalised, when both matches are cut out |
| FrameScan.BeginAtIff | src/core/executor.py:24-24 | what the first expression matches at a place, without its own steps: the marker at the start of a line, a non-empty token of hex digits, then white space up to the last stop that `$` accepts |
| FrameScan.ExitAtIff | src/core/executor.py:16-16 | the same for the second, with an underscore and the digits of the code |
| FrameScan.FindsFirstBegin | src/core/executor.py:193-221 | the search yields the first BEGIN line of the text, and nothing iff there is none |
| FrameScan.FindsEveryExit | src/core/executor.py:221-235 | the scan yields exactly the EXIT lines of the text, from front to back |
| FrameScan.FramedOnAnyText | src/core/executor.py:193-251 | on any text whatever: nothing is recovered without a BEGIN line or without an EXIT line of the first one's token; otherwise the last of these gives the code, 0 completes and any other fails with it, and the text is the rest, normalised; the two lines never share a character, so that cutting them in either order is the same |
| FrameScan.InjectedOnAnyText | src/core/executor.py:221-251 | the same for an injected token |
| FrameTheorems.StreamIsNotFramed | src/templates/dispatch/main.go:158-195 | the one operation that streams is sent without a frame: its output is exactly what it wrote |
| FrameTheorems.UnterminatedFailsClosed | src/core/executor.py:223-228 | nonce-free output with an unterminated last line never yields an exit code |
| FrameTheorems.MissingTrailerFailsClosed | src/core/executor.py:223-228 | nonce-free output without a trailer never yields an exit code |
| Preflight.ParsePreflight | src/core/dispatch.py:775-876 | one outcome per query name: all unverifiable without a nonce, else the scan's verdict; ok iff the query was read with code 0, then with the stripped segment and else with no text, and timed out iff the crossing was |
| PyInts.PyIntOfDec | src/core/dispatch.py:857-858 | reading the printed exit code gives it back |
| PyInts.IntOfGroups | src/core/dispatch.py:857-858 | a sign or none in front of groups of digits separated by single underscores is read as the number the digits spell |
| PyInts.IntHasGroups | src/core/dispatch.py:857-866 | nothing else is read as a number |
| PreflightTheorems.CountAtMostOneIff | src/core/dispatch.py:831-833 | the duplicate test passes iff every two copies of the marker overlap |
| PreflightTheorems.OkIsGenuine | src/core/dispatch.py:828-875 | on any text, an ok query has its begin marker and after it its exit marker with code 0, its output is what stands between them, and every further copy of either marker overlaps the one read |
| PreflightTheorems.ParsedInOrder | src/core/dispatch.py:842-868 | on any text, two parsed queries were each read at their own begin and exit markers, with what stands between them as the segment, and the exit marker read for the earlier ends before the begin marker read for the later starts |
| PreflightTheorems.OverlappingCopiesAreMissed | src/core/dispatch.py:831-839 | a text with two copies of a marker that the duplicate test lets through |
| PreflightVerdicts.VerdictsAreTheOnlyOnes | src/core/dispatch.py:828-868 | on any text the parser's verdicts are the only ones that fit this reading: a query is ambiguous iff two copies of one of its markers share no character, missing iff no begin marker from where the scan stands on is followed by an exit marker, and otherwise read at the first such pair; the scan moves only for a query that was read, to the end of its exit marker, so that a query that fails does no harm to the others |
| PreflightVerdicts.SpellsIff | src/core/dispatch.py:855-868 | what is read: the stripped text between the markers, with the number that stands behind them before the first two underscores, or unparseable if none does |
| PreflightRoundTrip.ParsesBundle | src/core/dispatch.py:739-768 | for any list of distinct queries whose names hold no underscore, whose names and segments are free of the nonce and whose codes print shorter than it, and any nonce-free text in front, the parser returns each query's exit code and stripped segment |
| PreflightRoundTrip.NonceInBundle | src/core/dispatch.py:739-768 | the nonce occurs in a bundle only where its markers put it |
| HealthCheck.NormalizedBundle | src/core/executor.py:30-46 | normalising a bundle's text normalises its segments and leaves its markers |
| HealthCheck.BundleIsParsed | src/core/dispatch.py:743-768 | the five real queries, with any outputs that stay nonce-free and any codes below 256, parse to exactly their codes and segments after normalisation |
| HealthCheck.HealthCheckEndToEnd | src/core/dispatch.py:775-876 | bundle, frame, recovery, normalisation and parser together: the frame's nonce is recovered, and each query's outcome is ok iff its code is 0, then with its normalised, stripped output and else with no text, and timed out iff the crossing was |
| Shell.ScanQuoted | src/templates/dispatch/main.go:589-602 | a quoted text adds exactly that text to the word it stands in, for every text |
| Shell.SplitJoined | src/core/dispatch.py:1135-1147 | splitting undoes quoting and joining, for every list of words |
| Shell.PayloadStripsNothing | src/core/dispatch.py:1147 | the trailing rstrip takes away the space left by an empty argument list and nothing else |
| Shell.PayloadSplits | src/core/dispatch.py:1135-1147 | for every op and argument list the shell hands the dispatcher exactly [binary, op, args...] |
| Shell.HardenedDockerRunSplits | src/templates/dispatch/main.go:426-440 | the helper's command line splits into the fixed hardening words, the mount of exactly the parent, exactly the image, and exactly the script as one argument |
| Wire.ParseComposeWire | src/core/dispatch.py:579-627 | returns what the flag list means by a declarative reading of its pairs: project and env file exactly once, files in order, volumes at most once and only for compose-down; fails on everything else |
| Wire.GoParseComposeWire | src/templates/dispatch/main.go:624-689 | accepts iff the same reading has a meaning and the project has the right characters and ends in the instance, with the same result |
| Grammars.GoReadingIff | src/templates/dispatch/main.go:624-689 | the dispatcher reads a compose wire iff the operator's side does, the project is a name and it ends in a dash and the instance, and then with the same result |
| Grammars.NamesAre | src/templates/dispatch/main.go:606-606 | the names, character by character: one lower-case letter or digit, then these, underscores and dashes; an instance's name up to thirty of them and not a reserved word |
| Grammars.SuffixIff | src/templates/dispatch/main.go:685-688 | a text has a suffix iff it is some text followed by it |
| Grammars.ClassesAre | src/core/executor.py:16-27 | the character classes of the regular expressions, character by character |
| Grammars.SpacesAre | src/core/executor.py:16-24 | and what counts as white space, code by code |
| FwdWire.ParseFwdWire | src/core/dispatch.py:963-998 | returns the project and the address iff each is given exactly once and nothing else is |
| FwdWire.GoParseFwdWire | src/templates/dispatch/main.go:456-491 | the same |
| WireOrder.ComposeOrderIrrelevant | src/core/dispatch.py:579-627 | two wires with the same flag/value pairs in any order that keeps the compose files' order mean the same |
| WireOrder.FwdOrderIrrelevant | src/core/dispatch.py:963-998 | two wires with the same pairs in any order mean the same |
| Paths.EnvelopeBoundary | src/templates/dispatch/main.go:775-812 | accepts iff the path is absolute, holds no NUL or newline, has only plain components and lies strictly below some instances/inst; returns the components and the first such boundary |
| ComposeArgv.BuildComposeWireArgv | src/core/dispatch.py:630-656 | an argv iff the wire has a meaning, assembled from it with the op's own verb |
| ComposeArgv.GoBuildComposeArgv | src/templates/dispatch/main.go:703-748 | accepts iff the operator's builder does and the project, all compose files and the env file pass the dispatcher's checks, and then with the identical argv |
| Grammars.GoAcceptsIff | src/templates/dispatch/main.go:703-722 | the dispatcher's further demands on a compose wire: the project is a name that ends in a dash and the instance, and the env file and every compose file are confined |
| PlainWords.UnquotedIsReadIff | src/core/dispatch.py:640-656 | a list of words joined by spaces without quoting is read back by the shell, over all file systems and user databases, iff every word is non-empty and stands for itself: no blank, quote or operator, no character that starts an expansion, no `*` or `?`, no `#` or `~` at its start, no `~` where an assignment expands one, no bracket expression and no brace expansion |
| ComposeShell.CommandIsReadIff | src/templates/dispatch/main.go:724-747 | for a wire the dispatcher accepts, the argv is bash with one command line, and the shell reads off it, over all file systems, exactly the assignments, docker, compose, -f and each file, the options and the verb of the operation iff every path operand stands for itself without quotes |
| ComposeShell.OperatorCommandIsReadIff | src/core/dispatch.py:503-529 | for every instance, user and configuration the operator's command is read as intended, over all file systems, iff the path of the home directory stands for itself without quotes |
| ComposeShell.BlankInHome | src/templates/dispatch/main.go:775-812 | a home with a blank in its name: accepted by all checks, read as other words |
| ComposeShell.BracesInHome | src/templates/dispatch/main.go:775-812 | a home named `{a},b}`: accepted by all checks, read as other words |
| ComposeShell.SpecialElsewhereInHome | src/templates/dispatch/main.go:775-812 | a home named with `#`, `~`, a lone `[` and a lone `{`: accepted by all checks and read as intended |
| FwdArgv.BuildFwd | src/core/dispatch.py:1001-1018 | the direct docker argv iff the wire has a meaning |
| FwdArgv.FwdReachesAdmin | src/core/dispatch.py:1001-1018 | the argv runs, in the admin container of the project, the forwarder to the address given and to its one port |
| FwdArgv.GoBuildFwdArgv | src/templates/dispatch/main.go:564-587 | accepts iff the operator's builder does and project and address pass the checks, and then with the identical argv |
| Grammars.GoAcceptsFwdIff | src/templates/dispatch/main.go:493-554 | and on a fwd wire: the same of the project, and an address whose parts between the dots are 10, an octet from 100 on and two octets, printed in plain decimal |
| FwdArgv.ValidateFwdIP | src/templates/dispatch/main.go:513-554 | accepts exactly the texts 10.b.c.d with b from 100 to 255 and c, d up to 255, printed in plain decimal |
| FwdArgv.DecOfValue | src/templates/dispatch/main.go:528-541 | digits without a leading zero are what printing their value gives |
| ExpandedWire.ExpandComposeWire | src/core/dispatch.py:561-576 | the wire lists project, env file and one flag per compose file in order, and volumes iff compose-down asked for it |
| ExpandedWire.ExpandedMeaning | src/core/dispatch.py:561-627 | an expanded request means exactly what was requested, whatever its strings hold |
| ExpandedWire.ComposeThroughShell | src/core/dispatch.py:1135-1147 | quoted, split by the shell and parsed, it is the dispatcher, the operation's own word, and still the original project, env file, ordered compose files and volumes flag |
| ExpandedWire.FwdThroughShell | src/core/dispatch.py:931-960 | the same for fwd, behind the words of the dispatcher and the operation |
| HelperArgv.ReformatIsIdentityIff | src/core/dispatch.py:883-886 | printing the value of an octal text with four digits gives the text back iff it has four digits, or more and no leading zero |
| HelperArgv.GoBuildHelperChownFiles | src/templates/dispatch/main.go:382-403 | for validated arguments, and for any mode the reformatting leaves alone, the dispatcher's argv is the operator's |
| HelperArgv.ChownLoopsOverFiles | src/core/dispatch.py:887-890 | behind the script's `for f in`, the words up to the first unquoted semicolon are exactly the files given, whatever they hold |
| HelperArgv.LoopCommands | src/core/dispatch.py:887-896 | the commands of each turn, word by word: copy out, unlink, copy back, the mode on the copy, and as its owner the user and the group in this order |
| HelperArgv.ChownReachesTheContainer | src/core/dispatch.py:883-897 | the operator's argv is bash with one command line, which delivers exactly the parent, the image and the script to the container |
| OperatorWire.SanitizedIs | src/core/compose.py:19-20 | a sanitised user name is the lower-cased name with a dash for every character outside a-z and 0-9, minus exactly the dashes at its two ends |
| Grammars.DashedAt | src/core/compose.py:19-20 | character by character: a lower-case letter or digit stays, a capital becomes its small letter, anything else a dash |
| OperatorWire.ProjectNameFits | src/core/compose.py:27-37 | for every valid instance a project name exists iff the user name sanitises to non-empty, and it passes the dispatcher's project rule |
| OperatorWire.ResolveComposeState | src/core/dispatch.py:503-529 | refused iff the instance is not registered, its configuration cannot be read or the user name sanitises to nothing; else the project name, the compose files, extras included in order, and the env file of the registered directory |
| OperatorWire.ExtrasAsConfigured | src/core/dispatch.py:519-526 | the main compose file comes first, then db-postgres.yml iff the database is enabled, then mcp-firecrawl.yml iff that component is |
| OperatorWire.BelowInstanceIsConfined | src/templates/dispatch/main.go:775-812 | every clean path below home/instances/inst is confined, whatever clean components the home has |
| OperatorWire.ConfinedIsBelowInstance | src/templates/dispatch/main.go:775-812 | and nothing else is confined: every confined path is such a path |
| Grammars.ComponentsAre | src/templates/dispatch/main.go:775-800 | a component of such a path is anything but empty, one dot or two, without a slash, a newline or a NUL |
| OperatorWire.OperatorComposeIsAccepted | src/core/dispatch.py:503-576 | for every valid instance, every user name that sanitises to non-empty and every clean home, the expanded compose wire passes all of the dispatcher's checks |
| OperatorWire.OperatorFwdIsAccepted | src/core/dispatch.py:931-960 | the same for fwd, for every slot |
| Subnets.MaxSlotsIsTight | src/core/ipam.py:18 | all five second octets stay within 255 exactly for the slots below 7987 |
| Subnets.SubnetsDistinct | src/core/ipam.py:137-155 | two subnet texts are equal iff they are the same subnet of the same slot |
| Subnets.StaticIpInItsSubnet | src/core/ipam.py:158-199 | each of the thirteen addresses lies in the subnet it is named for |
| Subnets.StaticIpsDistinct | src/core/ipam.py:158-199 | no two addresses of any slots are the same text |
| Subnets.CoreIpcInSuperblock | src/core/dispatch.py:931-948 | the address that fwd is sent to passes the dispatcher's address check for every slot |
| Ipam.IPAMLedger.Allocate | src/core/ipam.py:73-100 | busy lock: refused, nothing changed; else the slot already owned, or the least free slot, recorded; or exhaustion iff all slots are used by others, nothing changed |
| Ipam.IPAMLedger.Release | src/core/ipam.py:102-111 | removes exactly this instance's entry, if the lock could be taken |
| Ipam.IPAMLedger.PeekNextSlot | src/core/ipam.py:113-134 | the answer an allocation would give now |
| Ipam.FirstUnused | src/core/ipam.py:87-96 | the scan returns the least slot in range that is not in use, or none iff all are in use |
| Ipam.AnswerIsUnique | src/core/ipam.py:73-134 | there is only one right answer to an allocation, so preview and allocation agree |
| Ipam.AnswerKeepsLedger | src/core/ipam.py:83-95 | an allocation keeps the ledger injective and in range, records the slot, and leaves all other entries |
| Ipam.AllocateIsIdempotent | src/core/ipam.py:83-85 | allocating again gives the same slot and changes nothing |
| Ipam.ExhaustedIffFull | src/core/ipam.py:97-99 | all slots are in use iff exactly 7987 instances are registered |
| IpamRuns.RunKeepsInv | src/core/ipam.py:61-111 | over every interleaving of locks, loads, saves, unlocks, previews and crashes the ledger stays injective and in range, and at most one process holds the lock |
| IpamRuns.OperationRuns | src/core/ipam.py:61-111 | an operation that finds the lock free can be carried out to its end, with the ledger it should leave and the lock free again, and a crash at any point of it frees the lock too |
| IpamRuns.OthersChangeNothing | src/core/ipam.py:61-134 | a process that finds the lock taken, and a preview, change nothing |
| IpamRuns.SavedAllocationIsRight | src/core/ipam.py:73-100 | in every run a saved allocation is right for the ledger as it is at the save, and exhaustion is raised iff all 7987 slots belong to others |
| IpamRuns.PeekPredictsAllocate | src/core/ipam.py:113-134 | a preview followed by the lock, load and save of an allocation: the allocation answers what the preview said, and the ledger is the one it foretold |
| IpamRuns.PreviewComesTrue | src/core/ipam.py:113-134 | in every run, with any other processes at work, the same holds as long as nobody saved between the preview and the allocation |
| IpamRuns.SlotIsKept | src/core/ipam.py:73-111 | in every run an instance keeps its slot until its own release is saved |
| IdMaps.HostIdForInContainer | src/core/host_config.py:481-508 | 0 is the primary id; negative is out of range; with non-negative counts 1..total and nothing else is mapped, to the place that its number has in the ranges laid end to end |
| IdMaps.InContainerIdForHostId | src/core/host_config.py:549-578 | mapped iff some range holds the host id, by the first range that does |
| IdMaps.HostRoundTrip | src/core/host_config.py:481-578 | host to container to host is the identity on every covered host id, overlapping ranges or not |
| IdMaps.ContainerRoundTripIff | src/core/host_config.py:481-578 | container to host to container is the identity on all of 1..total iff no two ranges meet |
| IdMaps.ComesBackIff | src/core/host_config.py:531-546 | that condition is what composing the two maps computes |
| IdMaps.RecommendGid | src/core/host_config.py:604-639 | the unused gid of least container id at or above the minimum, and failure iff there is none |
| SubidFiles.ReadAllUsers | src/core/setup/subid.py:68-92 | the well-formed entries, in order |
| SubidFiles.LineRoundTrip | src/core/setup/subid.py:68-92 | a line written as name, start and count is read back as exactly these |
| SubidFiles.ParseForUser | src/core/host_config.py:437-459 | the separately written per-user reader returns exactly that user's part of the all-users reader |
| SubidFiles.OverlapMeansSharedId | src/core/setup/subid.py:60-65 | for non-empty ranges the test holds iff some id lies in both |
| Subid.PickFreeSubidBlock | src/core/setup/subid.py:121-141 | ends for every finite list and returns the lowest aligned block that overlaps nothing occupied |
| Subid.LowestOfAll | src/core/setup/subid.py:121-141 | the block starts a multiple of 65536 above 100000, counts 65536 ids, and no free block of this kind starts before it |
| Subid.MetBelowReach | src/core/setup/subid.py:131-141 | no block past the end of all ranges can overlap one: why the unbounded search ends |
| Subid.CrossUserOverlap | src/core/setup/l2_host_prereqs.py:229-260 | found iff one of the user's own ranges overlaps a range of another user, judged by user and not by value |
| Subid.SubidStatus | src/core/setup/l2_host_prereqs.py:263-289 | absent, inadequate, overlapping or adequate, exactly by the four conditions in their order |
| Subid.StatusIff | src/core/setup/l2_host_prereqs.py:263-289 | each of the four answers by itself: adequate iff both files give enough ids and none is shared; inadequate iff one gives some but not enough; overlapping iff neither is so and some id is shared; absent iff both give none, or one does and nothing is wrong with the other |
| Subid.SumConcat | src/core/setup/l2_host_prereqs.py:263-289 | the total that adequacy is judged by counts every range once: totals add up over any two parts of the list, and a single range contributes its count |
| Subid.Host.Act | src/core/setup/l2_host_prereqs.py:374-387 | refuses iff inadequate or overlapping; gives an absent user the lowest free block in each file where it has nothing; otherwise changes nothing |
| Subid.Host.ApplySubid | src/core/setup/host_batch.py:213-225 | gives the operator the lowest free block in each file where it has nothing, and touches nothing else |
| Subid.ProvisionedInSteps | src/core/setup/host_batch.py:213-225 | up to the first append nothing has changed, up to the second only the user ids, at the end both |
| SubidRuns.ProvisioningKeepsDisjoint | src/core/setup/l2_host_prereqs.py:374-387 | one provisioning, however far it got, keeps different users' ranges disjoint |
| SubidRuns.NeverOverlapping | src/core/setup/l2_host_prereqs.py:229-289 | from files in which users are apart, no sequence of provisionings by either path, stopped anywhere, ever makes anyone's status overlapping |
| SubidRuns.OverlapIsReported | src/core/setup/l2_host_prereqs.py:278-286 | when users do meet, the status says so, unless the user has too few ids |
| SubidRuns.ActMakesAdequate | src/core/setup/l2_host_prereqs.py:374-387 | a user that was absent is adequate after the phase has run to its end |
| Journal.EncodeJournalFields | src/core/journal_audit.py:50-74 | the encoding of the fields in the order given |
| Journal.GoEncodeJournalFields | src/templates/dispatch/main.go:947-969 | the same encoding, with the length bytes shifted out one by one |
| Journal.GoLength | src/templates/dispatch/main.go:953-957 | shifting by eight bits per byte gives the little-endian length |
| Journal.JournalRoundTrip | src/core/journal_audit.py:50-74 | a decoder of the export format recovers every list of fields whose keys are non-empty and free of '=' and newline and whose values are shorter than 2^64 bytes |
| Journal.AnyOrderDecodesToTheMap | src/templates/dispatch/main.go:947-950 | whatever order a map gives its fields in, the decoded fields are the same |
| Locks.BackupLock.IsBackupLockHeld | src/core/locks.py:80-109 | held iff the file exists, its record is fresh and somebody has the lock; nothing changes |
| Locks.BackupLock.AcquireBackupLock | src/core/locks.py:113-146 | taken iff nobody has the lock, with a record of the time; otherwise the holder keeps it, and the record is wiped iff it looked stale |
| Locks.BackupLock.ReleaseBackupLock | src/core/locks.py:147-153 | wipes the record and gives the lock back |
| LockProtocol.AlwaysMatches | src/core/locks.py:113-153 | in every reachable state the processes between taking and giving back a lock are exactly its holder |
| LockProtocol.BackupLockExcludes | src/core/locks.py:113-153 | at most one process is ever inside an instance's backup lock, through stale takeovers and crashes |
| LockProtocol.PipelineExcludesTeardown | src/cli/main.py:3682-3752 | the pipeline of start or stop never overlaps the D5-D10 steps of destroy (that a destroy does reach them is `LockSteps.DestroyTearsDown`) |
| LockWindow.GateStaysShut | src/cli/main.py:3263-3280 | among start, stop, destroy and probes, whoever passes the gate while a destroy holds its lock and has not yet wiped its record does so when that record is stale |
| LockWindow.ShutForFiftyNineSeconds | src/core/locks.py:63-77 | in figures: not within 59 seconds of the time that the record holds |
| Locks.StaleExactly | src/core/locks.py:63-77 | exactly: a record is stale from the first microsecond after the sixtieth second behind the full second that it holds |
| LockWindow.GateOpensOnceStale | src/cli/main.py:3627-3678 | for every later clock reading at which the record is stale, a run in which a start passes the gate against the live destroy |
| LockWindow.PassableIffStale | src/cli/main.py:3263-3280 | both halves, until the record is wiped: somebody can pass at a clock reading against a lock whose record, made at a given time, still stands iff that record is stale at that reading |
| LockWindow.PassableIff | src/core/locks.py:113-153 | the whole answer: at each point where a destroy holds the backup lock, somebody can pass the gate at a given clock reading iff the destroy has wiped its record on the way out, or is without the state lock and its record is stale |
| LockWindow.GateOpensAtTheExit | src/core/locks.py:147-153 | a run in which a start passes the gate, at the very time a destroy recorded, between its wiping the record and its unlocking |
| LockWindow.GateOpensAfterAMinute | src/cli/main.py:3627-3678 | in figures: a run in which a start passes the gate 61 seconds after a live destroy recorded its time |
| LockWindow.RemoveBackupIsNotKeptApart | src/core/locks.py:134-146 | a run in which a start passes the gate at the very time a backup without the state lock records itself |
| LockWindow.GateAlone | src/core/locks.py:80-109 | the uninterrupted steps of the gate do what the one-call contract of the check says |
| LockSteps.EnterUnderStateLock | src/cli/main.py:3263-3280 | start, stop and destroy go on to the gate holding the state lock if it was free, and leave everything alone if not |
| LockSteps.EnterWithoutStateLock | src/core/locks.py:80-109 | a probe goes to the gate, and a workspace backup straight to the backup lock, without the state lock |
| LockSteps.GateOfRole | src/core/locks.py:80-109 | for every role and from every reachable state, the uninterrupted gate refuses iff the lock file is present with a fresh record and somebody has the lock; else start and stop go to their pipeline, destroy to the backup lock, a probe away; file, record and locks are as before |
| LockSteps.AcquireAlone | src/core/locks.py:113-146 | the uninterrupted steps of acquiring do what the one-call contract says: taken iff free, with the time recorded; otherwise the process goes, its state lock with it, and the record is wiped iff it was stale |
| LockSteps.StaleLockIsTakenOver | src/core/locks.py:128-146 | a run of the takeover: the record is found stale and wiped, the holder dies, the second attempt takes the lock and records its own time |
| LockSteps.StateLockIsReturned | src/cli/main.py:3627-3678 | once its record is written a destroy gives the gate's state lock back and goes on to its long phases |
| LockSteps.TeardownNeedsStateLock | src/cli/main.py:3682-3752 | after its long phases a destroy tears down holding the state lock if it is free, and otherwise goes to the exit without a teardown |
| LockSteps.LeavesCleanly | src/cli/main.py:3682-3752 | after the teardown both locks are given back, the state lock first, and the record is wiped |
| LockSteps.DestroyTearsDown | src/cli/main.py:3682-3752 | a run from a clean host in which a destroy comes to its teardown, with both locks |
| LockSteps.DestroyGivesWay | src/cli/main.py:3682-3752 | a run in which a destroy finds a start in the state lock and leaves without a teardown |
| LockSteps.EndsHere | src/cli/main.py:3263-3280 | a refused process, and one at the end of its pipeline, goes and takes nothing but its own state lock with it |

## Left out

- Side effects: subprocesses, docker, sudo, ACLs, sockets, `syscall.Exec` and the symlink pass. They are events or arbitrary callback results; the contents of the instance registry and of configuration files are parameters.
- Texts of error messages, and `repr` quoting inside details (a blocker's id is quoted with plain single quotes). Errors are modelled as which error it is, with the values it names.
- Unicode: digits and letters of the regular expressions are the ASCII ones, lower-casing is ASCII, and text is a sequence of characters; the white space that `\s` and `strip` know is modelled in full.
- Python's `$` before a final newline in the name grammars: they are modelled as full matches.
- Torn or corrupt files: a load or a save of the ledger, and a read or a write of the lock record, is one step.
- `splitlines` on the subordinate-id files: the readers are given the lines.
- Names, identities and bodies of the concrete phases and checks; two setups that race between reading the files and appending to them (the runs modelled are sequences).
- Nonces: any non-empty lower-case hex text in the frame, sixteen digits in the health check; their generation is not modelled.
- The script text of the health-check bundle and of the sentinel wrapper: what the shell prints for them is modelled, not its evaluation of them.
- The `helper-mkdir-chown-dirs` operation and the operations without arguments: the same construction as `helper-chown-files`, without the octal mode.
- `truncate256` in the audit, tallies of the apply pass, summary lines and rendering.
- An unsized integer is used for ids, sizes and clock readings; the one place where a width matters, the eight length bytes of the journal, is modelled by bytes. The lock clock never runs backwards.
- ApplyPass.OrderDoesNotMatter: details may depend on the callbacks' replies only, so the replies are assumed not to depend on the host; without that the order can matter.
- LockWindow.GateStaysShut: time counts from the moment the timestamp is read, not from the later moment the record reaches the file.
- PlainWords.UnquotedIsReadIff: reserved words at the start of a command are not told from other words; a bracket expression that no file name can match (an empty range, a leading period) counts as a pattern, a sequence in braces as an expansion even if its integers overflow, and a sequence inside outer braces that hold two dots but are none as an expansion although the shell leaves the whole as it is; a `~` behind a colon or `=` in a word that begins with a name and `[` counts as expanded, also where no element of an array is assigned; every unquoted `$` counts as starting an expansion, also where nothing follows that it could expand.
- PyInts.PyInt: Python's limit of 4300 digits, beyond which `int` raises and the parser reports an unparseable code, is not modelled.
- Framing.Executor.RecoverInnerExit: the same limit, beyond which reading the exit code raises, is not modelled.
- Journal.JournalRoundTrip: one entry; the empty line that separates entries is never written by the encoders and is treated as malformed by the decoder.
- Subid.Host.Act: only the subordinate-id steps of the phase; the group and membership steps are left to the host.
