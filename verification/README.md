# A verified model of the Exasol Personal launcher

Exasol Personal is a launcher: it deploys, starts, configures and destroys a database, locally in
a container or elsewhere, and offers a SQL shell to it. This project models the parts of the
launcher whose correctness spans several functions or whole runs, in Dafny, and proves what they
are for.

- **SQL shell** (`SqlLexer`, `SqlSegments`, `SqlTokens`, `SqlHeads`, `SqlSplit`, `SqlStreaming`, `SqlShell`,
  `SqlShortComment`). The semicolon scanner refines a lexical automaton, splitting covers its
  input, submitting line by line is compared with the batch, and printed statements split back
  into themselves.
- **Directory lock** (`DirectoryMutex`, `LockProtocol`). The marker-file reader/writer lock, as a
  protocol of any number of processes at two granularities.
- **Nano start** (`NanoWorld`, `NanoEffects`, `NanoStart`). Migration, recovery and the first
  password, where every operation may succeed, fail, or be the last before the launcher dies, and
  the database may work between any two of them. A method's promise about its final state, for
  every result, is therefore a promise about every prefix of every run.
- **Lifecycle** (`Lifecycle`). The recorded workflow state beside the runtime that is really up
  or down, over runs of commands that may be killed at each of their steps.
- **Script language containers** (`ScriptLanguages`, `CustomSlc`, `SlcAliases`). The
  `SCRIPT_LANGUAGES` text, activation and its undoing, and which container provides which alias.
- **Host ports** (`LocalPortText`, `LocalPorts`). The text of the port mappings and the cyclic
  search for free ports.
- **Sidecars** (`Sidecars`). The pass that makes the containers of an engine what is desired.

`Text` holds the string operations of Go's standard library that these rely on.
`dafny verify dfyconfig.toml` checks the whole project.

Where the source works by changing things step by step, the model has a method or a class with
loops, proved against a function on values; the laws are then lemmas about these functions, or
promises of the class over any run. Map iteration, directory listings and container listings come
in any order. Foreign calls are answers or nondeterministic choices.

Five laws do not hold of every input, and for each the model says exactly when they do.

- Streaming equals the batch exactly when every statement cut at a `;` keeps an ordinary head with
  the remaining lines below it. That is so for every text without `/*/`, which the two lexers of
  the shell close differently; `ShortCommentBreaksStreaming` is an input on which it fails.
- The lock's marker counts its owners exactly as long as nobody who saw no marker creates one
  beside another, and until then an exclusive holder is alone; `SharedMeetsExclusive` is a run in
  which that happens.
- Removing the Nano container, which a stop and the clean-up of a failed start do, loses no
  database exactly when the one in its overlay, if any, is held elsewhere; `CleanUpCanLose` is a
  state in which one is lost.
- Recorded Stopped means that the runtime is down, except after a start whose own record could not
  be written and after a failure that the probe gives no answer about (`HazardsHappen`).
- Removing an activated alias restores the original entries exactly when the alias was free or on a
  builtin with a URI to remember.

## Model

| member | source | states |
|---|---|---|
| `SqlLexer.FindSemicolonTerminator` | internal/connect/shell.go:140-170 | the flag-and-skip scanner returns the first `;` that a one-character-at-a-time automaton reads as code, and reports none exactly when there is none |
| `SqlLexer.QuoteCommentState.ConsumeLineComment` | internal/connect/shell.go:172-178 | inside line comment, one call and its skip land on a position where the flags (at most one set) again stand for the automaton's state, and skip no code |
| `SqlLexer.QuoteCommentState.ConsumeBlockComment` | internal/connect/shell.go:180-188 | inside block comment, one call and its skip land on a position where the flags (at most one set) again stand for the automaton's state, and skip no code |
| `SqlLexer.QuoteCommentState.ConsumeSingleQuote` | internal/connect/shell.go:190-199 | inside single quotes, one call and its skip land on a position where the flags (at most one set) again stand for the automaton's state, and skip no code |
| `SqlLexer.QuoteCommentState.ConsumeDoubleQuote` | internal/connect/shell.go:201-210 | inside double quotes, one call and its skip land on a position where the flags (at most one set) again stand for the automaton's state, and skip no code |
| `SqlLexer.QuoteCommentState.ConsumeDefault` | internal/connect/shell.go:212-236 | in code, a terminator is reported exactly at a code-level `;`; otherwise the flags again stand for the automaton's state, at most one of them set |
| `SqlSegments.PlainSemicolonsCount` | internal/connect/shell.go:140-236 | of a text put together from plain characters, quoted texts (quotes written twice inside) and comments, exactly the plain `;` count, and the terminator is the first of them |
| `SqlLexer.FirstSemicolonExtends` | internal/connect/shell.go:147-170 | a terminator once found does not move when more text is appended |
| `SqlTokens.SkipSpaceAndCommentsLoop` | internal/connect/shell.go:299-322 | the loop computes the recursive skip over blanks and comments used in the laws below |
| `SqlTokens.SkipQuoted` | internal/connect/shell.go:281-297 | the loop ends behind the first closing quote that is not doubled |
| `SqlTokens.NextToken` | internal/connect/shell.go:258-279 | the loop returns the token and end position of the recursive tokenizer |
| `SqlTokens.LooksLikeScriptDDL` | internal/connect/shell.go:241-256 | the loop decides the recursive script-head test |
| `SqlHeads.ScriptHeads` | internal/connect/shell.go:238-322 | a text of words with blanks and comments between them, up to a parenthesis, a `;` or the end, has the head of a script exactly when its first word is CREATE and a later one SCRIPT or FUNCTION with no AS before it, in any letter case |
| `SqlTokens.TokenStaysSynced` | internal/connect/shell.go:258-322 | without the text `/*/`, reading tokens never runs past a `;` that the scanner reads as code, and stops where the scanner's automaton is in code |
| `SqlTokens.LooksLikeScriptContinues` | internal/connect/shell.go:241-256 | further lines never turn a recognised script head into an ordinary statement |
| `SqlTokens.OrdinaryContinues` | internal/connect/shell.go:241-256 | a head that ended at a code-level `;` is judged the same whatever lines follow |
| `SqlSplit.FindScriptTerminator` | internal/connect/shell.go:329-356 | the line loop finds the first lone-`/` line, always moves forward, and reports none exactly when there is none |
| `SqlSplit.FindStatementTerminator` | internal/connect/shell.go:130-136 | the terminator found is that of the rule the statement's head selects, and lies strictly ahead |
| `SqlSplit.SplitStatements` | internal/connect/shell.go:112-128 | the loop ends and computes the recursive split |
| `SqlSplit.NonInteractiveStatements` | internal/connect/shell.go:404-411 | the statements of the split followed by the non-blank remainder |
| `SqlSplit.SplitCovers` | internal/connect/shell.go:112-136 | pieces, terminators and remainder concatenate to exactly the input; the statements are the non-blank pieces trimmed, in order; each piece ends at the first terminator of the kind that its head, read with all that follows, asks for; the remainder has none |
| `SqlSplit.KeptIsTheCore` | internal/connect/shell.go:112-128 | of a piece nothing is kept exactly if it is blank, and otherwise its visible core |
| `SqlSplit.SplitContinues` | internal/connect/shell.go:96-128 | if every piece cut at a `;` keeps an ordinary head with the new lines below it, splitting the continued text gives the statements of the text followed by those of its remainder continued the same way |
| `SqlSplit.SplitAfterNewline` | internal/connect/shell.go:112-128 | a blank line in front changes no statement |
| `SqlShell.Shell.ProcessInputSemicolonMode` | internal/connect/shell.go:96-108 | the statements of the pending text with the line appended are executed in order and the rest stays pending |
| `SqlShell.Shell.HandleEOF` | internal/connect/shell.go:55-62 | what is still pending is executed once, trimmed, unless it is blank |
| `SqlShell.Shell.Run` | internal/connect/shell.go:64-94 | in semicolon mode the inputs executed are the batch statements of the lines taken (without the remainder after a read failure) exactly when every cut stays; in line mode they are the lines, trimmed; an exit command ends it exactly when nothing visible is pending |
| `SqlStreaming.StreamingEqualsBatch` | internal/connect/shell.go:55-128 | streaming line by line and at the end of input equals the batch of the joined lines exactly when every statement cut at a `;` still has an ordinary head with the remaining lines below it; the same without the last step |
| `SqlStreaming.FedAgreesWithSplit` | internal/connect/shell.go:96-128 | then after every line the shell has executed exactly the statements of the text so far and keeps its remainder |
| `SqlStreaming.LostCutShows` | internal/connect/shell.go:96-136 | a cut that does not stay makes the batch differ, whatever the shell executes later |
| `SqlStreaming.NoShortCommentIsEnough` | internal/connect/shell.go:241-322 | every text without `/*/` streams as the batch |
| `SqlShortComment.ShortCommentBreaksStreaming` | internal/connect/shell.go:299-322 | two lines containing `/*/` on which streaming and batch differ |
| `SqlShell.SplitOfPrint` | internal/connect/shell.go:112-136 | printing well-formed statements and splitting gives the same list, with nothing but newlines left over |
| `SqlShell.PrintRoundTrip` | internal/connect/shell.go:404-411 | the same through the batch entry point |
| `DirectoryMutex.ParseOfSharedMarkerName` | internal/directorymutex/directorymutex.go:371-409 | reading a shared marker's name gives its count back, for exactly the counts 1 to the largest machine integer |
| `DirectoryMutex.FindMarker` | internal/directorymutex/directorymutex.go:340-369 | the loop reports one readable marker, none, or invalid exactly as the set of marker files says, whatever the listing order |
| `DirectoryMutex.Mutex.TryAcquire` | internal/directorymutex/directorymutex.go:217-231 | files and outcome after one attempt, on what the scan saw |
| `DirectoryMutex.Mutex.TryAcquireExclusive` | internal/directorymutex/directorymutex.go:233-239 | files and outcome of the exclusive branch, also on a scan that is out of date |
| `DirectoryMutex.Mutex.TryAcquireShared` | internal/directorymutex/directorymutex.go:241-263 | files and outcome of the shared branch, also on a scan that is out of date |
| `DirectoryMutex.Mutex.TryRelease` | internal/directorymutex/directorymutex.go:265-312 | files and outcome of one release attempt |
| `DirectoryMutex.Mutex.CreateMarker` | internal/directorymutex/directorymutex.go:326-338 | create-exclusive: would block exactly when the file exists |
| `DirectoryMutex.Mutex.RemoveMarkerFile` | internal/directorymutex/directorymutex.go:314-324 | remove: would block exactly when the file is gone |
| `DirectoryMutex.AcquireOutcome` | internal/directorymutex/directorymutex.go:217-263 | what an undisturbed acquire does, by the marker files alone: the first marker, the next shared one, blocked, or an error that changes nothing |
| `DirectoryMutex.ReleaseOutcome` | internal/directorymutex/directorymutex.go:265-312 | what an undisturbed release does, by the marker files alone: nothing to release is no error, a marker of the other kind is one and stays |
| `LockProtocol.RunKeepsExclusiveInv` | internal/directorymutex/directorymutex.go:217-338 | with scan and file action as separate steps of any number of processes, every run keeps: the exclusive marker is there exactly when one process owns the exclusive lock |
| `LockProtocol.ExclusiveExcludesExclusive` | internal/directorymutex/directorymutex.go:217-239 | at most one process holds the exclusive lock at any time of any run |
| `LockProtocol.OnlyTheOwnerRemovesTheMarker` | internal/directorymutex/directorymutex.go:265-324 | a step that makes the exclusive marker disappear is one of its only owner |
| `LockProtocol.SharedMeetsExclusive` | internal/directorymutex/directorymutex.go:233-263 | a run in which a shared and an exclusive holder meet, when others may act between a scan and its file action |
| `LockProtocol.StepKeepsFineInv` | internal/directorymutex/directorymutex.go:217-338 | with scan and file action as separate steps, a step keeps the count of owners (no marker and no owner, or the exclusive marker and one exclusive owner, or `shared.n` and exactly n shared owners) exactly when it does not create a marker, on a scan that saw none, beside another one |
| `LockProtocol.RunIsCountedIffClean` | internal/directorymutex/directorymutex.go:217-338 | the count holds at every point of a run exactly when the run has no such step |
| `LockProtocol.ExclusiveExcludesEveryone` | internal/directorymutex/directorymutex.go:217-312 | in a run without such a step an exclusive holder is the only holder |
| `LockProtocol.AttemptIsDecided` | internal/directorymutex/directorymutex.go:217-312 | at its end a scan and the file action right after it acquire exactly when no owner excludes it and otherwise block; they always release |
| `LockProtocol.WholeAttemptsAreClean` | internal/directorymutex/directorymutex.go:217-312 | runs in which nobody acts between a scan and its file action have no such step |
| `LockProtocol.RunKeepsCountInv` | internal/directorymutex/directorymutex.go:217-312 | so these runs keep the count without a condition |
| `LockProtocol.WholeAttemptsExclude` | internal/directorymutex/directorymutex.go:217-312 | and in them an exclusive holder is the only holder |
| `NanoStart.NanoInstall.Start` | internal/localinstall/podman_install.go:131-274 | whatever fails and wherever the launcher dies, every database present at the beginning is still whole somewhere, and the stored password stays that of the data directory's database; a start that succeeds has a database of an overlay on disk and its container replaced, and from a state in which nothing runs has set an unfinished directory aside whole under a new name, kept the database of any other, and handed over a first password exactly where the directory it started on held no database; when nothing fails it succeeds exactly unless a container is to be migrated beside a directory with content |
| `NanoStart.NanoInstall.FindContainer` | internal/localinstall/podman_install.go:131-172 | no bootstrap file is left and a container of an earlier name is adopted; nothing else changes but by the database itself |
| `NanoStart.NanoInstall.StartStopped` | internal/localinstall/podman_install.go:148-274 | the part from the data directory to the container: nothing lost; on success a container uses the data directory, and it was handed a bootstrap password exactly if the directory held no configuration and a password source was given; after a failure the password file is gone unless its removal was tried |
| `NanoStart.NanoInstall.AdoptLegacyContainerName` | internal/localinstall/podman_install.go:525-567 | the first listed container of an earlier version gets the present name if no container has it; nothing else changes and nothing is lost |
| `NanoStart.NanoInstall.MigrateOverlayDataIfNeeded` | internal/localinstall/podman_migration.go:14-124 | nothing is lost at any point; a migrated database is whole in the data directory and only then is the container gone; without migration nothing changed but by the database itself |
| `NanoStart.NanoInstall.InstallOverlayDataAtomically` | internal/localinstall/podman_migration.go:176-207 | the staged tree becomes the data directory or nothing is lost; a directory with content is never replaced |
| `NanoStart.NanoInstall.RecoverIncompleteInitialCreate` | internal/localinstall/podman_recovery.go:28-72 | a data directory with the unfinished marker is moved, whole, to a name that was free; earlier quarantine directories keep their content; without the marker nothing happens |
| `NanoStart.NanoInstall.NextQuarantinePath` | internal/localinstall/podman_recovery.go:96-113 | the search ends on every finite filesystem and returns the first candidate that does not exist |
| `Text.CandidatesAreDistinct` | internal/localinstall/podman_recovery.go:96-113 | the quarantine candidates are pairwise different |
| `NanoStart.NanoInstall.RemoveStaleNanoTLSFiles` | internal/localinstall/podman_recovery.go:115-127 | the two certificate files are removed and no other file is, at every point of it |
| `NanoStart.NanoInstall.PrepareDataDir` | internal/localinstall/podman_install.go:482-502 | reports a fresh directory exactly when there was no configuration; then no password is in use and no old certificate is left; a database in it stays |
| `NanoStart.NanoInstall.WriteBootstrapPassword` | internal/localinstall/podman_install.go:504-523 | the password handed to the first container is the one stored and marked generated |
| `NanoStart.NanoInstall.ResolveLocalInitialPassword` | internal/deploy/local_credentials.go:106-132 | the password returned is stored and marked generated; a generated one that can be read is reused unchanged, any other is replaced by a newly generated one, marked as still to be verified; nothing else changes |
| `NanoStart.NanoInstall.EnsureLocalSecrets` | internal/deploy/local_runtime.go:471-500 | the only change ever made is to the default password, and never where a password was generated, even if it cannot be read |
| `NanoStart.NanoInstall.Stop` | internal/localinstall/podman_install.go:419-429 | stopping removes the container and keeps the stored password right; a database on disk always stays; nothing is lost exactly when a database in the container's overlay is held elsewhere |
| `NanoStart.NanoInstall.StartPreparedLocalRuntime` | internal/deploy/local_runtime.go:31-86 | with its clean-up after a failed start: at every point the stored password is right and no database on disk is lost; none at all is lost if at the beginning no overlay held one or no verification was pending; after success no bootstrap file is left and a generated password is verified, unless the wait is skipped; when nothing fails it succeeds with usable credentials, and a start that is blocked ends with the container stopped exactly if a verification was pending |
| `NanoStart.NanoInstall.Lifetime` | internal/deploy/local_runtime.go:31-264 | over any number of starts, stops, failures, crashes and retries the stored, marked password is that of the data directory's database; no database on disk is ever lost, nor any other if at the beginning no overlay held one |
| `NanoWorld.RemovalPreservesExactly` | internal/localinstall/podman_install.go:419-429 | a forced removal of the container loses nothing exactly when the database in its overlay, if any, is held elsewhere |
| `NanoWorld.CleanUpCanLose` | internal/deploy/local_runtime.go:73-81 | a well-formed state with a pending verification in which the clean-up destroys the only copy of a database |
| `NanoWorld.DatabaseDoesRan` | internal/localinstall/podman_install.go:356-417 | what a database does on its own in a running container keeps its data and the agreement of the passwords |
| `Lifecycle.RecordRoundTrip` | internal/config/exasol_launcher_state.go:161-223 | reading the union undoes writing it, and the records with exactly one field set are exactly those that are written |
| `Lifecycle.Deployment.SetWorkflowStateAndWrite` | internal/config/exasol_launcher_state.go:182-197 | memory and, if written, disk hold the new state with one field set |
| `Lifecycle.Deployment.ReconcileLocalVMState` | internal/deploy/local_runtime.go:206-236 | a recorded Running becomes Stopped exactly when the probe says down and the state can be written |
| `Lifecycle.Deployment.StartLocked` | internal/deploy/deploymentControl.go:334-404 | the states passed through are those of the start's trace; one field set throughout |
| `Lifecycle.Deployment.RunStartBackend` | internal/deploy/deploymentControl.go:413-480 | the states passed through around the backend call of a start |
| `Lifecycle.Deployment.StopLocked` | internal/deploy/deploymentControl.go:554-584 | the states passed through are those of the stop's trace |
| `Lifecycle.Deployment.RunStopBackend` | internal/deploy/deploymentControl.go:593-655 | the states passed through around the backend call of a stop |
| `Lifecycle.Deployment.RecordLifecycleFailure` | internal/deploy/deploymentControl.go:196-312 | the states a failed start or stop leaves behind, by cause and by what the probe says |
| `Lifecycle.Deployment.DeployLocked` | internal/deploy/deploy.go:140-198 | the states passed through are those of the deploy's trace |
| `Lifecycle.Deployment.RunDeployBackend` | internal/deploy/deploy.go:207-336 | the states passed through around the backend call of a deploy, with its failure records |
| `Lifecycle.Deployment.DestroyLocked` | internal/deploy/destroy.go:29-45 | the states passed through are those of the destroy's trace |
| `Lifecycle.Deployment.RunDestroyBackend` | internal/deploy/destroy.go:54-125 | the states passed through around the backend call of a destroy |
| `Lifecycle.PermittedCommands` | internal/deploy/deploymentControl.go:482-538 | state by state, the commands that are permitted |
| `Lifecycle.RefusedChangesNothing` | internal/deploy/deploymentControl.go:334-404 | a command that is not permitted or whose prerequisites fail changes nothing |
| `Lifecycle.RunningIsEarned` | internal/deploy/deploy.go:207-336 | Running is recorded anew only by a start or deploy whose backend succeeded uninterrupted, a deploy only after all its steps, and with truthful answers the runtime is then up |
| `Lifecycle.AfterDeploy` | internal/deploy/deploy.go:207-298 | what a deploy leaves on disk, by how its calls turned out: interrupted, initialised again, failed or running, or the record before if it could not be written |
| `Lifecycle.AfterStart` | internal/deploy/deploymentControl.go:413-480 | what a start leaves on disk, by how its calls turned out |
| `Lifecycle.AfterStop` | internal/deploy/deploymentControl.go:593-655 | what a stop leaves on disk, by how its calls turned out |
| `Lifecycle.RunningIsChecked` | internal/deploy/local_runtime.go:206-236 | a local start or stop that finds Running recorded gives up, goes on from Stopped or goes on from Running, by the answer of the probe |
| `Lifecycle.AfterDestroy` | internal/deploy/destroy.go:54-125 | what a destroy leaves on disk, by how its calls turned out |
| `Lifecycle.CommandKeepsStoppedDown` | internal/deploy/deploymentControl.go:196-312 | a command of a local deployment keeps "recorded Stopped means the runtime is down" at every point exactly when it meets neither of two hazards, given truthful answers |
| `Lifecycle.HazardsHappen` | internal/deploy/deploymentControl.go:232-312 | each hazard occurs with truthful answers: a start from Stopped whose record could not be written, and a failed start or stop after which the probe gives no answer |
| `Lifecycle.ConfigureOnlyWhenDown` | internal/deploy/configure.go:52-75 | along every run without these hazards, kill points included, configuration is permitted only before deployment or with the runtime down |
| `Lifecycle.NoDeadEnd` | internal/deploy/deploymentControl.go:26-97 | from every recorded state at most two permitted, succeeding commands reach Running, and a destroy is among them exactly after a killed destroy |
| `Lifecycle.KilledDestroyMustBeRepeated` | internal/deploy/deploy.go:89-124 | after a killed destroy exactly one command is permitted, another destroy |
| `ScriptLanguages.ParseScriptLanguages` | internal/customslc/customslc.go:55-67 | the loop reads the entries field by field, dropping fields without `=` |
| `ScriptLanguages.SerializeScriptLanguages` | internal/customslc/customslc.go:69-76 | the loop writes the entries that reading is the inverse of |
| `ScriptLanguages.ParseOfSerialize` | internal/customslc/customslc.go:55-76 | writing and reading gives the entries back exactly when all are canonical: visible, no `=` in the alias, alias normalised |
| `ScriptLanguages.ParseIsCanonical` | internal/customslc/customslc.go:55-76 | whatever text the database reports, what is read from it survives being written back |
| `ScriptLanguages.ParseReads` | internal/customslc/customslc.go:55-67 | any text of words and white space gives an entry for every word with an equals sign, in order, the alias in upper case and the URI as it stands, and skips the others |
| `ScriptLanguages.SetAlias` | internal/customslc/customslc.go:79-97 | every entry of the alias is redirected in place, or one is appended if there was none |
| `ScriptLanguages.RemoveAlias` | internal/customslc/customslc.go:99-110 | every entry of the alias and no other is removed |
| `ScriptLanguages.FindAlias` | internal/customslc/customslc.go:112-121 | an entry of the normalised alias is found exactly when there is one |
| `ScriptLanguages.ActivationURIHasScheme` | internal/customslc/customslc.go:47-52 | an activation URI is never taken for a builtin and survives the text |
| `ScriptLanguages.DirOfActivation` | internal/customslc/customslc.go:127-145 | the directory that an activation URI was built from is read back from it |
| `ScriptLanguages.ActivationURIInjective` | internal/customslc/customslc.go:47-52 | activation URIs tell directories and languages apart |
| `CustomSlc.ActivationURIsDiffer` | internal/deploy/custom_slc.go:942-948 | a container's URI leads to its own directory, and two containers have the same URI exactly with the same alias and language |
| `CustomSlc.ActivationUndoneByRemoval` | internal/deploy/custom_slc.go:739-803 | activating any batch of distinct aliases and removing it in any order, through the text each time, restores the original entries exactly when every alias was free or on a non-empty builtin |
| `CustomSlc.ActivationIsConfirmed` | internal/deploy/custom_slc.go:772-803 | read back from the text, every alias of an activated batch resolves to its container |
| `CustomSlc.DeactivationIsConfirmed` | internal/deploy/custom_slc.go:1004-1053 | read back from the text, a deactivated alias resolves to the remembered builtin or to nothing |
| `CustomSlc.RemovalKeepsOthers` | internal/deploy/custom_slc.go:1004-1053 | removals, in any number and order, never change what another alias resolves to |
| `CustomSlc.ActivationKeepsOthers` | internal/deploy/custom_slc.go:739-769 | activating a batch never changes what another alias resolves to |
| `CustomSlc.ActivateAllInView` | internal/deploy/custom_slc.go:739-769 | after activation the entries are the original ones redirected in place, followed by the new aliases in order; what is remembered depends on the original entries alone |
| `CustomSlc.Activations.SetScriptLanguages` | internal/deploy/custom_slc.go:1086-1101 | a value with a quote is never sent; the parameter changes only if the database applies it |
| `CustomSlc.Activations.ActivatePendingCustomSLCs` | internal/deploy/custom_slc.go:698-803 | containers are recorded as activated only if the database confirms every alias; then entries and records are those of the batch activation; a database that applies what it is sent always confirms |
| `CustomSlc.Activations.DeactivateCustomSLC` | internal/deploy/custom_slc.go:1004-1053 | success is reported only if the database confirms the restored or removed alias, and always if it applies what it is sent |
| `SlcAliases.RunKeepsDisjoint` | internal/deploy/custom_slc.go:188-516 | over every run of custom and official installs, updates, removals and activations, succeeding or not, each on a state file read possibly before others wrote it: no name of a custom container is provided by any other, and custom aliases stay unique and sorted |
| `SlcAliases.OperationKeepsDisjoint` | internal/deploy/slc.go:181-474 | each single operation keeps this |
| `SlcAliases.StageCustomDoes` | internal/deploy/custom_slc.go:188-450 | installing or updating changes nothing if the container to update is missing, is there active and the same, or shares a name with another container; otherwise it is recorded once under its alias, inactive, and every other container stays |
| `SlcAliases.RemoveCustomDoes` | internal/deploy/custom_slc.go:634-676 | removing takes the container under the alias and no other, in the same order |
| `SlcAliases.InstallOfficialDoes` | internal/deploy/slc.go:181-219 | installing changes nothing if a custom container has an alias, the image is there or the catalog refuses; otherwise it replaces those of its flavor and no other |
| `SlcAliases.UpdateOfficialDoes` | internal/deploy/slc.go:368-426 | updating replaces the first container of the language and those of the new flavor, and no other |
| `SlcAliases.RemoveOfficialDoes` | internal/deploy/slc.go:296-310 | removing takes exactly the first container that answers to the name |
| `Text.LessIsLexicographic` | internal/deploy/custom_slc.go:1397-1399 | the order of aliases is that of the first character in which they differ, the shorter first |
| `SlcAliases.UpsertMembers` | internal/deploy/custom_slc.go:1385-1402 | recording a custom container leaves it once under its alias, in order, and every other untouched |
| `SlcAliases.UpsertOfficialMembers` | internal/deploy/slc.go:654-671 | recording an official container replaces those of its flavor and no other |
| `SlcAliases.FindSLCAliasConflict` | internal/deploy/custom_slc.go:57-74 | a conflict is found exactly when a normalised candidate alias is some provider's, and is one of both |
| `SlcAliases.CustomSLCProviders` | internal/deploy/custom_slc.go:482-505 | the loop collects every custom container's own and package aliases but for the excluded one |
| `SlcAliases.FindInstalledCustomSLC` | internal/deploy/custom_slc.go:1374-1383 | the first container under the normalised alias |
| `SlcAliases.UpsertInstalledCustomSLC` | internal/deploy/custom_slc.go:1385-1402 | the loop and sort compute the upsert |
| `SlcAliases.UpsertInstalledSLC` | internal/deploy/slc.go:654-671 | the loop and sort compute the upsert of official containers |
| `SlcAliases.FindInstalledSLC` | internal/deploy/slc.go:711-725 | the first official container answering to the alias by language, flavor or alias |
| `SlcAliases.Installation.StageCustomSLC` | internal/deploy/custom_slc.go:188-450 | the state after an install or update, conflict and no-op cases included; disjointness is kept |
| `SlcAliases.Installation.RemoveCustomSLCLocked` | internal/deploy/custom_slc.go:634-696 | the state after a removal; disjointness is kept |
| `SlcAliases.Installation.InstallSLC` | internal/deploy/slc.go:181-219 | the state after an official install; disjointness is kept |
| `SlcAliases.Installation.UpdateSLC` | internal/deploy/slc.go:368-426 | the state after an official update; disjointness is kept |
| `SlcAliases.Installation.RemoveSLC` | internal/deploy/slc.go:276-313 | the state after an official removal; disjointness is kept |
| `LocalPortText.ParseLocalPortMappings` | internal/deploy/local_ports.go:210-241 | the loop reads the mappings entry by entry; the first bad entry decides the failure |
| `LocalPortText.FormatLocalPortMappings` | internal/deploy/local_ports.go:243-279 | the loops write services first, then the text's order, then the rest sorted, whatever order the map is walked in |
| `LocalPortText.ParseIsWellFormed` | internal/deploy/local_ports.go:210-241 | whatever is read has clean names, each once, and ports in range |
| `LocalPortText.AutomaticReads` | internal/deploy/local_ports.go:210-214 | blank text, and auto in any letter case with any blanks around it, maps nothing |
| `LocalPortText.AutomaticIs` | internal/deploy/local_ports.go:210-214 | no other text is taken for one of these |
| `LocalPortText.ParseReads` | internal/deploy/local_ports.go:210-241 | a text of entries with any blanks around names and ports is read exactly when no name occurs twice and every port is in range, and then maps each name to its port and nothing else |
| `LocalPortText.EntryReads` | internal/deploy/local_ports.go:218-238 | one entry with any blanks: refused if its name is there already or its port out of range, otherwise added |
| `LocalPortText.NoMappingIsRefused` | internal/deploy/local_ports.go:218-229 | an entry without a colon, without a name or without a port is refused as no mapping |
| `LocalPortText.JunkPortIsRefused` | internal/deploy/local_ports.go:233-236 | a port with anything but digits behind its first character is refused |
| `LocalPortText.ParseOfFormat` | internal/deploy/local_ports.go:210-279 | reading the written mappings gives them back exactly when names are clean, ports in range and no service is listed twice; the order is then that of the text |
| `LocalPorts.Search` | internal/deploy/local_ports.go:145-176 | the port found is usable and first in cyclic order from the default; the search fails for want of a port only if none in range is usable |
| `LocalPorts.ResolutionIsCorrect` | internal/deploy/local_ports.go:53-117 | a successful resolve keeps every explicit port, gives every service a port, adds no other name, and makes all ports positive and pairwise different |
| `LocalPorts.EachGetsTheFirst` | internal/deploy/local_ports.go:86-108 | each automatic service gets the usable port that is first in cyclic order from its default, given the explicit ports and those of the services before it |
| `LocalPorts.AssignFailsAt` | internal/deploy/local_ports.go:100-103 | resolving fails for want of a port only at a service for which no port in range is usable |
| `LocalPorts.EnoughPortsSuffice` | internal/deploy/local_ports.go:86-108 | with loopback hosts, defaults in range and as many usable ports as services, every service gets a port |
| `LocalPorts.ResolutionSucceeds` | internal/deploy/local_ports.go:53-117 | a readable text with distinct explicit ports, no unknown service left open and ports enough is resolved; two services with one explicit port never are |
| `LocalPorts.WrittenInOrder` | internal/deploy/local_ports.go:243-279 | resolved mappings are written with the services as in the catalog, then the other names as in the text, then the rest alphabetically |
| `LocalPorts.AutomaticNeedsNormalization` | internal/deploy/local_backend.go:161-170 | blank text and auto always need normalisation, text that cannot be read never does |
| `LocalPorts.EntriesNeedNormalization` | internal/deploy/local_backend.go:161-177 | a text of entries needs normalisation exactly when it leaves out a service of the catalog or gives it port 0 |
| `LocalPorts.LoopbacksAre` | internal/deploy/local_ports.go:119-143 | the hosts to listen on are those of the loopback addresses and no other |
| `LocalPorts.ResolvedIsStable` | internal/deploy/local_backend.go:161-177 | resolved text needs no normalisation; resolving it again, whatever ports are in use by then, returns the same text with no service left to search for |
| `LocalPorts.LoopbacksDistinct` | internal/deploy/local_ports.go:119-143 | the loopback hosts to listen on are pairwise different |
| `LocalPorts.PortAllocator.LoopbackAddresses` | internal/deploy/local_ports.go:119-143 | one lookup; the loopback hosts, each once, or none |
| `LocalPorts.PortAllocator.TryPort` | internal/deploy/local_ports.go:178-208 | the port is opened on every host exactly when it is usable; otherwise nothing stays open |
| `LocalPorts.PortAllocator.SelectPort` | internal/deploy/local_ports.go:145-176 | the two loops compute the cyclic search and leave open the port found and nothing else |
| `LocalPorts.PortAllocator.CheckExplicitPorts` | internal/deploy/local_ports.go:63-77 | refused exactly when two services share an explicit port, whatever order the map is walked in |
| `LocalPorts.PortAllocator.CheckUnknown` | internal/deploy/local_ports.go:110-114 | an unknown service without a port is found exactly when there is one |
| `LocalPorts.PortAllocator.AllocateServices` | internal/deploy/local_ports.go:79-108 | the loop computes the assignment; listeners held for earlier services do not change it; nothing is looked up or probed when no service is automatic |
| `LocalPorts.PortAllocator.Resolve` | internal/deploy/local_ports.go:53-117 | the text or failure of the resolution; no listener of its own stays open however it ends; no lookup and no probe when no service is automatic |
| `LocalPorts.LocalBackend.LocalPortsNeedNormalization` | internal/deploy/local_backend.go:161-177 | needed exactly when the text is automatic, or is readable and leaves a service of the catalog without a port |
| `LocalPorts.LocalBackend.NormalizeAutomaticPorts` | internal/deploy/local_backend.go:904-922 | after success nothing is left to normalise, so the next call changes nothing and probes nothing; it fails exactly when the text cannot be resolved or the manifest not written, and then changes nothing |
| `Sidecars.SidecarRuntime.List` | internal/localinstall/sidecars.go:85-96 | the owner's sidecar containers, each once, in any order |
| `Sidecars.SidecarRuntime.Converge` | internal/localinstall/sidecars.go:171-191 | a matching container is reported only if it is the only one; otherwise none of the sidecar is left; a served sidecar is not touched |
| `Sidecars.SidecarRuntime.Ensure` | internal/localinstall/sidecars.go:98-141 | success leaves exactly one running container with the right fingerprint; only this sidecar's containers change; a served sidecar causes no removal and no creation, whatever fails; when nothing fails, a resolvable sidecar whose container name nobody else has is always served |
| `Sidecars.SidecarRuntime.Remove` | internal/localinstall/sidecars.go:154-169 | success leaves no container of the sidecar; nothing else changes |
| `Sidecars.SidecarRuntime.RemoveContainer` | internal/localinstall/sidecars.go:258-270 | exactly the container is removed, or on failure perhaps; one without an identifier is refused |
| `Sidecars.DeploymentSidecars.EnsureAll` | internal/deploy/sidecars.go:764-776 | every desired sidecar without a failure is served when the loop ends, not only when its turn was; without a service network all of them fail and nothing is touched |
| `Sidecars.DeploymentSidecars.OwnedNames` | internal/deploy/sidecars.go:916-925 | every name of a listed sidecar, each once, and no other |
| `Sidecars.DeploymentSidecars.RemoveUndesired` | internal/deploy/sidecars.go:868-888 | sidecars that are not desired are gone or have a failure; served ones stay served |
| `Sidecars.DeploymentSidecars.Publish` | internal/deploy/sidecars.go:890-914 | where ports are forwarded, every declared host port of every desired sidecar is opened and leads to the port that a running container has bound, or nowhere if none has |
| `Sidecars.DeploymentSidecars.ApplySidecars` | internal/deploy/sidecars.go:735-784 | without failures, one running, fingerprint-matching container for each desired sidecar and no other of this owner; a pass over what is already as desired asks the engine for no change, whatever fails; foreign containers are never touched; when nothing fails the pass converges; with ports bound as declared the status report is then complete for every desired sidecar |
| `Sidecars.BoundContainerPorts` | internal/deploy/sidecars.go:943-958 | for each port of each sidecar a port that a running container has bound, wherever there is one |
| `Sidecars.DeploymentSidecars.Reconcile` | internal/deploy/sidecars.go:1104-1145 | a deployment that never had sidecars, or whose document cannot be read, is left alone; after a pass that reached the host and was recorded, every desired sidecar is served or has a recorded failure; no recorded failure means converged, and none is recorded when nothing fails |
| `Sidecars.EndpointsMatch` | internal/deploy/sidecars.go:605-622 | true exactly when endpoints and declared host ports are equal as multisets, although addresses are counted as texts |
| `Sidecars.HostAddressInjective` | internal/deploy/sidecars.go:960-962 | the text of an address tells any two addresses apart, bracketed or not |
| `Sidecars.Describe` | internal/deploy/sidecars.go:557-566 | the endpoints reported are those of the last running container, or none if none runs |
| `Sidecars.ReportReconciliation` | internal/deploy/sidecars.go:576-603 | complete for a wanted sidecar exactly when observed once, running, matching and bound as declared; for any other exactly when nothing is left of it |
| `Sidecars.ConvergedIsObserved` | internal/deploy/sidecars.go:833-866 | after convergence each desired sidecar is observed exactly once, running and matching, whatever the listing order |
| `Sidecars.ConvergedIsComplete` | internal/deploy/sidecars.go:513-603 | after a converged pass with ports bound as declared, the report is complete for every desired sidecar in any listing order |
| `Sidecars.ForwardedAsDeclared` | internal/deploy/sidecars.go:890-936 | where ports are forwarded, the ports after a pass are bound as declared |

## Left out

- Commands, help, terminal output and log routing (`cmd/exasol`): user interface.
- The container engines, archives, YAML and JSON, downloads, SSH, OpenTofu and the database driver: foreign calls, modelled as success or failure with a small effect.
- Text outside ASCII: upper-casing, trimming and folding are those of ASCII.
- LockProtocol.RunIsCountedIffClean: no more processes than a machine integer counts.
- NanoStart.NanoInstall.Lifetime: says nothing of a database that a container kept in its overlay at the beginning; what becomes of it is stated for one start and for one stop.
- Waiting for the lock, its time limit and `ClearLock`: a time-out is a process that gives up without a file action.
- NanoStart.NanoInstall.Start: the checks of the start configuration, image loading, network set-up and the naming of the bind-failure cause are steps without modelled effect; containers under earlier names do not run by themselves.
- Files cut off in the middle of being written: a state write happens or fails.
- Data directories, secrets or `SCRIPT_LANGUAGES` edited by hand between the launcher's steps.
- Credentials after a destroy, and the removal of the data directory on purpose.
- Lifecycle.ConfigureOnlyWhenDown: assumes that probes which answer tell the truth, that a port conflict is found only with the runtime down, and that neither of the two hazards occurs; both are conditions on the answers, not on the states.
- CustomSlc.ActivationUndoneByRemoval: a batch that remembers no builtin yet; an update recorded between activation and removal carries the remembered URI over and is not part of the law.
- SlcAliases.RunKeepsDisjoint: commands may read a file that others have written since, but one file write is one step; official against official aliases rest on `slc.CheckInstallable`, which is an answer from outside here; the package aliases that an old record lacks are read from its archive in the source and are part of the record here.
- SlcAliases.UpsertInstalledCustomSLC: the library's sort is an insertion sort here; they agree because aliases are unique.
- SqlHeads.ScriptHeads: words of characters other than quotes, `-` and `/`; quoted names in a head are read as by the tokenizer, which `TokenStaysSynced` ties to the scanner.
- LocalPortText.ParseReads: entries with plain digits; a sign in front of a port is read as the library does.
- LocalPorts.PortAllocator.Resolve: other programs do not open or close ports during one call.
- LocalPorts.ResolvedIsStable: service names are clean and pairwise different, as those of the catalog are, and there is at least one service.
- Sidecars.DeploymentSidecars.ApplySidecars: the engine does not start, stop or remove sidecars by itself during a pass, and the owner's containers carry the names the launcher gives them; every pass keeps the latter.
- Sidecars.ReportReconciliation: probes, exit codes and URLs of a status report are not modelled; a definition whose references do not resolve never matches here, where the source reports an unknown state.
- Sidecars.ForwardedAsDeclared: a sidecar that declares no host port is taken to have bound none.
- Sidecars.ConvergedIsObserved: the fingerprint is an abstract property of the resolved definition.
- The driver logger's silencing counter, version checks, configuration filtering, presets and byte sizes: they would only add easy members.
