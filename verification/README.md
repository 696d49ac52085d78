# Verified model of the system-analysis pipeline core

The service classifies the files of a project into modules with the help of LLM agents, splits and filters
those modules, and dispatches the work over a queue. This project models the deterministic code around the
agents in Dafny and proves what that code promises whatever the agents, the operating system, the database
and the queue do. Agents, processes, crashes and failures are arbitrary: streams of outcomes, arbitrary drafts,
arbitrary steps.

`dafny verify dfyconfig.toml` verifies everything.

| file | models |
|---|---|
| `Workspace.dfy`, `ZeroOmission.dfy`, `WorkspaceRuns.dfy` | `app/pipeline/helpers.py`: the module workspace and its "no file is ever lost" guarantee, for one commit and for whole runs |
| `RefineCommit.dfy`, `RefineRuns.dfy` | `app/pipeline/s2_refine.py`: the commit that the refinement stage calls, with its snapshot inside the module directory, one commit and whole runs |
| `Discovery.dfy` | `app/pipeline/helpers.py`: discovering modules, with the flattening of nested module directories |
| `FilterEngine.dfy` | `app/pipeline/filter_engine.py`: greedy batching and its optimality, validation of an assignment |
| `StdoutFraming.dfy`, `AgentRetry.dfy` | `app/runner.py`: line framing, crash breaker and nested retries, bounded compaction |
| `Evaluation.dfy` | `app/pipeline/evaluation.py`: the round recorder and crash-resume |
| `ModuleDependency.dfy` | `app/pipeline/module_dependency.py`: the module graph |
| `ClassifyFramework.dfy` | `app/pipeline/s1_classify.py`: regeneration of the classification script |
| `Review.dfy` | the voting and round loops of `s1_classify.py` and `s1_security_filter.py` |
| `PathGroups.dfy` | `app/pipeline/s0_path_group.py`: common prefix, module boundaries, path groups |
| `Histogram.dfy`, `Labels.dfy`, `MetricLines.dfy` | `app/metrics.py`, `app/metrics_summary.py`: histogram rendering and quantile, label printer and parser, whole metric lines and texts |
| `Dispatcher.dfy` | `app/dispatcher.py`: the database-to-queue protocol |
| `Results.dfy`, `Sequences.dfy`, `Ordering.dfy`, `Text.dfy` | shared values and facts |

`helpers.py` and `s2_refine.py` each have a commit of a module's split plan; the refinement stage calls the second.
Both are modelled, because they differ in what they check and in what they lose.

Code that changes things step by step is a class or a method with loops, proved against a function or a
predicate of the old state; the laws are lemmas about those. What such a function computes is moreover said on the
inputs alone, by numbers of positions, first occurrences and running totals, so that the function and the loop
cannot be wrong together. Where a promise turned out not to hold of the
code, the code is modelled as it is, one lemma says exactly when the promise holds and another gives an input
that breaks it:

| what does not always hold | exact condition | an input that breaks it |
|---|---|---|
| a commit with a snapshot keeps it | `ZeroOmission.CommitExact`: nothing is only merged back into the parent | `SelfMergeLoses` |
| a commit without a snapshot keeps the parent's files | `UncheckedCommit`: the plan or another module has each of them | `UncheckedCommitLoses` |
| a commit keeps every file accounted for | `CommitAccountExact`: each file sent only to the parent itself or to a module in progress is held elsewhere | `SelfMergeLoses`, `InProgressTargetLoses` |
| ending the work on a module whose commit found no split/ keeps every file | `FinishExact`: its snapshot and its files and deletions differ only in files held elsewhere | `FinishLoses` |
| archiving the deletions of a module in progress adds no file | `ArchiveExact`: each of them is already accounted for | `ArchiveAdds` |
| a commit of the refinement stage keeps every file accounted for | `RefineRuns.CommitExact`: each file that the plan and the list leave out, that the parent's share overwrites or that is merged into the parent is delivered after all or held elsewhere | `PartOfANameLoses`, `OverwrittenListLoses`, `MergedIntoItselfLoses` |
| a module entering the refinement stage keeps its files | `RefineRuns.StepKeepsIff`: what it lists beside its old snapshot is held elsewhere | `OldSnapshotLoses` |
| discovery brings every nested module to the surface | `EveryContainerOpensIff`: no directory to be opened is named like a module nested in an earlier one | `ClashHidesFiles` |
| a file merged into a target survives its next restore | `StaleSnapshotDropsMergedFiles`: the target's old snapshot lists it | `StaleTargetLoses` |
| rendered duration buckets are observation counts | `HistogramIsTrueIff`: no observation is within the last bound but one | `RenderedMedianIsOff` |
| a label value survives printing and parsing | `ValueRoundTripIff`: no backslash stands directly before an `n` | `BackslashNIsLost` |
| a metrics text is read back row by row | `DocumentRoundTripIff`: moreover no value has a line break other than the newline | `CarriageReturnsMakeARow` |
| two readers of the same bytes emit the same lines | `SameBytesSameLinesIff`: both or neither end with a failing select, or the last line is blank | one of them ends with a failing select after an unterminated line |
| loosening the pass mode keeps a passing vote | `LooseningKeepsTheVoteIff`: there is a judge, or "all" is not involved | `NoJudgePassesAllOnly` |
| the filter stage keeps every file | `FilterStage.Execute`: the modules still there list what they listed before | `ShortenedListLosesFile` |

## Model

| member | source | states |
|---|---|---|
| Workspace.WorkspaceDir.CommitSplitPlan | app/pipeline/helpers.py:656-750 | The commit leaves the whole disk as `CommitDisk` of the old one and returns `CommitResult`: not applied without split/, an error naming the sorted missing and extra files and no write when the check fails, else the names written. |
| Workspace.WorkspaceDir.ApplyPlan | app/pipeline/helpers.py:706-744 | The writing half, with its four loops and branches, computes the committed modules and snapshots and leaves deleted.list alone. |
| Workspace.WorkspaceDir.ApplyChildren | app/pipeline/helpers.py:709-717 | The loop over the children, in sorted order, gives the state that `WriteChildren` describes for any order. |
| Workspace.WorkspaceDir.ApplyMerges | app/pipeline/helpers.py:719-724 | The loop over the merge targets gives the state that `WriteMerges` describes for any order, on top of the children just written. |
| ZeroOmission.ParentFiles | app/pipeline/helpers.py:726-734 | Settling the parent changes no other module's files and no deletions, and leaves the parent with exactly its own share. |
| Workspace.WorkspaceDir.CreateSnapshots | app/pipeline/helpers.py:735-744 | Every written module with a list gets a snapshot unless it has one. |
| Workspace.WorkspaceDir.RestoreModuleForRetry | app/pipeline/helpers.py:753-812 | Restore leaves the disk as `RestoreDisk` of the old one, and at the workspace root takes away exactly the visible directories with a list and no snapshot, not modules/ and not refined, whose name contains the module's in lower case. |
| Workspace.WorkspaceDir.ProcessModuleRecover | app/pipeline/helpers.py:574-610 | Recovery appends the recovered entries to files.list, takes them out of deleted/, drops recover/, and returns the entries. |
| Workspace.WorkspaceDir.ArchiveModuleDeletions | app/pipeline/helpers.py:541-569 | The module's deletions are appended to deleted.list in order, deleted/ is removed, and their number is returned. |
| ZeroOmission.CommittedFiles | app/pipeline/helpers.py:709-732 | After a commit every other module lists its old files and exactly its shares of the plan, also for overlapping children and for a name that is both child and merge target; the parent lists its own share; deletions stay. |
| ZeroOmission.CommitKeeps | app/pipeline/helpers.py:706-734 | For any plan, what a commit leaves behind is the others' old files and everything the plan delivers to someone but its own parent. |
| ZeroOmission.CoveredIsDelivered | app/pipeline/helpers.py:690-695 | The covered set is what is delivered plus what is merged into the parent itself. |
| ZeroOmission.CommitExact | app/pipeline/helpers.py:677-732 | With a snapshot the commit fails, without any write, exactly when the plan does not cover the snapshot; otherwise the result is the others' old files plus the snapshot if and only if nothing is only self-merged. |
| ZeroOmission.UncheckedCommit | app/pipeline/helpers.py:678-704 | With an empty snapshot the commit is always accepted, and the parent's files survive if and only if the plan delivers them or another module lists them. |
| ZeroOmission.UncheckedCommitLoses | app/pipeline/helpers.py:678-704 | Without a snapshot, a plan that sends one other file elsewhere is accepted and the parent's file is gone. |
| ZeroOmission.RefusedOnInputs | app/pipeline/helpers.py:677-704 | On the directories alone: with a snapshot a commit is refused if and only if some file is in the snapshot or is planned or deleted, but not both, and the error names exactly the files on either side. |
| ZeroOmission.ListedAfterCommit | app/pipeline/helpers.py:706-734 | A file is listed by a module after an accepted commit if and only if a candidate of that name has it or, for any module but the parent, the module listed it before or is sent it as a merge target. |
| ZeroOmission.OthersAfterCommit | app/pipeline/helpers.py:706-724 | Of every other module only the list changes, and only if the plan sends it files; then it is sorted and without repeats. No module is made without files. |
| ZeroOmission.ParentAfterCommit | app/pipeline/helpers.py:726-734 | The parent is still there if and only if its own candidate has files or there is a deleted/; split/ is gone, deleted/ and recover/ are as they were, and there is a list if and only if its own candidate has files. |
| ZeroOmission.SnapshotsAfterCommit | app/pipeline/helpers.py:735-744 | Every snapshot stays as it was; another module has a new one if and only if it was sent files and had none, and it equals its list. deleted.list is untouched. |
| ZeroOmission.CommittedTwice | app/pipeline/helpers.py:656-750 | A second commit right after an accepted one finds no split/ and changes nothing. |
| ZeroOmission.ReportedNames | app/pipeline/helpers.py:745-750 | An accepted commit reports, each once and in order, exactly the candidates with a file but the parent, the merge targets with a file, and whether the parent keeps files. |
| WorkspaceRuns.LocalStepHoldings | app/pipeline/helpers.py:574-610 | Drafting, recovering or restoring inside a module in progress leaves what every module answers for unchanged. |
| WorkspaceRuns.ArchiveExact | app/pipeline/helpers.py:541-569 | Archiving keeps the account, for a module in progress if and only if the files it archives are already accounted for. |
| WorkspaceRuns.ArchiveAdds | app/pipeline/helpers.py:541-569 | A module in progress with a foreign file in deleted/: archiving adds it to the account. |
| WorkspaceRuns.CommitAccountExact | app/pipeline/helpers.py:656-750 | An accepted commit keeps every file accounted for if and only if each file merged into the parent or sent into another module in progress is also held or delivered elsewhere. |
| WorkspaceRuns.GuardedPlanIsHarmless | app/pipeline/helpers.py:656-750 | A plan without self-merge and without a target in progress meets that condition. |
| WorkspaceRuns.FinishExact | app/pipeline/helpers.py:674-675 | A commit without split/ applies nothing and checks nothing: ending the work on the module then keeps the account if and only if its snapshot and what it lists or proposes to delete differ only in files held elsewhere. |
| WorkspaceRuns.FinishLoses | app/pipeline/helpers.py:674-675 | A draft that takes a file out of files.list and makes no split/: the commit returns not applied, and once the work ends nobody answers for the file. |
| WorkspaceRuns.StepKeepsAccountIff | app/pipeline/helpers.py:541-780 | Every step, begin, draft, recover, restore, commit, finish or archive, keeps the set of accounted files if and only if it meets its own condition above. |
| WorkspaceRuns.NothingIsLostIff | app/pipeline/helpers.py:541-780 | Over every run, with any number of modules in progress and arbitrary drafts, the files at rest, the snapshots of modules in progress, the unarchived deletions and deleted.list together stay the same set throughout if and only if every step is harmless. |
| WorkspaceRuns.RestToRest | app/pipeline/helpers.py:541-780 | Between two states at rest, over harmless steps, every file is still listed by a module or archived. |
| WorkspaceRuns.UnsplitModuleRests | app/pipeline/helpers.py:541-780 | Such a run exists for every unsplit module: begin, any draft that divides its files into kept and deleted, commit, finish and archive lead from rest to rest. |
| WorkspaceRuns.LocalRun | app/pipeline/helpers.py:574-780 | Any drafts, recoveries and restores of one module leave the other modules, the snapshots and deleted.list alone. |
| WorkspaceRuns.RestoreUndoesDrafts | app/pipeline/helpers.py:753-778 | However many such steps ran, a restore brings files.list, split/ and deleted/ back to the snapshot and everything else to the state before. |
| WorkspaceRuns.RecoverConserves | app/pipeline/helpers.py:574-610 | Recovery drops nothing, and adds nothing if and only if only listed or deleted files are recovered. |
| WorkspaceRuns.RecoverMoves | app/pipeline/helpers.py:574-610 | Entry by entry: the old list is a prefix of the new one, each entry is there as often as it was listed and recovered together, and gone from deleted/ if recovered and as often as before if not; split/ stays, and a second recovery changes nothing. |
| WorkspaceRuns.RecoveredDeletions | app/pipeline/helpers.py:594-606 | A deleted/ with a list goes if and only if all its entries were recovered. |
| WorkspaceRuns.ArchivedOnce | app/pipeline/helpers.py:541-569 | deleted.list gains exactly the entries of deleted/, in order and with repeats, only deleted/ goes, and a second archiving changes nothing. |
| WorkspaceRuns.BeginExact | app/pipeline/helpers.py:735-744 | Starting a module keeps the account if and only if its snapshot and its files differ only in files held elsewhere. |
| WorkspaceRuns.FreshSnapshotIsHarmless | app/pipeline/helpers.py:735-744 | A snapshot equal to files.list, with no deletion outside it, meets that condition. |
| WorkspaceRuns.StaleSnapshotDropsMergedFiles | app/pipeline/helpers.py:739-744 | A file merged into a target that already has a snapshot is listed by it, and survives that target's next restore if and only if the old snapshot lists it. |
| WorkspaceRuns.StaleTargetLoses | app/pipeline/helpers.py:739-744 | A plan that sends a file into a module at rest with a snapshot: after that module's next restore nobody lists the file, and it is not archived. |
| WorkspaceRuns.StrayIsLost | app/pipeline/helpers.py:697-732 | A covered file that lands nowhere and is held by nobody else leaves the account. |
| WorkspaceRuns.SelfMergeLoses | app/pipeline/helpers.py:719-732 | A plan that merges a file back into its parent passes the check and loses the file. |
| WorkspaceRuns.InProgressTargetLoses | app/pipeline/helpers.py:709-724 | A plan that sends a file into another module in progress passes the check and loses the file from the account. |
| RefineCommit.RefineWorkspace.CommitOneModule | app/pipeline/s2_refine.py:150-294 | The commit leaves the workspace as `CommitDisk` of the old one and returns `CommitResult`; on an error nothing is written. What these are is said on the directories alone by `CheckedOnInputs`, `ListedAfterCommit`, `CommittedTwice` and `ReportedNames`. |
| RefineCommit.RefineWorkspace.CheckModule | app/pipeline/s2_refine.py:186-216 | The check passes, fails on a missing deleted.list, or names the files missing and extra, as `Check` says: a file that the module misses passes when it is part of an entry of another list or of deleted.list. |
| RefineCommit.RefineWorkspace.FindMissing | app/pipeline/s2_refine.py:194-207 | The two loops find exactly the files that are part of no entry elsewhere, or fail on the first one when there is no deleted.list. |
| RefineCommit.RefineWorkspace.ApplyChildren | app/pipeline/s2_refine.py:223-237 | The loop over the children, with the snapshots of targets in progress extended, gives the state that `WriteChildren` describes for any order. |
| RefineCommit.RefineWorkspace.ApplyMerges | app/pipeline/s2_refine.py:238-254 | The loop over the merge targets gives the state that `WriteMerges` describes for any order. |
| RefineCommit.RefineWorkspace.SettleParent | app/pipeline/s2_refine.py:256-274 | The parent keeps its own share, or what its list has beside the plan, or only its deletions, or disappears; it reports whether it kept files. |
| RefineRuns.MentionsIff | app/pipeline/s2_refine.py:200-205 | The search by text finds every entry, and moreover exactly the files that are a proper part of some entry. |
| RefineRuns.OtherAfterCommit | app/pipeline/s2_refine.py:223-254 | Every other module gains exactly its shares of the plan, in its list and, while in progress with a snapshot, in its snapshot. |
| RefineRuns.CommittedHoldings | app/pipeline/s2_refine.py:218-283 | So what every other module answers for grows by exactly its shares, at rest, waiting or in progress; the parent answers for its own list. |
| RefineRuns.CommitKeepsIff | app/pipeline/s2_refine.py:186-283 | A commit keeps the account, accepted or not and with or without a snapshot, if and only if it is rejected or what the parent held and what its plan delivers differ only in files held elsewhere. |
| RefineRuns.CommitExact | app/pipeline/s2_refine.py:186-283 | An accepted commit with a snapshot keeps every file accounted for if and only if each file left out of plan, list and deletions, overwritten in the list by the parent's own share, or merged into the parent is delivered after all or held elsewhere. |
| RefineRuns.StepKeepsIff | app/pipeline/s2_refine.py:381-477 | Every step of the stage keeps the account if and only if it is harmless: a first snapshot and a draft always, entering and leaving when the list has nothing beside the snapshot that is not held elsewhere, a commit under its condition. |
| RefineRuns.RunKeepsIff | app/pipeline/s2_refine.py:381-477 | Over every run of the stage, with any modules in progress, waiting and at rest and arbitrary drafts, the account never changes if and only if every step is harmless. |
| RefineRuns.RestToRest | app/pipeline/s2_refine.py:332-378 | Between two states at rest, over harmless steps, a file is listed or archived if and only if it was. |
| RefineRuns.PartOfANameLoses | app/pipeline/s2_refine.py:200-205 | A file left out of everything passes the check because its path is the end of another module's entry, and is gone. |
| RefineRuns.OverwrittenListLoses | app/pipeline/s2_refine.py:186-225 | A plan that keeps one file in the parent, whose list still has another: the other counts as covered and is overwritten away. |
| RefineRuns.MergedIntoItselfLoses | app/pipeline/s2_refine.py:238-266 | A plan that merges a file into its own parent passes the check and loses it. |
| RefineRuns.OldSnapshotLoses | app/pipeline/s2_refine.py:80-84 | A module that kept its snapshot is sent a file and enters the stage again: its next check does not ask for the file. |
| RefineRuns.CommittedTwice | app/pipeline/s2_refine.py:150-294 | A second commit right after an accepted one is accepted, changes nothing, archives nothing again and reports no name: plan, deletions and snapshot are used up. |
| RefineRuns.ReportedNames | app/pipeline/s2_refine.py:223-294 | An accepted commit reports, each once and in order, exactly the candidates with files but the parent and the merge targets with files, all of which then list their share, and whether the parent is still there. |
| RefineRuns.NothingElseChanges | app/pipeline/s2_refine.py:223-287 | No plan or deletion of another module changes, and a module is made if and only if an accepted commit sends it files. |
| RefineRuns.DeletedListGrows | app/pipeline/s2_refine.py:276-280 | The old deleted.list is a prefix of the new one; what follows is the deletions, sorted, each once. |
| RefineRuns.CheckedOnInputs | app/pipeline/s2_refine.py:186-216 | On the directories alone: without a snapshot a commit is accepted, with one if and only if every file of it is planned, deleted, listed or occurs in an entry elsewhere, and no other file is planned, deleted or listed; the error names exactly the files that break this, or that there is no deleted.list when a file is missing. |
| RefineRuns.ListedAfterCommit | app/pipeline/s2_refine.py:223-274 | After an accepted commit another module lists a file if and only if it did or the plan sends it; the parent lists its own candidate's files, and without one what of its list is nowhere in the plan. |
| Discovery.ModulesRoot.DiscoverModules | app/pipeline/helpers.py:318-364 | The pass leaves the directories as `Flattened` describes, nested ones met in any order, and returns, in order and each once, exactly the directories not beginning with a dot that have a list. |
| Discovery.ModulesRoot.Open | app/pipeline/helpers.py:332-358 | Opening one directory moves each nested module up, or appends the entries that the module of its name lacks, in any order. |
| Discovery.FlattenKeepsFiles | app/pipeline/helpers.py:327-358 | A pass loses no file and adds none: every file listed by a directory or in one is so before and after. |
| Discovery.JoinedIs | app/pipeline/helpers.py:349-353 | Joining keeps the old list as a prefix and appends, in order, each entry that it lacks, repeats included. |
| Discovery.ListsKeepTheirEntries | app/pipeline/helpers.py:327-358 | A pass leaves every list as a prefix of what it becomes. |
| Discovery.NestedStays | app/pipeline/helpers.py:328-336 | What hidden directories and directories with a list hold stays in them, and so do hidden directories and those without a list; nothing gets into a directory. |
| Discovery.EntriesComeFrom | app/pipeline/helpers.py:332-358 | An entry that a list gains comes from a directory of that name, not hidden, in a directory that is not hidden and had no list. |
| Discovery.EveryContainerOpensIff | app/pipeline/helpers.py:327-358 | Every visible directory without a list is emptied of modules if and only if no two of them clash: none with modules in it is named like a module nested in an earlier one. |
| Discovery.NestedFilesSurface | app/pipeline/helpers.py:318-364 | Then every file of a nested module is listed by the discovered module of that name. |
| Discovery.FlattenedTwice | app/pipeline/helpers.py:318-364 | A second pass changes nothing, clash or not. |
| Discovery.ClashHidesFiles | app/pipeline/helpers.py:330-331 | Two directories that clash (`TwoDeepExists` gives such trees): the second becomes a module and what is nested in it is never discovered. |
| FilterEngine.BatchTreeNodes | app/pipeline/filter_engine.py:116-135 | The batches are the nodes, cut at some places; each is within the limit or one node, each would exceed it with the first node of the next, and no other way to cut the nodes into such batches has fewer. No nodes give one empty batch. A line costs, on its characters alone, 8 tokens and the least positive number of which one stands for each character above 127 and each of the rest for at most four others. |
| FilterEngine.EstimateIs | app/pipeline/filter_engine.py:64-69 | The estimate is 0 for no text and else the least positive n with 4 (n - other) >= ascii, for the numbers of positions with a character below 128 and of the others (both directions). |
| FilterEngine.CostsIff | app/pipeline/filter_engine.py:121-132 | The cost of a batch is the total of its lines' estimates and 8 for each (both directions). |
| FilterEngine.OneBatching | app/pipeline/filter_engine.py:116-135 | There is only one way to cut nodes into batches within the limit, single nodes excepted, each as full as it can be. |
| FilterEngine.AddNode | app/pipeline/filter_engine.py:121-132 | Greedy stays ahead: a packing that no partition beats, in number and in how early its last batch starts, remains so with one more node. |
| FilterEngine.LastGroupOverflows | app/pipeline/filter_engine.py:123-126 | A batch that reaches back past the last greedy group and over a node that did not fit exceeds the limit. |
| FilterEngine.PackIsPacked | app/pipeline/filter_engine.py:121-132 | After every prefix the closed batches and the open one are such a packing, each batch as full as it can be. |
| FilterEngine.PackNode | app/pipeline/filter_engine.py:122-132 | One turn of the loop flushes, emits an oversized node alone or extends the open batch, with the running token count equal to the batch's cost. |
| FilterEngine.ValidateFilterOutputs | app/pipeline/filter_engine.py:138-163 | Accepts if and only if the filtered list is not empty, the cleaned names are non-empty and distinct, and every module is a non-empty selection of filtered files with no file in two modules; otherwise the error names a violation that is there. |
| FilterEngine.ClaimFiles | app/pipeline/filter_engine.py:157-163 | The inner loop accepts if and only if every file is filtered and unowned, and then records exactly these owners; otherwise it names a file that is not. |
| StdoutFraming.StdoutReader.ReadLoop | app/runner.py:530-559 | For every way of cutting the stream into reads the queue receives the lines of the whole stream, an unterminated last one only if it is not blank and select did not fail; while open, the complete lines so far. |
| StdoutFraming.StdoutReader.TakeLines | app/runner.py:547-549 | The inner loop queues the complete lines of the buffer and keeps the rest. |
| StdoutFraming.FramingIsTheSplit | app/runner.py:547-549 | The lines and the rest are the only way to cut the bytes at their newlines (both directions). |
| StdoutFraming.SplitContinues | app/runner.py:546-549 | After any prefix only its unterminated rest matters for the lines to come. |
| StdoutFraming.StreamContinues | app/runner.py:530-546 | The stream of reads is the stream of the first ones and, unless that has ended, of the rest; the read that ends it decides whether the last line is dropped. |
| StdoutFraming.SameBytesSameLinesIff | app/runner.py:530-559 | Two readers of the same bytes, however cut, emit the same lines if and only if both or neither end with a failing select or the last line is blank. |
| AgentRetry.RunWithPiRetry | app/runner.py:1066-1208 | With limits p and n at most n + p + 1 starts, none of them with the cancel event seen set before it; every start that another one follows was a fatal result within n or a crash within p, with no cancellation seen; the result is what the last start led to, exhausted limits by the numbers of fatal and crashed starts, or the cancellation before the next one; the counted crashes are exactly those of the retried starts, at the times their runs and sleeps add up to, and so is the clock; fewer than five of them ever lie in the trailing window before a retry, and the breaker fires on the fifth or sixth; when the first crashes of the call are five short ones in a row, after any number of fatal results, the call is over before them or the breaker fires on the fifth; a missing directory starts nothing. |
| AgentRetry.OneResult | app/runner.py:1066-1208 | Attempts, limits and start time determine the result and the number of starts: no two outcomes meet what `RunWithPiRetry` ensures. |
| AgentRetry.CancelStops | app/runner.py:1099-1102 | The first start that would meet a set cancel event is never made: the call is over before it, or ends there as cancelled. |
| AgentRetry.AttemptsCounted | app/runner.py:1123-1154 | The two counters are the numbers of crashed and of fatal starts. |
| AgentRetry.FatalsTakeTime | app/runner.py:1123-1136 | Fatal results in a row hold the call up by at least 30 seconds each. |
| AgentRetry.Turn | app/runner.py:1098-1208 | One turn: nothing but `Cancelled` when the cancel event is set, and otherwise which counter, clock and crash list it leaves, or which result it returns, for every outcome and cancellation. |
| AgentRetry.TurnKeeps | app/runner.py:1098-1208 | A turn that goes on keeps the counters within the limits and the window calm. |
| AgentRetry.TurnSettles | app/runner.py:1098-1208 | A turn that ends the loop settles the call within the limits, the breaker's case being the fifth or sixth counted crash. |
| AgentRetry.TurnReplays | app/runner.py:1098-1208 | A turn keeps counter, clock and counted crashes equal to those computed from the starts alone. |
| AgentRetry.ShortEnd | app/runner.py:1146-1190 | Five short crashes from start k on, the first crashes of the call, with p negative or at least five: the call is over before start k or the breaker fires on start k + 4. |
| AgentRetry.FiveShortFire | app/runner.py:1173-1190 | After five such crashes the window is full. |
| AgentRetry.CrashFires | app/runner.py:1176-1190 | A crash that fills the breaker's list is the fifth or sixth counted crash, after calm ones. |
| AgentRetry.CrashCounted | app/runner.py:1176-1202 | Any other crash keeps the history calm, with its sleep passed and the breaker's list equal to the window of all counted crashes. |
| AgentRetry.FiveInAWindow | app/runner.py:1176-1179 | With crashes at least the backoffs apart, five fit into 60 s only as the first five, or as crashes two to six lying exactly 60 s apart. |
| AgentRetry.ShortRunsFillTheWindow | app/runner.py:1174-1179 | Five crashes with at most 6.75 s beyond the backoff between them all lie in the window. |
| AgentRetry.RunWithContextOverflowRecovery | app/runner.py:895-1060 | At most maxCompacts compactions and (maxCompacts + 1)(n + p + 1) starts; an input over the preflight limit never starts the agent and never returns an agent result; every agent call is the one outcome of its round's attempts from the time the call before it ended, the starts are theirs, and the result says which round ended the loop and why, all rounds before it having overflowed and compacted. |
| AgentRetry.OneRecovery | app/runner.py:895-1060 | The rounds determine the result, the compactions and every call. |
| AgentRetry.PreflightLimitIs | app/runner.py:224-225 | The limit is three quarters of the window beyond 8192 tokens, rounded down, and at least 1 (both directions). |
| Evaluation.EvaluationRecorder.constructor | app/pipeline/evaluation.py:247-279 | Loading skips unreadable files and records of other runs and yields all other records on disk, those in foreign round_* directories included, in round order, the scores they imply and the highest number of directories and records; on a disk of its own, skipped files aside, the memory agrees with it. |
| Evaluation.EvaluationRecorder.AtomicWriteJson | app/pipeline/evaluation.py:241-245 | The round directory after a crash at each point of mkdir, temporary file and replace. |
| Evaluation.EvaluationRecorder.RecordRound | app/pipeline/evaluation.py:99-170 | The record says of the call and of the records before it what `Describes` asks: the next number; the stored name, stage and details; an average and a pass rate that, times the judges, are the sum of their scores and the number that pass, or 0 without judges; deltas if and only if an earlier record has the module and stage, leading from the latest one's values to its own; every field of the worker's and judges' usage added once, the four token counts together, and the tokens per score point only for a positive average. Also the disk at every crash point, and without a crash the memory with the record added. |
| Evaluation.ResumedRecords | app/pipeline/evaluation.py:99-279 | Over any calls with any crashes and resumes, a durable call adds one record to the disk, and that record says of the call and of the durable records before it what it should; any other call adds none. |
| Evaluation.LatestScoresOf | app/pipeline/evaluation.py:99-102 | The table has exactly the keys of the records, each with the scores of its latest record. |
| Evaluation.ScoresAverage | app/pipeline/evaluation.py:88-92 | The average times the number of judges is the sum of their scores, the pass rate times it the number that pass. |
| Evaluation.AddsIff | app/pipeline/evaluation.py:33-48 | The field-wise sum is the only total that adds every field of every item once. |
| Evaluation.MergeTokenUsage | app/pipeline/evaluation.py:33-48 | The loop adds every field of every usage once. |
| Evaluation.EvaluationRecorder.TotalUsage | app/pipeline/evaluation.py:186-188 | The summary's total is the sum over the records' own totals. |
| Evaluation.ResumedTotals | app/pipeline/evaluation.py:33-188 | Over any calls with any crashes and resumes, that total grows by exactly the usages of the workers and judges of the durable calls: no token is lost or counted twice. |
| Evaluation.SortByRound | app/pipeline/evaluation.py:269 | The same records in round order, strictly when the numbers are distinct. |
| Evaluation.SortedIsPermutation | app/pipeline/evaluation.py:269 | Sorting neither drops nor repeats a record. |
| Evaluation.ReadAllRounds | app/pipeline/evaluation.py:252-267 | Directories and files met in any order: exactly the records on disk and the highest directory number, past round 999 too. |
| Evaluation.Replay | app/pipeline/evaluation.py:271-279 | The highest number and the latest scores by module and stage of the records. |
| Evaluation.WriteHolds | app/pipeline/evaluation.py:104-164 | A write that dies at any point leaves its record durable, or only uses up its number, or changes nothing. |
| Evaluation.CallAgrees | app/pipeline/evaluation.py:99-170 | Whatever the crash point, the memory that survives is the one that agrees with the disk left behind. |
| Evaluation.AgreementUnique | app/pipeline/evaluation.py:247-279 | At most one memory agrees with a disk. |
| Evaluation.ResumeRefines | app/pipeline/evaluation.py:99-279 | Over any calls with any crashes, resumed recorders hold what a recorder that never lost its memory would: the durable records in order, the same previous scores, the same counter. |
| Evaluation.RoundsAreFresh | app/pipeline/evaluation.py:104-108 | No round number is ever reused and directories never disappear. |
| ModuleDependency.CollectOwners | app/pipeline/module_dependency.py:150-159 | The owner tables hold, per symbol, library stem or key, exactly the modules with a file that carries it. |
| ModuleDependency.AddHits | app/pipeline/module_dependency.py:167-185 | One hit on the edge to every owner but the source itself, in any order, and no other edge touched. |
| ModuleDependency.AddKeys | app/pipeline/module_dependency.py:207-228 | The keys of a needed entry, in any order, add one hit of 3 per matching key to every owner's edge and touch no other edge. |
| ModuleDependency.AddFile | app/pipeline/module_dependency.py:163-228 | One file changes exactly its own module's edges, each by its imports and needed entries. |
| ModuleDependency.BuildEdges | app/pipeline/module_dependency.py:145-228 | Every entry, its weight and its capped lists, is `EdgeOf` its module, which `EdgeSays` describes on the inputs alone; no other entries exist. |
| ModuleDependency.EdgeSays | app/pipeline/module_dependency.py:162-228 | On the inputs alone: there is an edge if and only if an import or needed entry of the source hits the target, as a symbol that one of its files exports, a library that one is, or a key that one has. The weight is 1, 5 and 3 times the numbers of these hits; symbols, needed entries and files are the values of their own hits in the order of the first ones, each once, all or 30; the kinds are exactly those that occur, in the order of the first ones. |
| ModuleDependency.DescribedOnce | app/pipeline/module_dependency.py:162-228 | The hits determine all that an edge says. |
| ModuleDependency.ShortListsAreWhole | app/pipeline/module_dependency.py:180-185 | A capped list has each of its values once, and all values if they are at most 30. |
| ModuleDependency.TargetIsModule | app/pipeline/module_dependency.py:166-228 | Only modules are targets. |
| ModuleDependency.SortEdges | app/pipeline/module_dependency.py:230 | All edges, once, in (source, target) order. |
| ModuleDependency.Degrees | app/pipeline/module_dependency.py:231-237 | Per module the number of edges out and in and the total weight out; the sums over all modules are the number of edges, twice, and the total weight. |
| ModuleDependency.GraphUnique | app/pipeline/module_dependency.py:136-237 | Two graphs of the same inputs, edges with a payload that their hits describe, are equal: no order in which sets are met can change the result. |
| ModuleDependency.BuildModuleDependencyGraph | app/pipeline/module_dependency.py:136-237 | The result has exactly the edges between different modules with a hit, each saying of its hits what `EdgeSays` asks, in (source, target) order, together with the degrees. |
| ClassifyFramework.FindSpec | app/pipeline/s1_classify.py:104-105 | `find` gives the first occurrence, or none exists. |
| ClassifyFramework.ExtractedFits | app/pipeline/s1_classify.py:97-115 | An extracted body is trimmed, contains no end marker and is not a placeholder. |
| ClassifyFramework.ComposedEnd | app/pipeline/s1_classify.py:151-155 | Between frame and body no earlier end marker can arise. |
| ClassifyFramework.ExtractComposed | app/pipeline/s1_classify.py:97-155 | Extracting from a composed file finds the markers where the frame has them and gives the body back, unless it counts as unfilled. |
| ClassifyFramework.BodySurvives | app/pipeline/s1_classify.py:97-159 | Extracting after writing gives what was extracted before if and only if the template has both markers in order or there was no body. |
| ClassifyFramework.FrameIsTheTemplates | app/pipeline/s1_classify.py:148-159 | The text outside the markers is the template's, whatever the Worker did to the file. |
| ClassifyFramework.AttemptsKeepBody | app/pipeline/s1_classify.py:118-159 | Any number of regenerations gives the file of the first one, with the same body. |
| ClassifyFramework.ClassifySlotIsGood | app/pipeline/s1_classify.py:89-91 | The actual markers and placeholder meet what these laws require. |
| PathGroups.CommonDirs | app/pipeline/s0_path_group.py:72-85 | The result is shared by all paths and every shared directory prefix is a prefix of it. |
| PathGroups.CommonPrefix | app/pipeline/s0_path_group.py:72-85 | The same joined with slashes; nothing for no paths. |
| PathGroups.SameButForSlashes | app/pipeline/s0_path_group.py:76-77 | Paths that differ only in the slashes they use have the same directories. |
| PathGroups.TrimmedSlashes | app/pipeline/s0_path_group.py:76-77 | Exactly the slashes at the end of a path are trimmed. |
| PathGroups.RootStartsEveryPath | app/pipeline/s0_path_group.py:107-122 | The root and its slash start every path, so the partial-match fallback is never taken. |
| PathGroups.StripDropsCommonDirs | app/pipeline/s0_path_group.py:113-125 | What is left of a path splits into its segments below the common directories. |
| PathGroups.StripCommonPrefixes | app/pipeline/s0_path_group.py:96-142 | Every file gets its directories below the common ones without at most three leading containers. |
| PathGroups.CountModules | app/pipeline/s0_path_group.py:172-175 | The counts are the numbers of files with each candidate. |
| PathGroups.CountSiblings | app/pipeline/s0_path_group.py:191-198 | The sibling count is the number of files whose first meaningful directory has this name. |
| PathGroups.FindModuleBoundary | app/pipeline/s0_path_group.py:145-207 | The in-place third pass gives every file its candidate, or the level below when the candidate is small and that level has at least three siblings, decided on the first-pass counts. |
| PathGroups.MovesJoinLargeModules | app/pipeline/s0_path_group.py:178-207 | A moved file leaves a module of fewer than three files for an existing one that ends with more than three. |
| PathGroups.LargeModulesKeepTheirFiles | app/pipeline/s0_path_group.py:181-182 | A module of three or more files never loses one. |
| PathGroups.ModulesNeverMultiply | app/pipeline/s0_path_group.py:178-207 | Merging makes no new module name, so the number of modules never grows. |
| PathGroups.BuildPathGroups | app/pipeline/s0_path_group.py:210-239 | The groups partition the files: a file stands with all its occurrences in one group and in no other. Every group holds, in order, the files of its label, and none is empty. The labels are those that `LabelsSaySo` describes on the paths. |
| PathGroups.LabelsSaySo | app/pipeline/s0_path_group.py:96-239 | In terms of positions in the paths: a shared library is labelled by its base name or as unmatched. Of every other file the common directories are cut off and at most three leading containers, all of them if they are fewer; its candidate is the first meaningful directory, else the last one, else the root; if fewer than three files have that candidate and at least three have the directory below it as their first meaningful one, it goes there, otherwise it stays. |
| PathGroups.EachFileInOneGroup | app/pipeline/s0_path_group.py:210-239 | A file has all its occurrences in the group of its label and none in any other. |
| Histogram.DurationEntry.Observe | app/metrics.py:49-60 | After any observations bucket i holds the number of observations up to bound i, with count and sum. |
| Histogram.ObservationsAdd | app/metrics.py:49-60 | Counts and sums of observations add up over any division of them. |
| Histogram.DurationEntry.RenderBuckets | app/metrics.py:109-118 | Rendered bucket k is the sum of the true counts of buckets 0 to k. |
| Histogram.RenderedNondecreasing | app/metrics.py:109-118 | Rendered buckets never fall in their bound. |
| Histogram.RenderedIsTheCountIff | app/metrics.py:109-118 | Rendered bucket k is the true count if and only if every observation is above the bound before. |
| Histogram.HistogramIsTrueIff | app/metrics.py:109-118 | All rendered buckets are true if and only if every observation is above the last bound but one. |
| Histogram.DurationBucketsIncrease | app/metrics.py:22 | The service's own bounds increase, as the two laws above ask. |
| Histogram.RenderedMedianIsOff | app/metrics.py:109-118 | With the service's 13 bounds, requests of 5 ms and 60 s: the true counts put the median at 5 ms, the rendered ones at half a second. |
| Histogram.HistogramQuantile | app/metrics_summary.py:243-265 | No value without rows or with a total that is not positive; otherwise the loop finds the value in the first sorted bucket that reaches the target, inside that bucket. |
| Histogram.SortSorts | app/metrics_summary.py:245 | Sorting orders the rows by bound and keeps them all. |
| Histogram.QuantileInItsBucket | app/metrics_summary.py:251-265 | For 0 <= q <= 1 and a positive total there is a value, between its bucket's bounds and where the interpolated count is the target; in a bucket without upper bound the last finite bound. |
| Histogram.QuantileMonotone | app/metrics_summary.py:243-265 | The value never falls when q grows, even if the counts are not monotone. |
| Labels.PrintLabels | app/metrics.py:574-579 | The loop prints the labels as `Printed` does, nothing for no labels. |
| Labels.UnescapeOfEscape | app/metrics_summary.py:307-308 | A printed value is read back with every backslash-n pair turned into a newline, and otherwise unchanged. |
| Labels.ValueRoundTripIff | app/metrics_summary.py:307-308 | A value survives if and only if it has no backslash directly before an n. |
| Labels.BackslashNIsLost | app/metrics_summary.py:307-308 | A backslash and an n come back as one newline. |
| Labels.MatchesPart | app/metrics_summary.py:11 | The label pattern matches a printed label exactly, whatever the value contains. |
| Labels.ParseOfPrint | app/metrics_summary.py:37 | The pattern finds every printed label in order and nothing else. |
| Labels.LabelsRoundTripIff | app/metrics.py:574-579 | Parsing the printed labels gives the same list in order if and only if no value has a backslash directly before an n. |
| MetricLines.ParseMetrics | app/metrics_summary.py:22-41 | The loop returns the rows of the lines that are no comments, match the line pattern and carry a number. |
| MetricLines.LineRow | app/metrics_summary.py:10-36 | The line pattern, greedy labels included, reads a printed line back as its name, its printed labels and its value, whatever the label values contain. |
| MetricLines.RowsAreFit | app/metrics_summary.py:25-37 | From no text whatever does a row come back with another line break in a label value than the newline, or with a backslash directly before an n. |
| MetricLines.DocumentRoundTripIff | app/metrics_summary.py:22-41 | The rows of a printed text are the printed ones if and only if no label value has such a line break or such a backslash. |
| MetricLines.CarriageReturnsMakeARow | app/metrics_summary.py:25 | A label value that is itself a sample's line between carriage returns is read back as that sample, and the printed one is lost. |
| Dispatcher.Process.StartupReset | app/dispatcher.py:42-70 | The two updates and the commit set every row as `Startup` says; a failed commit changes nothing. |
| Dispatcher.Process.PumpOnce | app/dispatcher.py:86-125 | The ids of the leading successes are stored in their rows, no other row changes, the messages sent are those of the attempts up to and with the first failure, and the number published is returned. |
| Dispatcher.Process.StaleOnce | app/dispatcher.py:134-190 | Rows that are running and not alive are released, no other row changes, their number is returned; a failed inspection or commit changes nothing. |
| Dispatcher.StartupHandsBack | app/dispatcher.py:48-66 | The startup hands back exactly the undeleted rows that are running or pending with a message id: pending, without id, owner, lease and dispatch state, and otherwise as they were; every other row and all messages stay. |
| Dispatcher.ScanHandsBack | app/dispatcher.py:152-182 | A scan hands back exactly the undeleted running rows but those that store the id of an active message and sent a heartbeat in the last 120 seconds. |
| Dispatcher.PumpEffect | app/dispatcher.py:105-120 | A picked row stores its message's id and changes in nothing else if its attempt is reached and succeeds; otherwise it stays as it is, still eligible, even when its message is out because only the commit failed. |
| Dispatcher.PumpTouchesNoOther | app/dispatcher.py:105-120 | A pump touches no other row and sends no other message. |
| Dispatcher.StepKeepsIds | app/dispatcher.py:105-115 | Every step keeps "a stored message id names a message published for that row's own id". |
| Dispatcher.EveryStoredIdWasPublished | app/dispatcher.py:42-190 | The same over every interleaving of dispatcher steps, failures and arbitrary worker steps. |
| Dispatcher.FinishedUntilElsewhere | app/dispatcher.py:42-190 | Over any run of dispatcher steps, deleted rows and rows neither pending nor running stay as they were and no row is added. |
| Dispatcher.StartupLeavesNoneRunning | app/dispatcher.py:48-66 | After startup no undeleted row is running, and the pump can take exactly the undeleted rows that were pending or running. |
| Dispatcher.RestartHolds | app/dispatcher.py:42-190 | After a startup and any further dispatcher steps, no undeleted row is running and every undeleted pending row is still to be published or stores the id of a message once published for it. |
| Dispatcher.LostMessageWaitsForRestart | app/dispatcher.py:42-190 | Without a startup the dispatcher never touches a pending row with a stored id, so one whose message is lost waits; the next startup makes it eligible again. |
| Dispatcher.ScanLeavesTheLiving | app/dispatcher.py:152-180 | After a scan an undeleted row still running is reported active with a heartbeat within the threshold; every other one is eligible again. |
| Dispatcher.ScanHolds | app/dispatcher.py:86-190 | Through any further dispatcher steps the undeleted running rows remain among those the scan found alive. |
| Dispatcher.PumpIsOldestFirst | app/dispatcher.py:94-115 | Even when an attempt fails, no row left eligible is older than one that was published. |
| Dispatcher.PumpAddsNoneAhead | app/dispatcher.py:94-115 | No pump puts a row ahead of another. |
| Dispatcher.CleanPumpTakesABatch | app/dispatcher.py:94-115 | A failure-free pump that leaves a row waiting takes a whole batch of those ahead of it. |
| Dispatcher.CleanPumpPublishes | app/dispatcher.py:94-115 | A failure-free pump publishes, under a stored id, an eligible row with less than a batch ahead of it. |
| Dispatcher.BoundedWait | app/dispatcher.py:94-115 | While a row waits and no new row joins ahead of it, at most floor(ahead / batch) failure-free pumps go by. |
| Dispatcher.PublishedInTime | app/dispatcher.py:94-115 | When floor(ahead / batch) failure-free pumps have gone by, the next one publishes it. |
| Review.CheckVoting | app/pipeline/helpers.py:426-434 | The loop counts the passes and applies the mode; any other mode name means "all". |
| Review.PassesCounts | app/pipeline/helpers.py:428 | The count is the number of judges who passed. |
| Review.VoteIs | app/pipeline/helpers.py:426-434 | For the judges' own number: "any" is some judge passing, "majority" more judges passing than not, every other mode all of them passing. |
| Review.LooseningKeepsTheVoteIff | app/pipeline/helpers.py:426-434 | Loosening the mode keeps every passing vote, from "all" only if there is a judge. |
| Review.NoJudgePassesAllOnly | app/pipeline/helpers.py:426-434 | Without a judge "all" passes, "majority" and "any" do not. |
| Review.ClassifyStage.Execute | app/pipeline/s1_classify.py:290-594 | Returns at the first round >= min_rounds whose vote passes, else in the last round only under treat_as_passed, else fails; only the deletions of the returning round are archived. |
| Review.ClassifyStage.ArchiveDeleted | app/pipeline/s1_classify.py:171-182 | The proposed deletions are appended to deleted.list and the draft is removed. |
| Review.LooseningNeverDelays | app/pipeline/s1_classify.py:483-540 | For the same verdicts a looser mode never accepts later and never fails where the stricter one passes. |
| Review.OneOutcome | app/pipeline/s1_classify.py:290-594 | Verdicts and configuration determine the outcome. |
| Review.Corrections | app/pipeline/s1_security_filter.py:308-336 | An item counts for the section of the last title above it; corrections exist if and only if an item stands below a title. |
| Review.FilterStage.Execute | app/pipeline/s1_security_filter.py:127-413 | Accepts at the first round >= min_rounds that passes the vote with no item below a title of the feedback, fails in the first round without judges, else ends with the stage error; on acceptance the entries archived are those of the backup's modules that are gone, and kept and archived entries together are the backup's, with multiplicity, if and only if the kept modules list what they listed; otherwise nothing is archived and the backup stays. |
| Review.WholeKeepsUnchanged | app/pipeline/s1_security_filter.py:44-50 | Workers that only delete whole modules or bring them back meet that condition. |
| Review.CorrectionsKeepWhole | app/pipeline/s1_security_filter.py:196-206 | Deleting modules and copying others back from the backup keeps modules whole. |
| Review.FollowersStayWhole | app/pipeline/s1_security_filter.py:196-206 | So do all rounds of Workers that each delete and copy back, starting from what the round before left. |
| Review.FollowersKeepEveryFile | app/pipeline/s1_security_filter.py:127-413 | A stage run with such Workers, whatever the Judges say: when it is accepted, kept and archived entries together are those of the backup. |
| Review.ShortenedListLosesFile | app/pipeline/s1_security_filter.py:366-385 | A stage run, accepted in its first round, whose Worker takes a file out of a kept list: the file is neither listed nor archived. |

## Left out

- RecordRound: the fields of a record that are only carried through (times, status, models, feedback excerpts, artifact paths) are one value; token counts are whole numbers and costs real numbers, without floating-point rounding.
- TotalUsage: of the summary only the usage total is modelled, not its averages and rates.
- RunWithContextOverflowRecovery: one compaction is one outcome; the retries inside the compact command are not modelled, and the preflight limit is taken with no proxy reserve, as the loop calls it.
- RunWithPiRetry: the inner API retry is one start with an arbitrary outcome; it ignores its own maximum, so nothing is claimed about its termination.
- ReadLoop: decoding bytes to text is not modelled; lines are byte sequences. A file descriptor that cannot be read at all is a failing select.
- ValidateFilterOutputs: name cleaning is a parameter, so the accepted names are those with distinct, non-empty images under it.
- BuildModuleDependencyGraph: symbol normalisation, library stems, source keys and external-key rules are parameters; node risk fields and persistence are left out.
- FindModuleBoundary: case folding, the tables of meaningless and structural names and the shared-library patterns are parameters.
- HistogramQuantile: counts and bounds are real numbers, without floating-point rounding.
- ParseOfPrint: labels are a list of pairs; with the distinct keys that the printer is given this list is the dictionary.
- ParseMetrics: which characters are digits and which texts are numbers are parameters; the value of a row is its text, the family name and the decoding of bytes are left out.
- DocumentRoundTripIff: the constant comment lines between the rows, which the reader skips, are not part of the printed text.
- StaleOnce: revoking the message of a row that is handed back, whose failure is ignored, is not modelled.
- PumpOnce: the query, publish and commit outcomes are parameters; rows of equal age may come in any order.
- Corrections: which feedback lines are titles, items or neither is an input.
- ClassifyStage.Execute: the shortcut for modules already produced by the agent filter, prompts and evaluation records are left out; deleted/ is its list.
- FilterStage.Execute: a module directory is its list, a missing list being empty.
- DiscoverModules: directories below the second level and failing moves are not modelled.
- CommitOneModule: lists are sets of entries, so their order is not modelled; the commit worker's removal of a directory without a list is part of the commit, and its queueing of targets is the separate step of entering.
- StepKeepsIff: agents leave snapshots alone, and no agent is at work on a module while an earlier commit of the same module runs.
- Of app/pipeline/s2_refine.py: prompts, summaries, the Judges' rounds, the final completeness check and the mode that skips stages.
- Writing and cleaning of filter outputs on disk, discovery of tree nodes, prompts, LLM calls, subprocess and signal handling, session files.
- SQL isolation inside one dispatcher step, time zones, file-system errors other than the crash points and failures named above.
- REST routes, health probes, configuration loading, metric aggregation over rows, report rendering.
