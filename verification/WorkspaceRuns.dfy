/** Whole runs of the module workspace, with any number of modules in progress. */
module WorkspaceRuns {
  import opened Results
  import opened Ordering
  import opened Sequences
  import opened Workspace
  import opened ZeroOmission

  /** The disk and the modules whose agents are at work. */
  datatype Sys = Sys(disk: Disk, active: set<Name>)

  /** A draft leaves the module directory in any state at all, removal included. A finish ends the work on a
      module whose commit found no split/ to apply. */
  datatype Step =
    | Begin(m: Name)
    | Draft(m: Name, dir: Option<ModuleDir>)
    | Recover(m: Name)
    | Restore(m: Name)
    | Commit(m: Name)
    | Finish(m: Name)
    | Archive(m: Name)

  /** The first snapshot of a module copies its files.list; an existing one is kept. */
  function SnapshotDisk(s: Disk, m: Name): Disk {
    if m in s.snapshots then s
    else s.(snapshots := s.snapshots[m := ReadModuleFiles(DirOr(s.modules, m))])
  }

  function DraftDisk(s: Disk, m: Name, dir: Option<ModuleDir>): Disk {
    s.(modules := if dir.Some? then s.modules[m := dir.value] else s.modules - {m})
  }

  function Next(y: Sys, step: Step): Sys {
    match step
    case Begin(m) => Sys(SnapshotDisk(y.disk, m), y.active + {m})
    case Draft(m, dir) => y.(disk := DraftDisk(y.disk, m, dir))
    case Recover(m) => y.(disk := RecoverDisk(y.disk, m))
    case Restore(m) => y.(disk := RestoreDisk(y.disk, m))
    case Commit(m) =>
      Sys(CommitDisk(y.disk, m), if CommitApplies(y.disk, m) then y.active - {m} else y.active)
    case Finish(m) => y.(active := y.active - {m})
    case Archive(m) => y.(disk := ArchiveDisk(y.disk, m))
  }

  /** The snapshot a module starts with is its files.list, and no earlier deletion of it waits elsewhere. */
  predicate FreshSnapshot(s: Disk, m: Name) {
    SnapshotOf(SnapshotDisk(s, m), m) == FilesOf(s.modules, m) && DeletedOf(s.modules, m) <= FilesOf(s.modules, m)
  }

  /** The plan does not merge into its own parent and writes into no other module in progress. */
  predicate CommitGuard(y: Sys, m: Name) {
    HasSplit(y.disk, m) ==>
      var split := y.disk.modules[m].split.value;
      m !in MergeMap(split) && (ChildMap(split).Keys + MergeMap(split).Keys) * (y.active - {m}) == {}
  }

  function Run(y: Sys, steps: seq<Step>): Sys
    decreases |steps|
  {
    if steps == [] then y else Run(Next(y, steps[0]), steps[1..])
  }

  /** What a module answers for: its snapshot while in progress, else its files and unarchived deletions. */
  ghost function Holds(y: Sys, t: Name): set<File> {
    if t in y.active then SnapshotOf(y.disk, t) else FilesOf(y.disk.modules, t) + DeletedOf(y.disk.modules, t)
  }

  ghost predicate Accounted(y: Sys, f: File) {
    f in y.disk.deletedList || exists t :: f in Holds(y, t)
  }

  ghost function Account(y: Sys): set<File> {
    (set t, f | t in y.disk.modules.Keys + y.active && f in Holds(y, t) :: f) + SetOf(y.disk.deletedList)
  }

  /** The files of m's plan that reach module t when t is the parent or at rest. */
  ghost function Landed(y: Sys, m: Name, t: Name): set<File>
    requires HasSplit(y.disk, m)
  {
    if t == m then Share(ChildMap(y.disk.modules[m].split.value), m) + DeletedOf(y.disk.modules, m)
    else if t in y.active then {} else Added(y.disk, m, t)
  }

  /** The files of m's plan that are merged into m itself or sent to another module in progress. */
  ghost function Stray(y: Sys, m: Name): set<File>
    requires HasSplit(y.disk, m)
  {
    Share(MergeMap(y.disk.modules[m].split.value), m)
    + (set t, f | t in y.active - {m} && f in Added(y.disk, m, t) :: f)
  }

  ghost predicate Lands(y: Sys, m: Name, f: File)
    requires HasSplit(y.disk, m)
  {
    exists t :: f in Landed(y, m, t)
  }

  ghost predicate Elsewhere(y: Sys, m: Name, f: File) {
    f in y.disk.deletedList || exists t :: t != m && f in Holds(y, t)
  }

  /** What a module lists and proposes to delete differs from its snapshot only in files held elsewhere. */
  ghost predicate FinishGuard(y: Sys, m: Name) {
    var snap, left := SnapshotOf(y.disk, m), FilesOf(y.disk.modules, m) + DeletedOf(y.disk.modules, m);
    forall f | f in (snap - left) + (left - snap) :: Elsewhere(y, m, f)
  }

  /** The deletions of a module still in progress are files already accounted for. */
  ghost predicate ArchiveGuard(y: Sys, m: Name) {
    m in y.active ==> forall f | f in DeletedOf(y.disk.modules, m) :: Accounted(y, f)
  }

  /** The snapshot that a module starts with differs from what it lists and proposes to delete only in files
      held elsewhere. */
  ghost predicate BeginGuard(y: Sys, m: Name) {
    var own, snap := Holds(y, m), SnapshotOf(SnapshotDisk(y.disk, m), m);
    forall f | f in (own - snap) + (snap - own) :: Elsewhere(y, m, f)
  }

  /** Every stray file of the plan is held elsewhere or also lands somewhere. */
  ghost predicate StrayGuard(y: Sys, m: Name) {
    CommitApplies(y.disk, m) ==> forall f | f in Stray(y, m) :: Elsewhere(y, m, f) || Lands(y, m, f)
  }

  /** The order of the steps: a module starts with a non-empty snapshot, is drafted, recovered, restored and
      committed while in progress, and is finished when there is no split/ to apply. */
  predicate Enabled(y: Sys, step: Step) {
    match step
    case Begin(m) => m !in y.active && SnapshotOf(SnapshotDisk(y.disk, m), m) != {}
    case Draft(m, _) => m in y.active
    case Recover(m) => m in y.active
    case Restore(m) => m in y.active
    case Commit(m) => m in y.active
    case Finish(m) => m in y.active && !HasSplit(y.disk, m)
    case Archive(m) => true
  }

  /** The condition under which a step keeps the account. */
  ghost predicate Harmless(y: Sys, step: Step) {
    match step
    case Begin(m) => BeginGuard(y, m)
    case Commit(m) => StrayGuard(y, m)
    case Finish(m) => FinishGuard(y, m)
    case Archive(m) => ArchiveGuard(y, m)
    case _ => true
  }

  predicate EnabledRun(y: Sys, steps: seq<Step>)
    decreases |steps|
  {
    steps == [] || (Enabled(y, steps[0]) && EnabledRun(Next(y, steps[0]), steps[1..]))
  }

  ghost predicate HarmlessRun(y: Sys, steps: seq<Step>)
    decreases |steps|
  {
    steps == [] || (Harmless(y, steps[0]) && HarmlessRun(Next(y, steps[0]), steps[1..]))
  }

  lemma AccountMember(y: Sys, f: File)
    ensures f in Account(y) <==> Accounted(y, f)
  {
  }

  ghost predicate Inv(y: Sys) {
    forall m | m in y.active :: SnapshotOf(y.disk, m) != {}
  }

  ghost predicate SameHoldings(y: Sys, z: Sys) {
    y.disk.deletedList == z.disk.deletedList && forall t :: Holds(y, t) == Holds(z, t)
  }

  lemma SameHoldingsSameAccount(y: Sys, z: Sys)
    requires SameHoldings(y, z)
    ensures Account(y) == Account(z)
  {
  }

  lemma LocalStepHoldings(y: Sys, step: Step)
    requires Enabled(y, step) && (step.Draft? || step.Recover? || step.Restore?)
    ensures SameHoldings(y, Next(y, step))
  {
  }

  lemma ArchivedList(s: Disk, m: Name)
    ensures Elems(ArchiveDisk(s, m).deletedList) == Elems(s.deletedList) + DeletedOf(s.modules, m)
  {
    if m in s.modules { ElemsConcat(s.deletedList, ReadDeleted(s.modules[m])); }
  }

  lemma ArchivedHoldings(y: Sys, m: Name, t: Name)
    ensures var z := Next(y, Archive(m));
            && Holds(z, t) + Elems(z.disk.deletedList) == Holds(y, t) + Elems(z.disk.deletedList)
            && (m in y.active ==> Holds(z, t) == Holds(y, t))
  {
    ArchivedList(y.disk, m);
  }

  lemma ArchivedAccounted(y: Sys, m: Name, f: File)
    ensures Accounted(Next(y, Archive(m)), f) <==> Accounted(y, f) || f in DeletedOf(y.disk.modules, m)
  {
    var z := Next(y, Archive(m));
    ArchivedList(y.disk, m);
    assert f in z.disk.deletedList <==> f in Elems(z.disk.deletedList);
    assert f in y.disk.deletedList <==> f in Elems(y.disk.deletedList);
    if t :| f in Holds(z, t) { ArchivedHoldings(y, m, t); }
    if t :| f in Holds(y, t) { ArchivedHoldings(y, m, t); }
  }

  lemma RestDeletionsAccounted(y: Sys, m: Name, f: File)
    requires m !in y.active && f in DeletedOf(y.disk.modules, m)
    ensures Accounted(y, f)
  {
    assert f in Holds(y, m);
  }

  /** Archiving keeps the account, for a module in progress exactly when the files it archives are already
      accounted for. */
  lemma ArchiveExact(y: Sys, m: Name)
    ensures Account(Next(y, Archive(m))) == Account(y) <==> ArchiveGuard(y, m)
  {
    forall f ensures f in Account(Next(y, Archive(m))) <==> f in Account(y) || f in DeletedOf(y.disk.modules, m) {
      AccountMember(y, f);
      AccountMember(Next(y, Archive(m)), f);
      ArchivedAccounted(y, m, f);
    }
    forall f | f in DeletedOf(y.disk.modules, m) && m !in y.active ensures Accounted(y, f) {
      RestDeletionsAccounted(y, m, f);
    }
    forall f ensures f in Account(y) <==> Accounted(y, f) { AccountMember(y, f); }
  }

  /** Only what m holds differs between y and z. */
  ghost predicate SameButFor(y: Sys, z: Sys, m: Name) {
    y.disk.deletedList == z.disk.deletedList && forall t :: t != m ==> Holds(z, t) == Holds(y, t)
  }

  /** When the holdings of one module change, the account stays exactly when whatever it gains or loses is
      held elsewhere. */
  lemma OneHoldingChanges(y: Sys, z: Sys, m: Name)
    requires SameButFor(y, z, m)
    ensures Account(z) == Account(y)
       <==> forall f | f in (Holds(y, m) - Holds(z, m)) + (Holds(z, m) - Holds(y, m)) :: Elsewhere(y, m, f)
  {
    forall f ensures (f in Account(y) <==> Elsewhere(y, m, f) || f in Holds(y, m))
                  && (f in Account(z) <==> Elsewhere(y, m, f) || f in Holds(z, m)) {
      AccountMember(y, f);
      AccountMember(z, f);
      AccountedByParent(y, m, f);
      AccountedByParent(z, m, f);
      SameElsewhere(y, z, m, f);
    }
  }

  lemma SameElsewhere(y: Sys, z: Sys, m: Name, f: File)
    requires SameButFor(y, z, m)
    ensures Elsewhere(y, m, f) <==> Elsewhere(z, m, f)
  {
    if t :| t != m && f in Holds(y, t) { assert f in Holds(z, t); }
    if t :| t != m && f in Holds(z, t) { assert f in Holds(y, t); }
  }

  /** Starting a module keeps the account exactly when its snapshot and its own files and deletions differ only
      in files held elsewhere. */
  lemma BeginExact(y: Sys, m: Name)
    requires m !in y.active
    ensures Account(Next(y, Begin(m))) == Account(y) <==> BeginGuard(y, m)
  {
    OneHoldingChanges(y, Next(y, Begin(m)), m);
  }

  /** Ending the work on a module keeps the account exactly when its snapshot and what it lists or proposes to
      delete differ only in files held elsewhere. No check of the code asks for this when there is no split/. */
  lemma FinishExact(y: Sys, m: Name)
    requires m in y.active
    ensures Account(Next(y, Finish(m))) == Account(y) <==> FinishGuard(y, m)
  {
    OneHoldingChanges(y, Next(y, Finish(m)), m);
  }

  /** The system after an accepted commit of m. */
  ghost function CommittedSys(y: Sys, m: Name): Sys
    requires HasSplit(y.disk, m)
  {
    Sys(Disk(CommittedModules(y.disk, m), CommittedSnapshots(y.disk, m), y.disk.deletedList), y.active - {m})
  }

  lemma NextCommit(y: Sys, m: Name)
    ensures Next(y, Commit(m)) == if CommitApplies(y.disk, m) then CommittedSys(y, m) else y
    ensures CommitResult(y.disk, m) == Ok(CommitInfo(false, [], [], false)) || CommitResult(y.disk, m).Err?
       <==> !CommitApplies(y.disk, m)
  {
  }

  lemma CommitHoldings(y: Sys, m: Name, t: Name)
    requires Inv(y) && m in y.active && HasSplit(y.disk, m)
    ensures Holds(CommittedSys(y, m), t) == (if t == m then {} else Holds(y, t)) + Landed(y, m, t)
  {
    if t in y.active && t != m {
      assert t in y.disk.snapshots;
      CommitKeepsSnapshot(y.disk, m, t);
    } else {
      CommittedFiles(y.disk, m, t);
    }
  }

  lemma CommitKeepsSnapshot(s: Disk, m: Name, t: Name)
    requires HasSplit(s, m) && t in s.snapshots
    ensures t in CommittedSnapshots(s, m) && CommittedSnapshots(s, m)[t] == s.snapshots[t]
  {
  }

  lemma CommittedAccounted(y: Sys, m: Name, f: File)
    requires Inv(y) && m in y.active && HasSplit(y.disk, m)
    ensures Accounted(CommittedSys(y, m), f) <==> Elsewhere(y, m, f) || Lands(y, m, f)
  {
    var z := CommittedSys(y, m);
    if t :| f in Holds(z, t) { CommitHoldings(y, m, t); }
    if t :| t != m && f in Holds(y, t) { CommitHoldings(y, m, t); assert f in Holds(z, t); }
    if t :| f in Landed(y, m, t) { CommitHoldings(y, m, t); assert f in Holds(z, t); }
  }

  lemma AccountedByParent(y: Sys, m: Name, f: File)
    ensures Accounted(y, f) <==> Elsewhere(y, m, f) || f in Holds(y, m)
  {
  }

  /** Every file of the plan lands or strays, and every landed file is covered by the plan. */
  lemma PlanLandsOrStrays(y: Sys, m: Name, f: File)
    requires HasSplit(y.disk, m)
    ensures f in Covered(y.disk.modules[m].split.value, DeletedOf(y.disk.modules, m))
       <==> f in Stray(y, m) || Lands(y, m, f)
  {
    var cm, mm := ChildMap(y.disk.modules[m].split.value), MergeMap(y.disk.modules[m].split.value);
    if t :| f in Landed(y, m, t) {
    } else if f in UnionOf(cm) {
      var t :| t in cm && f in cm[t];
      assert f in Added(y.disk, m, t) && f !in Landed(y, m, t);
    } else if f in UnionOf(mm) {
      var t :| t in mm && f in mm[t];
      assert f in Added(y.disk, m, t) && f !in Landed(y, m, t);
    } else {
      assert f !in Landed(y, m, m);
    }
  }

  /** An accepted commit keeps everything accounted for exactly when each stray file is accounted for
      elsewhere or also lands somewhere. */
  lemma CommitAccountExact(y: Sys, m: Name)
    requires Inv(y) && m in y.active && CommitApplies(y.disk, m)
    ensures Account(Next(y, Commit(m))) == Account(y)
       <==> forall f | f in Stray(y, m) :: Elsewhere(y, m, f) || Lands(y, m, f)
  {
    NextCommit(y, m);
    var z := CommittedSys(y, m);
    forall f ensures f in Account(y) <==> Elsewhere(y, m, f) || f in Stray(y, m) || Lands(y, m, f) {
      AccountMember(y, f);
      AccountedByParent(y, m, f);
      PlanLandsOrStrays(y, m, f);
    }
    forall f ensures f in Account(z) <==> Elsewhere(y, m, f) || Lands(y, m, f) {
      AccountMember(z, f);
      CommittedAccounted(y, m, f);
    }
  }

  /** A plan that does not merge into its own parent and writes into no other module in progress is harmless. */
  lemma GuardedPlanIsHarmless(y: Sys, m: Name)
    requires m in y.active && CommitGuard(y, m)
    ensures StrayGuard(y, m)
  {
  }

  /** So is the start of a module whose snapshot is its files.list, with no deletion outside it. */
  lemma FreshSnapshotIsHarmless(y: Sys, m: Name)
    requires m !in y.active && FreshSnapshot(y.disk, m)
    ensures BeginGuard(y, m)
  {
  }

  lemma StepKeepsInv(y: Sys, step: Step)
    requires Inv(y) && Enabled(y, step)
    ensures Inv(Next(y, step))
  {
  }

  /** A step keeps everything accounted for exactly when it is harmless. */
  lemma StepKeepsAccountIff(y: Sys, step: Step)
    requires Inv(y) && Enabled(y, step)
    ensures Account(Next(y, step)) == Account(y) <==> Harmless(y, step)
  {
    match step
    case Begin(m) => BeginExact(y, m);
    case Commit(m) =>
      if CommitApplies(y.disk, m) { CommitAccountExact(y, m); } else { NextCommit(y, m); }
    case Finish(m) => FinishExact(y, m);
    case Archive(m) => ArchiveExact(y, m);
    case _ =>
      LocalStepHoldings(y, step);
      SameHoldingsSameAccount(y, Next(y, step));
  }

  /** No step of the run changes the account. */
  ghost predicate AlwaysAccounted(y: Sys, steps: seq<Step>)
    decreases |steps|
  {
    steps == [] || (Account(Next(y, steps[0])) == Account(y) && AlwaysAccounted(Next(y, steps[0]), steps[1..]))
  }

  /** Zero omission: over every run, whatever the agents draft, the files of the modules at rest, the snapshots
      of the modules in progress, the unarchived deletions and deleted.list together stay the same set of
      files, throughout, exactly when every step is harmless. */
  lemma {:induction false} NothingIsLostIff(y: Sys, steps: seq<Step>)
    requires Inv(y) && EnabledRun(y, steps)
    ensures AlwaysAccounted(y, steps) <==> HarmlessRun(y, steps)
    ensures HarmlessRun(y, steps) ==> Account(Run(y, steps)) == Account(y)
    ensures Inv(Run(y, steps))
    decreases |steps|
  {
    if steps != [] {
      StepKeepsInv(y, steps[0]);
      StepKeepsAccountIff(y, steps[0]);
      NothingIsLostIff(Next(y, steps[0]), steps[1..]);
    }
  }

  ghost function ListedFiles(s: Disk): set<File> {
    set t, f | t in s.modules && f in FilesOf(s.modules, t) :: f
  }

  predicate AtRest(y: Sys) {
    y.active == {} && forall t | t in y.disk.modules :: y.disk.modules[t].deleted.None?
  }

  lemma OneStep(y: Sys, step: Step, rest: seq<Step>)
    ensures Run(y, [step] + rest) == Run(Next(y, step), rest)
    ensures EnabledRun(y, [step] + rest) <==> Enabled(y, step) && EnabledRun(Next(y, step), rest)
    ensures HarmlessRun(y, [step] + rest) <==> Harmless(y, step) && HarmlessRun(Next(y, step), rest)
  {
    assert ([step] + rest)[1..] == rest;
  }

  /** A module without a split/, whose files and deletions are its snapshot, is finished and archived. */
  lemma UnsplitModuleEnds(y: Sys, m: Name)
    requires y.active == {m} && m in y.disk.modules && y.disk.modules[m].split.None?
    requires FilesOf(y.disk.modules, m) + DeletedOf(y.disk.modules, m) == SnapshotOf(y.disk, m)
    requires forall t | t in y.disk.modules && t != m :: y.disk.modules[t].deleted.None?
    ensures var steps := [Commit(m), Finish(m), Archive(m)];
            EnabledRun(y, steps) && HarmlessRun(y, steps) && AtRest(Run(y, steps))
  {
    var z := Next(y, Finish(m));
    assert Next(y, Commit(m)) == y;
    assert FinishGuard(y, m) && AtRest(Next(z, Archive(m)));
    OneStep(z, Archive(m), []);
    OneStep(y, Finish(m), [Archive(m)]);
    OneStep(y, Commit(m), [Finish(m), Archive(m)]);
  }

  /** An unsplit module comes to rest: whatever it keeps and deletes of its files, its commit finds no split/,
      its deletions are archived, and the workspace is at rest again. */
  lemma UnsplitModuleRests(y: Sys, m: Name, kept: seq<File>, gone: seq<File>)
    requires AtRest(y) && FilesOf(y.disk.modules, m) != {} && FreshSnapshot(y.disk, m)
    requires Elems(kept) + Elems(gone) == FilesOf(y.disk.modules, m)
    ensures var dir := ModuleDir(Some(kept), None, Some(DeletedDir(Some(gone))), None);
            var steps := [Begin(m), Draft(m, Some(dir)), Commit(m), Finish(m), Archive(m)];
            EnabledRun(y, steps) && HarmlessRun(y, steps) && AtRest(Run(y, steps))
  {
    var draft := Draft(m, Some(ModuleDir(Some(kept), None, Some(DeletedDir(Some(gone))), None)));
    var y1 := Next(y, Begin(m));
    FreshSnapshotIsHarmless(y, m);
    UnsplitModuleEnds(Next(y1, draft), m);
    OneStep(y1, draft, [Commit(m), Finish(m), Archive(m)]);
    OneStep(y, Begin(m), [draft, Commit(m), Finish(m), Archive(m)]);
  }

  /** From rest to rest, every file is listed by a module or archived in deleted.list. */
  lemma RestToRest(y: Sys, steps: seq<Step>)
    requires AtRest(y) && EnabledRun(y, steps) && HarmlessRun(y, steps) && AtRest(Run(y, steps))
    ensures var z := Run(y, steps);
            ListedFiles(z.disk) + Elems(z.disk.deletedList) == ListedFiles(y.disk) + Elems(y.disk.deletedList)
  {
    NothingIsLostIff(y, steps);
    AccountAtRest(y);
    AccountAtRest(Run(y, steps));
  }

  lemma AccountAtRest(y: Sys)
    requires AtRest(y)
    ensures Account(y) == ListedFiles(y.disk) + Elems(y.disk.deletedList)
  {
    forall f ensures f in Account(y) <==> f in ListedFiles(y.disk) + Elems(y.disk.deletedList) {
      AccountMember(y, f);
      if t :| f in Holds(y, t) { assert t in y.disk.modules && f in FilesOf(y.disk.modules, t); }
      if t :| t in y.disk.modules && f in FilesOf(y.disk.modules, t) { assert f in Holds(y, t); }
    }
  }

  // ---------- retries ----------

  /** What a retry loop may do with m between its start and its commit. */
  predicate LocalTo(m: Name, step: Step) {
    (step.Draft? || step.Recover? || step.Restore?) && step.m == m
  }

  lemma {:induction false} LocalRun(y: Sys, m: Name, steps: seq<Step>)
    requires forall step | step in steps :: LocalTo(m, step)
    ensures var z := Run(y, steps);
            && z.active == y.active && z.disk.snapshots == y.disk.snapshots && z.disk.deletedList == y.disk.deletedList
            && z.disk.modules - {m} == y.disk.modules - {m}
    decreases |steps|
  {
    if steps != [] {
      var z := Next(y, steps[0]);
      assert LocalTo(m, steps[0]);
      assert z.disk.modules - {m} == y.disk.modules - {m};
      LocalRun(z, m, steps[1..]);
    }
  }

  /** However many drafts, recoveries and restores ran, one more restore brings the workspace back to the
      state at the start, up to a recover/ directory that the last draft left in m. */
  lemma RestoreUndoesDrafts(y: Sys, m: Name, steps: seq<Step>)
    requires m in y.disk.modules && m in y.disk.snapshots
    requires forall step | step in steps :: LocalTo(m, step)
    ensures var z := RestoreDisk(Run(y, steps).disk, m);
            && z.modules.Keys == y.disk.modules.Keys
            && z.modules[m] == ModuleDir(Some(y.disk.snapshots[m]), None, None, z.modules[m].recover)
            && (forall t | t in z.modules && t != m :: z.modules[t] == y.disk.modules[t])
            && z.snapshots == y.disk.snapshots && z.deletedList == y.disk.deletedList
  {
    LocalRun(y, m, steps);
    var r := Run(y, steps).disk;
    assert r.modules.Keys - {m} == (r.modules - {m}).Keys == (y.disk.modules - {m}).Keys == y.disk.modules.Keys - {m};
    assert RestoreDisk(r, m).modules.Keys == (r.modules.Keys - {m}) + {m} == y.disk.modules.Keys;
    forall t | t in r.modules && t != m ensures t in y.disk.modules && r.modules[t] == y.disk.modules[t] {
      assert t in r.modules.Keys - {m};
      assert r.modules[t] == (r.modules - {m})[t];
      assert y.disk.modules[t] == (y.disk.modules - {m})[t];
    }
  }

  /** Recovery moves entries: nothing is dropped, and nothing is added exactly when the Judge recovers
      only files the Worker still lists or deleted. */
  lemma RecoverConserves(d: ModuleDir)
    ensures var before := Elems(ReadModuleFiles(d)) + Elems(ReadDeleted(d));
            var after := Elems(ReadModuleFiles(RecoveredDir(d))) + Elems(ReadDeleted(RecoveredDir(d)));
            && before <= after
            && (after == before <==> Elems(d.recover.GetOr([])) <= before)
    ensures d.recover.Some? ==>
              Elems(ReadDeleted(RecoveredDir(d))) == Elems(ReadDeleted(d)) - Elems(d.recover.value)
  {
    if d.recover.Some? {
      ElemsConcat(ReadModuleFiles(d), d.recover.value);
      if d.recover.value != [] && d.deleted.Some? && d.deleted.value.list.Some? {
        assert ReadDeleted(RecoveredDir(d)) == Without(ReadDeleted(d), SetOf(d.recover.value));
      }
    }
  }

  lemma {:induction false} WithoutCounts(files: seq<File>, gone: set<File>, f: File)
    ensures multiset(Without(files, gone))[f] == if f in gone then 0 else multiset(files)[f]
  {
    if files != [] {
      WithoutCounts(files[1..], gone, f);
      var rest := Without(files[1..], gone);
      assert files == [files[0]] + files[1..];
      assert multiset(files) == multiset{files[0]} + multiset(files[1..]);
      assert multiset([files[0]] + rest) == multiset{files[0]} + multiset(rest);
    }
  }

  lemma DeletedAfterRecoverIs(files: seq<File>, recovered: set<File>, f: File)
    ensures var e := DeletedAfterRecover(Some(DeletedDir(Some(files))), recovered);
            && (e.None? <==> Elems(files) <= recovered)
            && (e.Some? ==> e.value.list == Some(Without(files, recovered)))
            && (e.None? ==> multiset(Without(files, recovered))[f] == 0)
  {
    var left := Without(files, recovered);
    if left != [] {
      assert left[0] in Elems(left);
    } else {
      forall g | g in Elems(files) ensures g in recovered { assert g in recovered || g in Elems(left); }
    }
  }

  /** Entry by entry: files.list gains the recovered entries at its end and deleted/ loses them; split/ stays, and a
      second recovery finds no recover/ any more. */
  lemma RecoverMoves(d: ModuleDir, f: File)
    ensures var e, rec := RecoveredDir(d), d.recover.GetOr([]);
            && ReadModuleFiles(d) <= ReadModuleFiles(e)
            && multiset(ReadModuleFiles(e))[f] == multiset(ReadModuleFiles(d))[f] + multiset(rec)[f]
            && multiset(ReadDeleted(e))[f] == (if f in rec then 0 else multiset(ReadDeleted(d))[f])
            && e.split == d.split && RecoveredDir(e) == e
  {
    if d.recover.Some? && d.recover.value != [] {
      var recovered := SetOf(d.recover.value);
      assert multiset(ReadModuleFiles(d) + d.recover.value) == multiset(ReadModuleFiles(d)) + multiset(d.recover.value);
      assert f in recovered <==> f in d.recover.value;
      if d.deleted.Some? && d.deleted.value.list.Some? {
        WithoutCounts(d.deleted.value.list.value, recovered, f);
        DeletedAfterRecoverIs(d.deleted.value.list.value, recovered, f);
      }
    }
  }

  /** A deleted/ with a list goes when all its entries are recovered. */
  lemma RecoveredDeletions(d: ModuleDir)
    requires d.recover.GetOr([]) != [] && d.deleted.Some? && d.deleted.value.list.Some?
    ensures RecoveredDir(d).deleted.None? <==> forall f | f in ReadDeleted(d) :: f in d.recover.value
  {
    DeletedAfterRecoverIs(d.deleted.value.list.value, SetOf(d.recover.value), []);
    assert forall f :: f in ReadDeleted(d) <==> f in Elems(ReadDeleted(d));
  }

  /** Archiving puts the entries of deleted/ at the end of deleted.list, in order and with repeats, and does it
      only once. */
  lemma ArchivedOnce(s: Disk, m: Name)
    ensures var z := ArchiveDisk(s, m);
            && s.deletedList <= z.deletedList && z.deletedList[|s.deletedList|..] == ReadDeleted(DirOr(s.modules, m))
            && z.snapshots == s.snapshots && z.modules.Keys == s.modules.Keys
            && (forall t | t in z.modules :: z.modules[t] == if t == m then s.modules[t].(deleted := None)
                                                             else s.modules[t])
            && ArchiveDisk(z, m) == z
  {
  }

  // ---------- what the guards are for ----------

  /** A target that already has a snapshot is not given a new one: of the files merged into it, its next
      restore keeps exactly those that the old snapshot lists. */
  lemma StaleSnapshotDropsMergedFiles(s: Disk, m: Name, t: Name, f: File)
    requires CommitApplies(s, m) && t != m && t in s.snapshots && f in Added(s, m, t)
    ensures var z := CommitDisk(s, m);
            && f in FilesOf(z.modules, t)
            && (f in FilesOf(RestoreDisk(z, t).modules, t) <==> f in SnapshotOf(s, t))
            && (f !in SnapshotOf(s, t) ==> !FreshSnapshot(z, t))
  {
    CommittedFiles(s, m, t);
    CommitKeepsSnapshot(s, m, t);
  }

  /** Module a at work on the files w and x, of which its draft lists only w, without a split/. */
  function Shortened(a: Name, w: File, x: File): Sys {
    Sys(Disk(map[a := ModuleDir(Some([w]), None, None, None)], map[a := [w, x]], []), {a})
  }

  /** A draft that takes a file out of files.list and makes no split/ is committed without a check: the file is
      accounted for by the snapshot only until the module is finished, and then by nobody. */
  lemma FinishLoses(a: Name, w: File, x: File)
    requires w != x
    ensures var y := Shortened(a, w, x);
            && CommitResult(y.disk, a) == Ok(CommitInfo(false, [], [], false)) && CommitDisk(y.disk, a) == y.disk
            && x in Account(y) && x !in Account(Next(y, Finish(a)))
  {
    var y := Shortened(a, w, x);
    var z := Next(y, Finish(a));
    AccountMember(y, x);
    AccountMember(z, x);
    assert x in Holds(y, a);
    assert x in y.disk.snapshots[a];
  }

  /** Module a at work on the file w, with x in its deleted/. */
  function ForeignDeletion(a: Name, w: File, x: File): Sys {
    var dir := ModuleDir(Some([w]), None, Some(DeletedDir(Some([x]))), None);
    Sys(Disk(map[a := dir], map[a := [w]], []), {a})
  }

  /** Archiving the deletions of a module in progress adds a file that nobody held before. */
  lemma ArchiveAdds(a: Name, w: File, x: File)
    requires w != x
    ensures var y := ForeignDeletion(a, w, x);
            x !in Account(y) && x in Account(Next(y, Archive(a)))
  {
    var y := ForeignDeletion(a, w, x);
    AccountMember(y, x);
    AccountMember(Next(y, Archive(a)), x);
    ArchivedAccounted(y, a, x);
  }

  /** Module a holds and snapshots the one file x, with the given split plan. */
  function OneFile(a: Name, x: File, split: SplitDir): Disk {
    Disk(map[a := ModuleDir(Some([x]), Some(split), None, None)], map[a := [x]], [])
  }

  lemma OneFileApplies(a: Name, x: File, split: SplitDir)
    requires UnionOf(ChildMap(split)) + UnionOf(MergeMap(split)) == {x}
    ensures CommitApplies(OneFile(a, x, split), a) && SnapshotOf(OneFile(a, x, split), a) == {x}
  {
  }

  /** A covered file that lands nowhere and is held by nobody else leaves the account. */
  lemma StrayIsLost(y: Sys, m: Name, f: File)
    requires Inv(y) && m in y.active && CommitApplies(y.disk, m) && f in SnapshotOf(y.disk, m)
    requires !Elsewhere(y, m, f) && !Lands(y, m, f)
    ensures f in Account(y) && f !in Account(Next(y, Commit(m)))
  {
    AccountMember(y, f);
    assert f in Holds(y, m);
    NextCommit(y, m);
    AccountMember(CommittedSys(y, m), f);
    CommittedAccounted(y, m, f);
  }

  /** A plan that only merges a file back into its own parent passes the check and loses the file. */
  lemma SelfMergeLoses(a: Name, x: File)
    ensures var y := Sys(OneFile(a, x, SplitDir(map[], map[a := [x]])), {a});
            CommitApplies(y.disk, a) && x in Account(y) && x !in Account(Next(y, Commit(a)))
  {
    var split := SplitDir(map[], map[a := [x]]);
    var y := Sys(OneFile(a, x, split), {a});
    var mm := MergeMap(split);
    assert mm.Keys == {a} && mm[a] == {x};
    assert x in UnionOf(mm);
    OneFileApplies(a, x, split);
    StrayIsLost(y, a, x);
  }

  /** A plan that sends a file into another module in progress leaves it to that module's next restore. */
  lemma InProgressTargetLoses(a: Name, b: Name, x: File, w: File)
    requires a != b && x != w && !("_" <= b)
    ensures var one := OneFile(a, x, SplitDir(map[b := [x]], map[]));
            var y := Sys(one.(snapshots := one.snapshots[b := [w]]), {a, b});
            CommitApplies(y.disk, a) && x in Account(y) && x !in Account(Next(y, Commit(a)))
  {
    var split := SplitDir(map[b := [x]], map[]);
    var one := OneFile(a, x, split);
    var y := Sys(one.(snapshots := one.snapshots[b := [w]]), {a, b});
    var cm := ChildMap(split);
    assert cm.Keys == {b} && cm[b] == {x};
    assert x in UnionOf(cm);
    OneFileApplies(a, x, split);
    assert CommitApplies(y.disk, a) && SnapshotOf(y.disk, a) == {x};
    assert w in SnapshotOf(y.disk, b) && x in SnapshotOf(y.disk, a);
    StrayIsLost(y, a, x);
  }

  /** Modules a, with the plan to send its one file x to b, and b at rest, with w and a snapshot of it. */
  function StaleTarget(a: Name, b: Name, x: File, w: File): Disk {
    var one := OneFile(a, x, SplitDir(map[b := [x]], map[]));
    one.(modules := one.modules[b := ModuleDir(Some([w]), None, None, None)], snapshots := one.snapshots[b := [w]])
  }

  lemma PlanToOne(b: Name, x: File)
    requires !("_" <= b)
    ensures var split := SplitDir(map[b := [x]], map[]);
            && ChildMap(split) == map[b := {x}] && MergeMap(split) == map[]
            && UnionOf(ChildMap(split)) == {x} && UnionOf(MergeMap(split)) == {}
  {
    var cm := ChildMap(SplitDir(map[b := [x]], map[]));
    assert cm.Keys == {b} && cm[b] == {x};
    assert x in UnionOf(cm);
  }

  lemma StaleTargetApplies(a: Name, b: Name, x: File, w: File)
    requires a != b && !("_" <= b)
    ensures var s := StaleTarget(a, b, x, w);
            CommitApplies(s, a) && forall t :: Added(s, a, t) == if t == b then {x} else {}
  {
    PlanToOne(b, x);
    var s := StaleTarget(a, b, x, w);
    assert SnapshotOf(s, a) == {x};
    assert Covered(s.modules[a].split.value, DeletedOf(s.modules, a)) == {x};
  }

  lemma StaleTargetBefore(a: Name, b: Name, x: File, w: File, t: Name)
    requires a != b && t != a
    ensures FilesOf(StaleTarget(a, b, x, w).modules, t) == if t == b then {w} else {}
  {
  }

  lemma StaleTargetFiles(a: Name, b: Name, x: File, w: File, t: Name)
    requires a != b && !("_" <= b)
    ensures FilesOf(CommitDisk(StaleTarget(a, b, x, w), a).modules, t) == if t == b then {w, x} else {}
  {
    var s := StaleTarget(a, b, x, w);
    StaleTargetApplies(a, b, x, w);
    if t == a {
      PlanToOne(b, x);
      CommittedFiles(s, a, a);
    } else {
      CommitDiskFiles(s, a, t);
      StaleTargetBefore(a, b, x, w, t);
    }
  }

  lemma RestoreElsewhere(s: Disk, b: Name, t: Name)
    requires t != b
    ensures FilesOf(RestoreDisk(s, b).modules, t) == FilesOf(s.modules, t)
  {
  }

  /** A plan that sends a file into a module at rest with a snapshot of its own: that module then lists the
      file, and after its next restore nobody does. */
  lemma StaleTargetLoses(a: Name, b: Name, x: File, w: File)
    requires a != b && x != w && !("_" <= b)
    ensures var s := StaleTarget(a, b, x, w);
            var z := CommitDisk(s, a);
            && CommitApplies(s, a) && FilesOf(z.modules, b) == {w, x}
            && x !in ListedFiles(RestoreDisk(z, b)) && RestoreDisk(z, b).deletedList == []
  {
    var s := StaleTarget(a, b, x, w);
    var z := CommitDisk(s, a);
    StaleTargetApplies(a, b, x, w);
    StaleTargetFiles(a, b, x, w, b);
    StaleSnapshotDropsMergedFiles(s, a, b, x);
    forall t ensures x !in FilesOf(RestoreDisk(z, b).modules, t) {
      if t != b {
        RestoreElsewhere(z, b, t);
        StaleTargetFiles(a, b, x, w, t);
      }
    }
  }
}
