/** What the commits of the refinement stage keep: one commit exactly, and whole runs of the stage with any number
    of modules at work, waiting for their commit or at rest. */
module RefineRuns {
  import opened Results
  import opened Ordering
  import opened Sequences
  import opened Text
  import opened RefineCommit

  /** The workspace and the modules in progress. */
  datatype Sys = Sys(disk: Disk, busy: set<Name>)

  /** A draft leaves list, plan and deletions in any state; the snapshot is not the agent's. */
  datatype Step =
    | Enter(m: Name)
    | Snapshot(m: Name)
    | Draft(m: Name, list: Option<set<File>>, plan: Plan, deleted: set<File>)
    | Leave(m: Name)
    | Commit(m: Name)

  function ModuleOf(y: Sys, t: Name): Module {
    DirOr(y.disk.modules, t)
  }

  /** _create_snapshot_file: an existing snapshot is kept, a new one copies files.list. */
  function SnapshotDisk(s: Disk, m: Name): Disk {
    var d := DirOr(s.modules, m);
    if d.snapshot.Some? || d.list.None? then s else s.(modules := s.modules[m := d.(snapshot := d.list)])
  }

  function Next(y: Sys, step: Step): Sys {
    match step
    case Enter(m) => y.(busy := y.busy + {m})
    case Snapshot(m) => y.(disk := SnapshotDisk(y.disk, m))
    case Draft(m, list, plan, deleted) =>
      var d := ModuleOf(y, m).(list := list, plan := plan, deleted := deleted);
      y.(disk := y.disk.(modules := y.disk.modules[m := d]))
    case Leave(m) => y.(busy := y.busy - {m})
    case Commit(m) => y.(disk := CommitDisk(y.disk, m, y.busy))
  }

  // ---------- what is accounted for ----------

  /** An agent is at work on the module: what it must answer for is its snapshot. */
  predicate Drafting(y: Sys, t: Name) {
    t in y.busy && ModuleOf(y, t).snapshot.Some?
  }

  ghost function Holds(y: Sys, t: Name): set<File> {
    var d := ModuleOf(y, t);
    if Drafting(y, t) then d.Snapshot() else d.Snapshot() + d.Files()
  }

  ghost function ArchivedFiles(s: Disk): set<File> {
    Elems(s.deletedList.GetOr([]))
  }

  ghost predicate Elsewhere(y: Sys, m: Name, f: File) {
    f in ArchivedFiles(y.disk) || exists t :: t != m && f in Holds(y, t)
  }

  ghost predicate Accounted(y: Sys, f: File) {
    f in ArchivedFiles(y.disk) || exists t :: f in Holds(y, t)
  }

  ghost predicate SameAccount(y: Sys, z: Sys) {
    forall f :: Accounted(y, f) <==> Accounted(z, f)
  }

  lemma AccountedBy(y: Sys, m: Name, f: File)
    ensures Accounted(y, f) <==> Elsewhere(y, m, f) || f in Holds(y, m)
  {
  }

  /** Only what m holds differs. */
  ghost predicate SameButFor(y: Sys, z: Sys, m: Name) {
    ArchivedFiles(y.disk) == ArchivedFiles(z.disk) && forall t :: t != m ==> Holds(z, t) == Holds(y, t)
  }

  lemma SameElsewhere(y: Sys, z: Sys, m: Name, f: File)
    requires SameButFor(y, z, m)
    ensures Elsewhere(y, m, f) <==> Elsewhere(z, m, f)
  {
    if t :| t != m && f in Holds(y, t) { assert f in Holds(z, t); }
    if t :| t != m && f in Holds(z, t) { assert f in Holds(y, t); }
  }

  /** When the holdings of one module change, the account stays exactly when whatever it gains or loses is held
      elsewhere. */
  lemma OneHoldingChanges(y: Sys, z: Sys, m: Name)
    requires SameButFor(y, z, m)
    ensures SameAccount(y, z)
       <==> forall f | f in (Holds(y, m) - Holds(z, m)) + (Holds(z, m) - Holds(y, m)) :: Elsewhere(y, m, f)
  {
    forall f ensures (Accounted(y, f) <==> Elsewhere(y, m, f) || f in Holds(y, m))
                  && (Accounted(z, f) <==> Elsewhere(y, m, f) || f in Holds(z, m)) {
      AccountedBy(y, m, f);
      AccountedBy(z, m, f);
      SameElsewhere(y, z, m, f);
    }
  }

  // ---------- one commit ----------

  /** What the plan of d sends to module t. */
  ghost function Sent(d: Module, t: Name): set<File> {
    ZeroOmission.Share(ChildMap(d.plan), t) + ZeroOmission.Share(MergeMap(d.plan), t)
  }

  /** What the parent lists after its commit. */
  ghost function Own(d: Module, m: Name): set<File> {
    if m in ChildMap(d.plan) then ChildMap(d.plan)[m] else d.Files() - SplitOut(d) - MergeOut(d)
  }

  ghost predicate Lands(d: Module, m: Name, f: File) {
    f in d.deleted || f in Own(d, m) || exists t :: t != m && f in Sent(d, t)
  }

  ghost function CommittedSys(y: Sys, m: Name): Sys {
    y.(disk := Disk(CommittedModules(y.disk, m, y.busy), Archived(y.disk, m)))
  }

  /** From d to e the list gains these files, and so does a snapshot while an agent is at work. */
  ghost predicate Grown(d: Module, e: Module, files: set<File>, busy: bool) {
    && e.Files() == d.Files() + files
    && e.snapshot.Some? == d.snapshot.Some?
    && e.Snapshot() == d.Snapshot() + (if busy && d.snapshot.Some? then files else {})
  }

  lemma GrownTwice(d: Module, e: Module, g: Module, a: set<File>, b: set<File>, busy: bool)
    requires Grown(d, e, a, busy) && Grown(e, g, b, busy)
    ensures Grown(d, g, a + b, busy)
  {
  }

  lemma ChildrenGrow(mods: map<Name, Module>, m: Name, cm: map<Name, set<File>>, busy: set<Name>, t: Name)
    requires t != m
    ensures Grown(DirOr(mods, t), DirOr(WriteChildren(mods, m, cm, busy, cm.Keys), t), ZeroOmission.Share(cm, t),
                  t in busy)
  {
  }

  lemma MergesGrow(mods: map<Name, Module>, mm: map<Name, set<File>>, busy: set<Name>, t: Name)
    ensures Grown(DirOr(mods, t), DirOr(WriteMerges(mods, mm, busy, mm.Keys), t), ZeroOmission.Share(mm, t), t in busy)
  {
  }

  lemma SettlingLeavesOthers(mods: map<Name, Module>, m: Name, cm: map<Name, set<File>>, mm: map<Name, set<File>>,
                             t: Name)
    requires t != m
    ensures DirOr(Cleaned(FinishParent(mods, m, cm, mm), m), t) == DirOr(mods, t)
  {
  }

  lemma OtherAfterCommit(s: Disk, m: Name, busy: set<Name>, t: Name)
    requires t != m
    ensures Grown(DirOr(s.modules, t), DirOr(CommittedModules(s, m, busy), t), Sent(DirOr(s.modules, m), t), t in busy)
  {
    var d := DirOr(s.modules, m);
    var cm, mm := ChildMap(d.plan), MergeMap(d.plan);
    var m1 := WriteChildren(s.modules, m, cm, busy, cm.Keys);
    var m2 := WriteMerges(m1, mm, busy, mm.Keys);
    ChildrenGrow(s.modules, m, cm, busy, t);
    MergesGrow(m1, mm, busy, t);
    GrownTwice(DirOr(s.modules, t), DirOr(m1, t), DirOr(m2, t), ZeroOmission.Share(cm, t), ZeroOmission.Share(mm, t),
               t in busy);
    SettlingLeavesOthers(m2, m, cm, mm, t);
  }

  lemma ParentAfterCommit(s: Disk, m: Name, busy: set<Name>)
    ensures var e := DirOr(CommittedModules(s, m, busy), m);
            e.snapshot.None? && e.Files() == Own(DirOr(s.modules, m), m)
  {
    var d := DirOr(s.modules, m);
    ParentBeforeSettling(s, m, ChildMap(d.plan), MergeMap(d.plan), busy);
  }

  /** Every other module gains exactly what the plan sends it, at rest, waiting or at work. */
  lemma CommittedHoldings(y: Sys, m: Name, t: Name)
    ensures Holds(CommittedSys(y, m), t)
         == if t == m then Own(ModuleOf(y, m), m) else Holds(y, t) + Sent(ModuleOf(y, m), t)
  {
    if t == m { ParentAfterCommit(y.disk, m, y.busy); } else { OtherAfterCommit(y.disk, m, y.busy, t); }
  }

  lemma ArchivedAfterCommit(y: Sys, m: Name)
    ensures ArchivedFiles(CommittedSys(y, m).disk) == ArchivedFiles(y.disk) + ModuleOf(y, m).deleted
  {
    ElemsConcat(y.disk.deletedList.GetOr([]), Sorted(ModuleOf(y, m).deleted));
  }

  lemma CommittedAccounted(y: Sys, m: Name, f: File)
    ensures Accounted(CommittedSys(y, m), f) <==> Elsewhere(y, m, f) || Lands(ModuleOf(y, m), m, f)
  {
    var z, d := CommittedSys(y, m), ModuleOf(y, m);
    ArchivedAfterCommit(y, m);
    CommittedHoldings(y, m, m);
    if t :| f in Holds(z, t) { CommittedHoldings(y, m, t); }
    if t :| t != m && (f in Holds(y, t) || f in Sent(d, t)) {
      CommittedHoldings(y, m, t);
      assert f in Holds(z, t);
    }
  }

  lemma NoPlanCovers(d: Module)
    requires d.plan == NO_PLAN
    ensures ChildMap(d.plan) == map[] && MergeMap(d.plan) == map[] && Covered(d) == d.deleted + d.Files()
    ensures SplitOut(d) == {} == MergeOut(d)
  {
  }

  function Plain(files: set<File>): Module {
    Module(Some(files), None, NO_PLAN, {})
  }

  ghost predicate IsPlain(mods: map<Name, Module>, m: Name) {
    m in mods ==> mods[m].Files() != {} && mods[m] == Plain(mods[m].Files())
  }

  /** Whatever is left of the parent has a list and nothing else. */
  lemma ParentIsPlain(s: Disk, m: Name, busy: set<Name>)
    ensures IsPlain(CommittedModules(s, m, busy), m)
  {
    var d := DirOr(s.modules, m);
    ParentBeforeSettling(s, m, ChildMap(d.plan), MergeMap(d.plan), busy);
  }

  lemma PlainSettles(mods: map<Name, Module>, m: Name)
    requires IsPlain(mods, m)
    ensures Cleaned(FinishParent(mods, m, map[], map[]), m) == mods
  {
    var none: map<Name, set<File>> := map[];
    assert Workspace.UnionOf(none) == {};
    if m in mods {
      assert mods[m := mods[m]] == mods;
      var files := mods[m].Files();
      assert files - {} - {} == files;
      assert FinishParent(mods, m, none, none) == mods;
      assert Cleaned(mods, m) == mods;
    } else {
      assert mods - {m} == mods;
    }
  }

  lemma NothingWritten(mods: map<Name, Module>, m: Name, busy: set<Name>)
    ensures WriteChildren(mods, m, map[], busy, {}) == mods == WriteMerges(mods, map[], busy, {})
  {
  }

  /** With a plain module there is nothing to commit. */
  lemma PlainCommit(z: Disk, m: Name, busy: set<Name>)
    requires IsPlain(z.modules, m)
    ensures Check(z, m).None? && CommitDisk(z, m, busy) == z
    ensures CommitResult(z, m) == Ok(CommitInfo([], [], m in z.modules))
  {
    NoPlanCovers(DirOr(z.modules, m));
    NothingWritten(z.modules, m, busy);
    PlainSettles(z.modules, m);
    var none: map<Name, set<File>> := map[];
    assert none.Keys == {} && none.Keys - {m} == {};
  }

  /** Committing again right after an accepted commit changes nothing, archives nothing again and reports no name:
      plan, deletions and snapshot are used up. */
  lemma CommittedTwice(s: Disk, m: Name, busy: set<Name>, again: set<Name>)
    requires Check(s, m).None?
    ensures var z := CommitDisk(s, m, busy);
            && CommitDisk(z, m, again) == z
            && CommitResult(z, m) == Ok(CommitInfo([], [], m in z.modules))
  {
    ParentIsPlain(s, m, busy);
    PlainCommit(CommitDisk(s, m, busy), m, again);
  }

  lemma ParentStays(s: Disk, m: Name, busy: set<Name>)
    ensures var d := DirOr(s.modules, m);
            m in CommittedModules(s, m, busy)
            <==> m in ChildMap(d.plan) || d.Files() - SplitOut(d) - MergeOut(d) != {}
  {
    var d := DirOr(s.modules, m);
    ParentBeforeSettling(s, m, ChildMap(d.plan), MergeMap(d.plan), busy);
  }

  /** An accepted commit reports, each once and in order, the children with files but the parent itself, and the
      merge targets with files, all of which now list their share; and whether the parent is still there. */
  lemma ReportedNames(s: Disk, m: Name, busy: set<Name>)
    requires Check(s, m).None?
    ensures var plan, z, info := DirOr(s.modules, m).plan, CommitDisk(s, m, busy), CommitResult(s, m).value;
            && StrictlySorted(info.newModules) && StrictlySorted(info.mergedTargets)
            && (forall c :: c in info.newModules <==>
                  c in plan.children && plan.children[c] != {} && !("_" <= c) && c != m)
            && (forall t :: t in info.mergedTargets <==> t in plan.merges && plan.merges[t] != {})
            && (forall c | c in info.newModules :: plan.children[c] <= DirOr(z.modules, c).Files())
            && (forall t | t in info.mergedTargets && t != m :: plan.merges[t] <= DirOr(z.modules, t).Files())
            && (info.retainedParent <==> m in z.modules)
  {
    var d := DirOr(s.modules, m);
    var cm, mm := ChildMap(d.plan), MergeMap(d.plan);
    var info := CommitResult(s, m).value;
    assert forall c :: c in info.newModules <==> c in Elems(Sorted(cm.Keys - {m}));
    assert forall t :: t in info.mergedTargets <==> t in Elems(Sorted(mm.Keys));
    forall t | t != m ensures Sent(d, t) <= DirOr(CommitDisk(s, m, busy).modules, t).Files() {
      OtherAfterCommit(s, m, busy, t);
    }
    ParentStays(s, m, busy);
  }

  ghost predicate SameRest(mods: map<Name, Module>, t: Name, e: Module) {
    e.plan == DirOr(mods, t).plan && e.deleted == DirOr(mods, t).deleted
  }

  lemma RestAfterCommit(s: Disk, m: Name, busy: set<Name>, t: Name)
    requires t != m
    ensures var mods, d := CommittedModules(s, m, busy), DirOr(s.modules, m);
            && SameRest(s.modules, t, DirOr(mods, t))
            && (t in mods <==> t in s.modules || t in ChildMap(d.plan) || t in MergeMap(d.plan))
  {
    var d := DirOr(s.modules, m);
    var cm, mm := ChildMap(d.plan), MergeMap(d.plan);
    var m1 := WriteChildren(s.modules, m, cm, busy, cm.Keys);
    var m2 := WriteMerges(m1, mm, busy, mm.Keys);
    assert SameRest(s.modules, t, DirOr(m1, t));
    assert SameRest(m1, t, DirOr(m2, t));
    SettlingLeavesOthers(m2, m, cm, mm, t);
    assert t in Cleaned(FinishParent(m2, m, cm, mm), m) <==> t in m2;
  }

  /** Of another module a commit changes its list and snapshot alone, and it makes no module without sending it
      files; deleted.list grows by the deletions, each once. */
  lemma NothingElseChanges(s: Disk, m: Name, busy: set<Name>, t: Name)
    requires t != m
    ensures var z := CommitDisk(s, m, busy);
            && SameRest(s.modules, t, DirOr(z.modules, t))
            && (t in z.modules <==> t in s.modules || (Check(s, m).None? && Sent(DirOr(s.modules, m), t) != {}))
  {
    RestAfterCommit(s, m, busy, t);
  }

  lemma DeletedListGrows(s: Disk, m: Name, busy: set<Name>)
    ensures var before, after := s.deletedList.GetOr([]), CommitDisk(s, m, busy).deletedList.GetOr([]);
            && before <= after && StrictlySorted(after[|before|..])
            && Elems(after[|before|..]) == if Check(s, m).None? then DirOr(s.modules, m).deleted else {}
  {
    var before := s.deletedList.GetOr([]);
    var gone := if Check(s, m).None? then Sorted(DirOr(s.modules, m).deleted) else [];
    assert CommitDisk(s, m, busy).deletedList.GetOr([]) == before + gone;
    assert (before + gone)[|before|..] == gone;
  }

  // ---------- the check and the lists, on the inputs alone ----------

  predicate InChild(plan: Plan, c: Name, f: File) {
    c in plan.children && !("_" <= c) && f in plan.children[c]
  }

  predicate InMerge(plan: Plan, t: Name, f: File) {
    t in plan.merges && f in plan.merges[t]
  }

  /** A candidate or a merge target of the plan has the file. */
  ghost predicate Planned(plan: Plan, f: File) {
    (exists c :: InChild(plan, c, f)) || (exists t :: InMerge(plan, t, f))
  }

  ghost predicate AnswersFor(d: Module, f: File) {
    Planned(d.plan, f) || f in d.deleted || f in d.Files()
  }

  /** Another module's list or deleted.list has an entry in which the file occurs. */
  ghost predicate Seen(s: Disk, m: Name, f: File) {
    || (exists t, e :: t in s.modules && t != m && e in s.modules[t].Files() && Within(f, e))
    || (s.deletedList.Some? && exists e :: e in s.deletedList.value && Within(f, e))
  }

  lemma PlannedIff(d: Module, f: File)
    ensures Planned(d.plan, f) <==> f in SplitOut(d) + MergeOut(d)
  {
    if c :| InChild(d.plan, c, f) { assert c in ChildMap(d.plan) && f in ChildMap(d.plan)[c]; }
    if t :| InMerge(d.plan, t, f) { assert t in MergeMap(d.plan) && f in MergeMap(d.plan)[t]; }
    if f in SplitOut(d) {
      var c :| c in ChildMap(d.plan) && f in ChildMap(d.plan)[c];
      assert InChild(d.plan, c, f);
    }
    if f in MergeOut(d) {
      var t :| t in MergeMap(d.plan) && f in MergeMap(d.plan)[t];
      assert InMerge(d.plan, t, f);
    }
  }

  lemma SeenIff(s: Disk, m: Name, f: File)
    ensures Seen(s, m, f) <==> Found(s, m, f)
  {
    if t, e :| t in s.modules && t != m && e in s.modules[t].Files() && Within(f, e) {
      assert Mentions(s.modules[t].Files(), f);
    }
  }

  ghost predicate Refused(s: Disk, m: Name, f: File) {
    var d := DirOr(s.modules, m);
    if f in d.Snapshot() then !AnswersFor(d, f) && !Seen(s, m, f) else AnswersFor(d, f)
  }

  lemma RefusedIff(s: Disk, m: Name, f: File)
    ensures var d := DirOr(s.modules, m);
            && (f in TrulyMissing(s, m) <==> f in d.Snapshot() && !AnswersFor(d, f) && !Seen(s, m, f))
            && (f in Extra(d) <==> f !in d.Snapshot() && AnswersFor(d, f))
  {
    PlannedIff(DirOr(s.modules, m), f);
    SeenIff(s, m, f);
  }

  /** The commit of a module without a snapshot is accepted. With one it is refused exactly when a file of the
      snapshot is nowhere to be seen, or a file that is not in it is listed, planned or deleted; the error names
      all of these, unless files are missing and there is no deleted.list. */
  lemma CheckedOnInputs(s: Disk, m: Name)
    ensures var d := DirOr(s.modules, m);
            && (Check(s, m).None? <==> d.Snapshot() == {} || forall f :: !Refused(s, m, f))
            && (Check(s, m) == Some(NoDeletedList)
                <==> s.deletedList.None? && exists f :: f in d.Snapshot() && Refused(s, m, f))
            && (Check(s, m).Some? && Check(s, m).value.Uncovered? ==>
                  forall f :: (f in Check(s, m).value.missing <==> f in d.Snapshot() && Refused(s, m, f))
                           && (f in Check(s, m).value.extra <==> f !in d.Snapshot() && Refused(s, m, f)))
  {
    var d := DirOr(s.modules, m);
    forall f ensures (f in TrulyMissing(s, m) <==> f in d.Snapshot() && Refused(s, m, f))
                  && (f in Extra(d) <==> f !in d.Snapshot() && Refused(s, m, f)) {
      RefusedIff(s, m, f);
    }
    CheckBySets(s, m);
  }

  lemma CheckBySets(s: Disk, m: Name)
    ensures var d := DirOr(s.modules, m);
            && (Check(s, m).None? <==> d.Snapshot() == {} || (TrulyMissing(s, m) == {} && Extra(d) == {}))
            && (Check(s, m) == Some(NoDeletedList) <==> s.deletedList.None? && TrulyMissing(s, m) != {})
            && (Check(s, m).Some? && Check(s, m).value.Uncovered? ==>
                  Check(s, m).value == Uncovered(TrulyMissing(s, m), Extra(d)))
  {
    var d := DirOr(s.modules, m);
    if Covered(d) == d.Snapshot() { assert Missing(d) == {} && TrulyMissing(s, m) == {}; }
    if d.Snapshot() == {} { assert Missing(d) == {} && TrulyMissing(s, m) == {}; }
  }

  /** After an accepted commit another module lists what it listed and what the plan sends it; the parent lists its
      own candidate's files, and without one what of its list is not in the plan. */
  lemma ListedAfterCommit(s: Disk, m: Name, busy: set<Name>, t: Name, f: File)
    requires Check(s, m).None?
    ensures var d := DirOr(s.modules, m);
            f in DirOr(CommitDisk(s, m, busy).modules, t).Files()
            <==> if t != m then f in DirOr(s.modules, t).Files() || InChild(d.plan, t, f) || InMerge(d.plan, t, f)
                 else if exists g :: InChild(d.plan, m, g) then InChild(d.plan, m, f)
                 else f in d.Files() && !Planned(d.plan, f)
  {
    if t != m {
      OtherAfterCommit(s, m, busy, t);
    } else {
      var d := DirOr(s.modules, m);
      ParentAfterCommit(s, m, busy);
      PlannedIff(d, f);
      if g :| InChild(d.plan, m, g) { assert m in ChildMap(d.plan); }
      if m in ChildMap(d.plan) {
        var g :| g in d.plan.children[m];
        assert InChild(d.plan, m, g);
      }
    }
  }

  /** What the parent held and what its plan delivers differ only in files held elsewhere. */
  ghost predicate CommitGuard(y: Sys, m: Name) {
    var d := ModuleOf(y, m);
    Check(y.disk, m).None? ==> forall f :: (f in Holds(y, m)) != Lands(d, m, f) ==> Elsewhere(y, m, f)
  }

  lemma NextCommit(y: Sys, m: Name)
    ensures Next(y, Commit(m)) == if Check(y.disk, m).None? then CommittedSys(y, m) else y
  {
  }

  /** With no condition on the snapshot. */
  lemma CommitKeepsIff(y: Sys, m: Name)
    ensures SameAccount(y, Next(y, Commit(m))) <==> CommitGuard(y, m)
  {
    NextCommit(y, m);
    if Check(y.disk, m).None? {
      forall f ensures (Accounted(y, f) <==> Elsewhere(y, m, f) || f in Holds(y, m))
                    && (Accounted(CommittedSys(y, m), f) <==> Elsewhere(y, m, f) || Lands(ModuleOf(y, m), m, f)) {
        AccountedBy(y, m, f);
        CommittedAccounted(y, m, f);
      }
    }
  }

  /** The files of the snapshot that the plan may fail to deliver: those it leaves out, those of an old files.list
      that the parent's own share overwrites, and those merged back into the parent. */
  ghost function Stray(d: Module, m: Name): set<File> {
    Missing(d) + (if m in ChildMap(d.plan) then d.Files() - ChildMap(d.plan)[m] else {})
    + ZeroOmission.Share(MergeMap(d.plan), m)
  }

  lemma LandsIsCovered(d: Module, m: Name, f: File)
    ensures Lands(d, m, f) ==> f in Covered(d)
    ensures f in Covered(d) ==> Lands(d, m, f) || f in Stray(d, m)
  {
    if t :| t != m && f in Sent(d, t) {
      assert f in SplitOut(d) + MergeOut(d);
    } else if f in Covered(d) {
      if f in SplitOut(d) {
        var t :| t in ChildMap(d.plan) && f in ChildMap(d.plan)[t];
        assert f in Sent(d, t);
      } else if f in MergeOut(d) {
        var t :| t in MergeMap(d.plan) && f in MergeMap(d.plan)[t];
        assert f in Sent(d, t);
      }
    }
  }

  lemma AcceptedIsCovered(s: Disk, m: Name)
    requires Check(s, m).None? && DirOr(s.modules, m).Snapshot() != {}
    ensures var d := DirOr(s.modules, m);
            && Covered(d) <= d.Snapshot() && d.Files() <= d.Snapshot()
            && forall f | f in Missing(d) :: Found(s, m, f)
  {
    var d := DirOr(s.modules, m);
    assert Extra(d) == {};
    forall f | f in Covered(d) ensures f in d.Snapshot() { assert f !in Extra(d); }
    forall f | f in Missing(d) ensures Found(s, m, f) { assert f !in TrulyMissing(s, m); }
  }

  /** An accepted commit of a module with a snapshot keeps every file accounted for exactly when each stray file is
      delivered after all or held elsewhere. */
  lemma CommitExact(y: Sys, m: Name)
    requires Check(y.disk, m).None? && ModuleOf(y, m).Snapshot() != {}
    ensures SameAccount(y, Next(y, Commit(m)))
       <==> forall f | f in Stray(ModuleOf(y, m), m) :: Lands(ModuleOf(y, m), m, f) || Elsewhere(y, m, f)
    ensures forall f | f in Missing(ModuleOf(y, m)) :: Found(y.disk, m, f)
  {
    var d := ModuleOf(y, m);
    CommitKeepsIff(y, m);
    AcceptedIsCovered(y.disk, m);
    forall f ensures (f in Holds(y, m)) != Lands(d, m, f) <==> f in Stray(d, m) && !Lands(d, m, f) {
      LandsIsCovered(d, m, f);
    }
  }

  /** The check by text: an entry of a list is found in it, and so is every part of an entry. */
  lemma MentionsIff(entries: set<File>, f: File)
    ensures Mentions(entries, f) <==> f in entries || exists e | e in entries :: e != f && Within(f, e)
  {
    if f in entries { assert OccursAt(f, f, 0); }
  }

  // ---------- whole runs ----------

  /** Of a module with a snapshot, files.list has nothing that is in neither its snapshot nor held elsewhere. */
  ghost predicate ListGuard(y: Sys, m: Name) {
    var d := ModuleOf(y, m);
    d.snapshot.Some? ==> forall f | f in d.Files() - d.Snapshot() :: Elsewhere(y, m, f)
  }

  /** Snapshots are made and drafts drawn only while the module is in progress, drafts only with a snapshot. */
  predicate Enabled(y: Sys, step: Step) {
    match step
    case Enter(m) => m !in y.busy
    case Snapshot(m) => m in y.busy
    case Draft(m, _, _, _) => Drafting(y, m)
    case Leave(m) => m in y.busy
    case Commit(m) => true
  }

  /** The condition under which a step keeps the account. */
  ghost predicate Harmless(y: Sys, step: Step) {
    match step
    case Enter(m) => ListGuard(y, m)
    case Leave(m) => ListGuard(y, m)
    case Commit(m) => CommitGuard(y, m)
    case _ => true
  }

  predicate EnabledRun(y: Sys, steps: seq<Step>)
    decreases |steps|
  {
    steps == [] || (Enabled(y, steps[0]) && EnabledRun(Next(y, steps[0]), steps[1..]))
  }

  ghost predicate HarmlessRun(y: Sys, steps: seq<Step>)
    decreases |steps|
  {
    steps == [] || (Harmless(y, steps[0]) && HarmlessRun(Next(y, steps[0]), steps[1..]))
  }

  function Run(y: Sys, steps: seq<Step>): Sys
    decreases |steps|
  {
    if steps == [] then y else Run(Next(y, steps[0]), steps[1..])
  }

  /** No step of the run changes the account. */
  ghost predicate AlwaysAccounted(y: Sys, steps: seq<Step>)
    decreases |steps|
  {
    steps == [] || (SameAccount(y, Next(y, steps[0])) && AlwaysAccounted(Next(y, steps[0]), steps[1..]))
  }

  /** A step keeps everything accounted for exactly when it is harmless; a first snapshot and a draft always are. */
  lemma StepKeepsIff(y: Sys, step: Step)
    requires Enabled(y, step)
    ensures SameAccount(y, Next(y, step)) <==> Harmless(y, step)
  {
    if step.Commit? { CommitKeepsIff(y, step.m); } else { OneHoldingChanges(y, Next(y, step), step.m); }
  }

  /** Over every run of the stage, whatever the agents draft, the account never changes exactly when every step is
      harmless. */
  lemma {:induction false} RunKeepsIff(y: Sys, steps: seq<Step>)
    requires EnabledRun(y, steps)
    ensures AlwaysAccounted(y, steps) <==> HarmlessRun(y, steps)
    ensures HarmlessRun(y, steps) ==> SameAccount(y, Run(y, steps))
    decreases |steps|
  {
    if steps != [] {
      StepKeepsIff(y, steps[0]);
      RunKeepsIff(Next(y, steps[0]), steps[1..]);
    }
  }

  ghost predicate Listed(s: Disk, f: File) {
    exists t :: f in DirOr(s.modules, t).Files()
  }

  /** No module is in progress, and what is left of a snapshot is listed. */
  predicate AtRest(y: Sys) {
    y.busy == {} && forall t | t in y.disk.modules :: y.disk.modules[t].Snapshot() <= y.disk.modules[t].Files()
  }

  lemma RestHolds(y: Sys, t: Name)
    requires AtRest(y)
    ensures Holds(y, t) == DirOr(y.disk.modules, t).Files()
  {
  }

  lemma AccountedAtRest(y: Sys, f: File)
    requires AtRest(y)
    ensures Accounted(y, f) <==> Listed(y.disk, f) || f in ArchivedFiles(y.disk)
  {
    if t :| f in Holds(y, t) {
      RestHolds(y, t);
      assert f in DirOr(y.disk.modules, t).Files();
    }
    if t :| f in DirOr(y.disk.modules, t).Files() {
      RestHolds(y, t);
      assert f in Holds(y, t);
    }
  }

  /** From rest to rest, every file is listed by a module or archived in deleted.list. */
  lemma RestToRest(y: Sys, steps: seq<Step>, f: File)
    requires EnabledRun(y, steps) && HarmlessRun(y, steps) && AtRest(y) && AtRest(Run(y, steps))
    ensures Listed(y.disk, f) || f in ArchivedFiles(y.disk)
       <==> Listed(Run(y, steps).disk, f) || f in ArchivedFiles(Run(y, steps).disk)
  {
    RunKeepsIff(y, steps);
    AccountedAtRest(y, f);
    AccountedAtRest(Run(y, steps), f);
  }

  // ---------- what breaks it ----------

  /** An accepted commit after which a file of the parent's snapshot is nowhere. */
  ghost predicate Loses(y: Sys, m: Name, f: File) {
    Check(y.disk, m).None? && Accounted(y, f) && !Accounted(Next(y, Commit(m)), f)
  }

  lemma LosesIff(y: Sys, m: Name, f: File)
    requires Check(y.disk, m).None? && f in ModuleOf(y, m).Snapshot()
    ensures Loses(y, m, f) <==> !Lands(ModuleOf(y, m), m, f) && !Elsewhere(y, m, f)
  {
    NextCommit(y, m);
    CommittedAccounted(y, m, f);
    AccountedBy(y, m, f);
    SnapshotIsHeld(y, m, f);
  }

  lemma SnapshotIsHeld(y: Sys, m: Name, f: File)
    requires f in ModuleOf(y, m).Snapshot()
    ensures f in Holds(y, m)
  {
  }

  lemma UnionOfOne(m: Name, files: set<File>)
    ensures Workspace.UnionOf(map[m := files]) == files
  {
    var one := map[m := files];
    assert m in one;
  }

  lemma OnlyOther(y: Sys, m: Name, t: Name, f: File)
    requires m != t && y.disk.modules.Keys <= {m, t} && y.disk.deletedList.GetOr([]) == [] && f !in Holds(y, t)
    ensures !Elsewhere(y, m, f)
  {
  }

  /** The snapshot has w and f, the list only w, and another module lists x + f: the check finds f inside that
      entry, and after the commit no one lists f. */
  lemma PartOfANameLoses(m: Name, t: Name, w: File, x: File, f: File)
    requires m != t && x != [] && w != f
    ensures var d := Module(Some({w}), Some({w, f}), NO_PLAN, {});
            Loses(Sys(Disk(map[m := d, t := Plain({x + f})], Some([])), {m}), m, f)
  {
    var d := Module(Some({w}), Some({w, f}), NO_PLAN, {});
    var y := Sys(Disk(map[m := d, t := Plain({x + f})], Some([])), {m});
    NoPlanCovers(d);
    assert OccursAt(f, x + f, |x|);
    assert Mentions(y.disk.modules[t].Files(), f);
    assert TrulyMissing(y.disk, m) == {} && Extra(d) == {};
    OnlyOther(y, m, t, f);
    LosesIff(y, m, f);
  }

  /** The plan keeps x in the parent and says nothing of w, which the list has: w counts as covered, and the
      parent's share overwrites the list. */
  lemma OverwrittenListLoses(m: Name, w: File, x: File)
    requires w != x && !("_" <= m)
    ensures var d := Module(Some({w, x}), Some({w, x}), Plan(map[m := {x}], map[]), {});
            Loses(Sys(Disk(map[m := d], Some([])), {m}), m, w)
  {
    var d := Module(Some({w, x}), Some({w, x}), Plan(map[m := {x}], map[]), {});
    var y := Sys(Disk(map[m := d], Some([])), {m});
    assert ChildMap(d.plan) == map[m := {x}];
    assert MergeMap(d.plan) == map[];
    UnionOfOne(m, {x});
    assert Covered(d) == {w, x};
    OnlyOther(y, m, m + "x", w);
    LosesIff(y, m, w);
  }

  /** The plan merges x back into its own parent. */
  lemma MergedIntoItselfLoses(m: Name, x: File)
    ensures var d := Module(Some({x}), Some({x}), Plan(map[], map[m := {x}]), {});
            Loses(Sys(Disk(map[m := d], Some([])), {m}), m, x)
  {
    var d := Module(Some({x}), Some({x}), Plan(map[], map[m := {x}]), {});
    var y := Sys(Disk(map[m := d], Some([])), {m});
    assert ChildMap(d.plan) == map[];
    assert MergeMap(d.plan) == map[m := {x}];
    UnionOfOne(m, {x});
    assert Covered(d) == {x};
    OnlyOther(y, m, m + "x", x);
    LosesIff(y, m, x);
  }

  /** Module m sends its one file x to t, which passed before without a commit and so has kept its snapshot. */
  function ToOldSnapshot(m: Name, t: Name, w: File, x: File): Sys {
    Sys(Disk(map[m := Module(Some({x}), Some({x}), Plan(map[t := {x}], map[]), {}),
                 t := Module(Some({w}), Some({w}), NO_PLAN, {})], Some([])), {})
  }

  lemma SentToOldSnapshot(m: Name, t: Name, w: File, x: File, u: Name)
    requires m != t && w != x && !("_" <= t)
    ensures var y := ToOldSnapshot(m, t, w, x);
            && Check(y.disk, m).None? && Own(ModuleOf(y, m), m) == {} && Stray(ModuleOf(y, m), m) == {}
            && Sent(ModuleOf(y, m), u) == if u == t then {x} else {}
  {
    var d := ModuleOf(ToOldSnapshot(m, t, w, x), m);
    assert ChildMap(d.plan) == map[t := {x}];
    assert MergeMap(d.plan) == map[];
    UnionOfOne(t, {x});
    assert Covered(d) == {x};
  }

  lemma OldSnapshotStays(m: Name, t: Name, w: File, x: File)
    requires m != t && w != x && !("_" <= t)
    ensures var d := ModuleOf(CommittedSys(ToOldSnapshot(m, t, w, x), m), t);
            d.snapshot.Some? && d.Snapshot() == {w}
  {
    var y := ToOldSnapshot(m, t, w, x);
    OtherAfterCommit(y.disk, m, y.busy, t);
  }

  lemma NotSentElsewhere(m: Name, t: Name, w: File, x: File, u: Name)
    requires m != t && w != x && !("_" <= t) && u != t
    ensures x !in Holds(CommittedSys(ToOldSnapshot(m, t, w, x), m), u)
  {
    SentToOldSnapshot(m, t, w, x, u);
    CommittedHoldings(ToOldSnapshot(m, t, w, x), m, u);
  }

  lemma EnteredHoldings(z: Sys, t: Name, u: Name)
    requires ModuleOf(z, t).snapshot.Some?
    ensures Holds(Next(z, Enter(t)), u) == if u == t then ModuleOf(z, t).Snapshot() else Holds(z, u)
  {
  }

  /** The commit is harmless, as t lists x then, but t enters the stage again with its old snapshot, which its next
      commit is checked against: nobody answers for x any more. */
  lemma OldSnapshotLoses(m: Name, t: Name, w: File, x: File)
    requires m != t && w != x && !("_" <= t)
    ensures var y := ToOldSnapshot(m, t, w, x);
            var z := Next(y, Commit(m));
            SameAccount(y, z) && Accounted(z, x) && !Accounted(Next(z, Enter(t)), x)
  {
    var y := ToOldSnapshot(m, t, w, x);
    SentToOldSnapshot(m, t, w, x, t);
    NextCommit(y, m);
    assert x in ModuleOf(y, m).Snapshot();
    CommitExact(y, m);
    SnapshotIsHeld(y, m, x);
    AccountedBy(y, m, x);
    var z := CommittedSys(y, m);
    ArchivedAfterCommit(y, m);
    OldSnapshotStays(m, t, w, x);
    forall u ensures x !in Holds(Next(z, Enter(t)), u) {
      EnteredHoldings(z, t, u);
      if u != t { NotSentElsewhere(m, t, w, x, u); }
    }
  }
}
