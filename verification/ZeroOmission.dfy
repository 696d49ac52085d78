/** What one commit of the split plan keeps: the files of every module, the check, and when nothing is lost. */
module ZeroOmission {
  import opened Results
  import opened Ordering
  import opened Sequences
  import opened Workspace

  ghost function Share(m: map<Name, set<File>>, t: Name): set<File> {
    if t in m then m[t] else {}
  }

  /** The files that the split plan of `mod` sends to module t. */
  ghost function Added(s: Disk, mod: Name, t: Name): set<File>
    requires HasSplit(s, mod)
  {
    var split := s.modules[mod].split.value;
    Share(ChildMap(split), t) + Share(MergeMap(split), t)
  }

  /** The files listed by every module but `mod`. */
  ghost function OtherFiles(mods: map<Name, ModuleDir>, mod: Name): set<File> {
    set t, f | t in mods.Keys - {mod} && f in FilesOf(mods, t) :: f
  }

  lemma ChildrenFiles(mods: map<Name, ModuleDir>, mod: Name, cm: map<Name, set<File>>, t: Name)
    ensures var m1 := WriteChildren(mods, mod, cm, cm.Keys);
            && FilesOf(m1, t) == (if t == mod && t in cm then cm[t] else FilesOf(mods, t) + Share(cm, t))
            && DeletedOf(m1, t) == DeletedOf(mods, t)
            && DirOr(m1, t).deleted == DirOr(mods, t).deleted
  {
  }

  lemma MergesFiles(mods: map<Name, ModuleDir>, mm: map<Name, set<File>>, t: Name)
    ensures var m2 := WriteMerges(mods, mm, mm.Keys);
            && FilesOf(m2, t) == FilesOf(mods, t) + Share(mm, t)
            && DeletedOf(m2, t) == DeletedOf(mods, t)
            && DirOr(m2, t).deleted == DirOr(mods, t).deleted
  {
  }

  lemma ParentFiles(mods: map<Name, ModuleDir>, mod: Name, cm: map<Name, set<File>>, t: Name)
    ensures var m3 := FinishParent(mods, mod, cm);
            && FilesOf(m3, t) == (if t == mod then Share(cm, mod) else FilesOf(mods, t))
            && DeletedOf(m3, t) == DeletedOf(mods, t)
  {
  }

  /** Every module's files after a commit: targets grow by exactly their shares, even when a name is
      both child and merge target; the parent keeps its own share and its deletions. */
  lemma CommittedFiles(s: Disk, mod: Name, t: Name)
    requires HasSplit(s, mod)
    ensures FilesOf(CommittedModules(s, mod), t)
         == if t == mod then Share(ChildMap(s.modules[mod].split.value), mod)
            else FilesOf(s.modules, t) + Added(s, mod, t)
    ensures DeletedOf(CommittedModules(s, mod), t) == DeletedOf(s.modules, t)
  {
    var split := s.modules[mod].split.value;
    var cm, mm := ChildMap(split), MergeMap(split);
    var m1 := WriteChildren(s.modules, mod, cm, cm.Keys);
    ChildrenFiles(s.modules, mod, cm, t);
    MergesFiles(m1, mm, t);
    ParentFiles(WriteMerges(m1, mm, mm.Keys), mod, cm, t);
  }

  /** The same for an accepted commit of the disk. */
  lemma CommitDiskFiles(s: Disk, mod: Name, t: Name)
    requires CommitApplies(s, mod) && t != mod
    ensures FilesOf(CommitDisk(s, mod).modules, t) == FilesOf(s.modules, t) + Added(s, mod, t)
  {
    CommittedFiles(s, mod, t);
  }

  /** The files a commit leaves behind: in the other modules, in the parent and in its deletions. */
  ghost function Kept(mods: map<Name, ModuleDir>, mod: Name): set<File> {
    OtherFiles(mods, mod) + FilesOf(mods, mod) + DeletedOf(mods, mod)
  }

  /** The plan without what it merges into its own parent. */
  ghost function Delivered(s: Disk, mod: Name): set<File>
    requires HasSplit(s, mod)
  {
    var split := s.modules[mod].split.value;
    UnionOf(ChildMap(split)) + UnionOf(MergeMap(split) - {mod}) + DeletedOf(s.modules, mod)
  }

  /** With no condition on the plan: a commit leaves exactly the others' old files and what it delivers. */
  lemma CommitKeeps(s: Disk, mod: Name)
    requires HasSplit(s, mod)
    ensures Kept(CommittedModules(s, mod), mod) == OtherFiles(s.modules, mod) + Delivered(s, mod)
  {
    var mods := CommittedModules(s, mod);
    var split := s.modules[mod].split.value;
    var cm, mm := ChildMap(split), MergeMap(split) - {mod};
    CommittedFiles(s, mod, mod);
    forall f | f in Kept(mods, mod) ensures f in OtherFiles(s.modules, mod) + Delivered(s, mod) {
      if f in OtherFiles(mods, mod) {
        var t :| t in mods.Keys - {mod} && f in FilesOf(mods, t);
        CommittedFiles(s, mod, t);
        if f in FilesOf(s.modules, t) { assert t in s.modules.Keys - {mod}; }
        else if f in Share(cm, t) { assert f in UnionOf(cm); }
        else { assert t in mm && f in mm[t]; }
      } else if f in FilesOf(mods, mod) {
        assert f in UnionOf(cm);
      }
    }
    forall f | f in OtherFiles(s.modules, mod) + Delivered(s, mod) ensures f in Kept(mods, mod) {
      if f in OtherFiles(s.modules, mod) {
        var t :| t in s.modules.Keys - {mod} && f in FilesOf(s.modules, t);
        CommittedFiles(s, mod, t);
        assert f in FilesOf(mods, t) && t in mods;
      } else if f in UnionOf(cm) {
        var t :| t in cm && f in cm[t];
        CommittedFiles(s, mod, t);
        assert f in FilesOf(mods, t) && t in mods;
      } else if f in UnionOf(mm) {
        var t :| t in mm && f in mm[t];
        CommittedFiles(s, mod, t);
        assert f in FilesOf(mods, t) && t in mods;
      }
    }
  }

  lemma CoveredIsDelivered(s: Disk, mod: Name)
    requires HasSplit(s, mod)
    ensures var split := s.modules[mod].split.value;
            Covered(split, DeletedOf(s.modules, mod)) == Delivered(s, mod) + Share(MergeMap(split), mod)
  {
    var mm := MergeMap(s.modules[mod].split.value);
    forall f | f in UnionOf(mm) ensures f in UnionOf(mm - {mod}) + Share(mm, mod) {
      var t :| t in mm && f in mm[t];
      if t != mod { assert t in mm - {mod} && f in (mm - {mod})[t]; }
    }
  }

  /** The plan merges nothing into its own parent that it does not also deliver elsewhere. */
  ghost predicate SelfMergeHarmless(s: Disk, mod: Name)
    requires HasSplit(s, mod)
  {
    Share(MergeMap(s.modules[mod].split.value), mod) <= OtherFiles(s.modules, mod) + Delivered(s, mod)
  }

  /** All-or-nothing commit of a module with a snapshot: it is rejected without a write exactly when the
      plan does not cover the snapshot; an accepted commit turns the others' files, the parent's files and
      its deletions into the others' old files and the snapshot, exactly when no file is only self-merged. */
  lemma CommitExact(s: Disk, mod: Name)
    requires HasSplit(s, mod) && SnapshotOf(s, mod) != {}
    ensures var covered := Covered(s.modules[mod].split.value, DeletedOf(s.modules, mod));
            && (CommitResult(s, mod).Err? <==> covered != SnapshotOf(s, mod))
            && (CommitResult(s, mod).Err? ==> CommitDisk(s, mod) == s)
    ensures CommitResult(s, mod).Ok? ==>
              (Kept(CommitDisk(s, mod).modules, mod) == OtherFiles(s.modules, mod) + SnapshotOf(s, mod)
               <==> SelfMergeHarmless(s, mod))
    ensures mod !in MergeMap(s.modules[mod].split.value) ==> SelfMergeHarmless(s, mod)
  {
    var split := s.modules[mod].split.value;
    if CommitAccepted(s, mod) {
      CommitKeeps(s, mod);
      CoveredIsDelivered(s, mod);
      KeptIff(OtherFiles(s.modules, mod), Delivered(s, mod), Share(MergeMap(split), mod), SnapshotOf(s, mod));
    }
  }

  lemma KeptIff(others: set<File>, delivered: set<File>, own: set<File>, snap: set<File>)
    requires snap == delivered + own
    ensures others + delivered == others + snap <==> own <= others + delivered
  {
    if others + delivered == others + snap { assert own <= snap; }
  }

  // ---------- what a commit writes, on the inputs alone ----------

  predicate InChild(split: SplitDir, c: Name, f: File) {
    c in split.children && !("_" <= c) && f in split.children[c]
  }

  predicate InMerge(split: SplitDir, t: Name, f: File) {
    t in split.mergeTo && f in split.mergeTo[t]
  }

  ghost predicate Planned(split: SplitDir, f: File) {
    (exists c :: InChild(split, c, f)) || (exists t :: InMerge(split, t, f))
  }

  lemma PlannedIff(split: SplitDir, f: File)
    ensures Planned(split, f) <==> f in UnionOf(ChildMap(split)) + UnionOf(MergeMap(split))
  {
    var cm, mm := ChildMap(split), MergeMap(split);
    if c :| InChild(split, c, f) { assert c in cm && f in cm[c]; }
    if t :| InMerge(split, t, f) { assert t in mm && f in mm[t]; }
    if c :| c in cm && f in cm[c] { assert InChild(split, c, f); }
    if t :| t in mm && f in mm[t] { assert InMerge(split, t, f); }
  }

  ghost predicate Answered(s: Disk, mod: Name, f: File)
    requires HasSplit(s, mod)
  {
    Planned(s.modules[mod].split.value, f) || f in DeletedOf(s.modules, mod)
  }

  /** With a snapshot a commit is refused exactly when a file is in the snapshot or among the planned and deleted
      files but not in both, and the error names the files on either side. */
  lemma RefusedOnInputs(s: Disk, mod: Name)
    requires HasSplit(s, mod)
    ensures var snap, r := SnapshotOf(s, mod), CommitResult(s, mod);
            && (r.Err? <==> snap != {} && exists f :: (f in snap) != Answered(s, mod, f))
            && (r.Err? ==> forall f :: (f in r.error.missing <==> f in snap && !Answered(s, mod, f))
                                    && (f in r.error.extra <==> f !in snap && Answered(s, mod, f)))
  {
    var snap, covered := SnapshotOf(s, mod), Covered(s.modules[mod].split.value, DeletedOf(s.modules, mod));
    forall f ensures f in covered <==> Answered(s, mod, f) { PlannedIff(s.modules[mod].split.value, f); }
    assert forall f :: f in Sorted(snap - covered) <==> f in Elems(Sorted(snap - covered));
    assert forall f :: f in Sorted(covered - snap) <==> f in Elems(Sorted(covered - snap));
    if snap != covered {
      var f :| f in (snap - covered) + (covered - snap);
      assert (f in snap) != Answered(s, mod, f);
    }
  }

  /** After an accepted commit another module lists what it listed and what the plan sends it, and the parent only
      its own candidate's files. */
  lemma ListedAfterCommit(s: Disk, mod: Name, t: Name, f: File)
    requires CommitApplies(s, mod)
    ensures var split := s.modules[mod].split.value;
            f in FilesOf(CommitDisk(s, mod).modules, t)
            <==> InChild(split, t, f) || (t != mod && (f in FilesOf(s.modules, t) || InMerge(split, t, f)))
  {
    CommittedFiles(s, mod, t);
  }

  /** The plan sends files to t. */
  predicate Receives(split: SplitDir, t: Name) {
    || (t in split.children && !("_" <= t) && split.children[t] != [])
    || (t in split.mergeTo && split.mergeTo[t] != [])
  }

  lemma ReceivesIff(split: SplitDir, t: Name)
    ensures Receives(split, t) <==> t in ChildMap(split) || t in MergeMap(split)
  {
  }

  /** From mods to after, module t has its list rewritten, sorted and without repeats, or stays as it is. */
  ghost predicate ListWritten(mods: map<Name, ModuleDir>, after: map<Name, ModuleDir>, t: Name, written: bool) {
    var d, e := DirOr(mods, t), DirOr(after, t);
    && e == d.(list := e.list)
    && (t in after <==> t in mods || written)
    && (if written then e.list.Some? && StrictlySorted(e.list.value) else e == d)
  }

  lemma ChildWritten(mods: map<Name, ModuleDir>, mod: Name, cm: map<Name, set<File>>, t: Name)
    ensures ListWritten(mods, WriteChildren(mods, mod, cm, cm.Keys), t, t in cm)
  {
  }

  lemma MergeWritten(mods: map<Name, ModuleDir>, mm: map<Name, set<File>>, t: Name)
    ensures ListWritten(mods, WriteMerges(mods, mm, mm.Keys), t, t in mm)
  {
  }

  lemma SettledWritten(mods: map<Name, ModuleDir>, mod: Name, cm: map<Name, set<File>>, t: Name)
    requires t != mod
    ensures ListWritten(mods, FinishParent(mods, mod, cm), t, false)
  {
  }

  /** Of another module an accepted commit changes the list alone, and only when the plan sends it files; no module
      is made without one. */
  lemma OthersAfterCommit(s: Disk, mod: Name, t: Name)
    requires CommitApplies(s, mod) && t != mod
    ensures ListWritten(s.modules, CommitDisk(s, mod).modules, t, Receives(s.modules[mod].split.value, t))
  {
    var split := s.modules[mod].split.value;
    var cm, mm := ChildMap(split), MergeMap(split);
    ReceivesIff(split, t);
    var m1 := WriteChildren(s.modules, mod, cm, cm.Keys);
    ChildWritten(s.modules, mod, cm, t);
    MergeWritten(m1, mm, t);
    SettledWritten(WriteMerges(m1, mm, mm.Keys), mod, cm, t);
  }

  /** The parent keeps its own candidate, or only its deletions, or goes; its deletions and recoveries stay. */
  lemma ParentAfterCommit(s: Disk, mod: Name)
    requires CommitApplies(s, mod)
    ensures var d, z := s.modules[mod], CommitDisk(s, mod);
            && (mod in z.modules <==> (exists f :: InChild(d.split.value, mod, f)) || d.deleted.Some?)
            && DirOr(z.modules, mod).split.None?
            && (mod in z.modules ==> z.modules[mod].deleted == d.deleted)
            && (mod in z.modules ==> z.modules[mod].recover == d.recover)
            && (DirOr(z.modules, mod).list.Some? <==> exists f :: InChild(d.split.value, mod, f))
  {
    var split := s.modules[mod].split.value;
    if mod in ChildMap(split) { assert InChild(split, mod, split.children[mod][0]); }
    if f :| InChild(split, mod, f) { assert mod in ChildMap(split); }
    ChildrenFiles(s.modules, mod, ChildMap(split), mod);
  }

  /** Snapshots are kept; the new ones are the lists of the modules that were sent files, the parent among them
      only as a merge target of its own. */
  lemma SnapshotsAfterCommit(s: Disk, mod: Name, t: Name)
    requires CommitApplies(s, mod)
    ensures var split, z := s.modules[mod].split.value, CommitDisk(s, mod);
            && (t in s.snapshots ==> t in z.snapshots && z.snapshots[t] == s.snapshots[t])
            && (t !in s.snapshots && t != mod ==>
                  (t in z.snapshots <==> Receives(split, t))
                  && (t in z.snapshots ==> z.modules[t].list == Some(z.snapshots[t])))
            && z.deletedList == s.deletedList
  {
    if t != mod {
      OthersAfterCommit(s, mod, t);
      ReceivesIff(s.modules[mod].split.value, t);
    }
  }

  /** A second commit finds no split/ any more. */
  lemma CommittedTwice(s: Disk, mod: Name)
    requires CommitApplies(s, mod)
    ensures var z := CommitDisk(s, mod);
            CommitDisk(z, mod) == z && CommitResult(z, mod) == Ok(CommitInfo(false, [], [], false))
  {
    ParentAfterCommit(s, mod);
  }

  /** An accepted commit reports, each once and in order, the candidates with files but the parent, and the merge
      targets with files; and whether the parent keeps files. */
  lemma ReportedNames(s: Disk, mod: Name)
    requires CommitApplies(s, mod)
    ensures var split, r := s.modules[mod].split.value, CommitResult(s, mod);
            && r.Ok? && r.value.applied
            && StrictlySorted(r.value.newModules) && StrictlySorted(r.value.mergedTargets)
            && (forall c :: c in r.value.newModules <==> c != mod && exists f :: InChild(split, c, f))
            && (forall t :: t in r.value.mergedTargets <==> exists f :: InMerge(split, t, f))
            && (r.value.retainedParent <==> exists f :: InChild(split, mod, f))
  {
    var split := s.modules[mod].split.value;
    var cm, mm := ChildMap(split), MergeMap(split);
    assert forall c :: c in Sorted(cm.Keys - {mod}) <==> c in Elems(Sorted(cm.Keys - {mod}));
    assert forall t :: t in Sorted(mm.Keys) <==> t in Elems(Sorted(mm.Keys));
    forall c ensures c in cm <==> exists f :: InChild(split, c, f) {
      if c in cm { assert InChild(split, c, split.children[c][0]); }
    }
    forall t ensures t in mm <==> exists f :: InMerge(split, t, f) {
      if t in mm { assert InMerge(split, t, split.mergeTo[t][0]); }
    }
  }

  /** With an empty or missing snapshot nothing is checked: the parent's own files all survive the commit
      exactly when the plan delivers each of them or another module lists it. */
  lemma UncheckedCommit(s: Disk, mod: Name)
    requires HasSplit(s, mod) && SnapshotOf(s, mod) == {}
    ensures CommitResult(s, mod).Ok?
    ensures FilesOf(s.modules, mod) <= Kept(CommitDisk(s, mod).modules, mod)
       <==> FilesOf(s.modules, mod) <= OtherFiles(s.modules, mod) + Delivered(s, mod)
  {
    CommitKeeps(s, mod);
  }

  /** Module a lists x, has no snapshot, and its plan sends only y to b. */
  function UncheckedPlan(a: Name, b: Name, x: File, y: File): Disk {
    Disk(map[a := ModuleDir(Some([x]), Some(SplitDir(map[b := [y]], map[])), None, None)], map[], [])
  }

  lemma UncheckedDelivers(a: Name, b: Name, x: File, y: File)
    ensures HasSplit(UncheckedPlan(a, b, x, y), a)
    ensures Delivered(UncheckedPlan(a, b, x, y), a) <= {y} && OtherFiles(UncheckedPlan(a, b, x, y).modules, a) == {}
  {
    assert ChildMap(SplitDir(map[b := [y]], map[])).Keys <= {b};
  }

  /** The commit is accepted, and x is listed nowhere any more. */
  lemma UncheckedCommitLoses(a: Name, b: Name, x: File, y: File)
    requires x != y
    ensures var s := UncheckedPlan(a, b, x, y);
            && CommitResult(s, a).Ok? && x in FilesOf(s.modules, a)
            && x !in Kept(CommitDisk(s, a).modules, a) && CommitDisk(s, a).deletedList == []
  {
    UncheckedDelivers(a, b, x, y);
    CommitKeeps(UncheckedPlan(a, b, x, y), a);
    assert SnapshotOf(UncheckedPlan(a, b, x, y), a) == {};
  }
}
