/** app/pipeline/s2_refine.py: the commit of the refinement stage, which keeps a snapshot inside each module
    directory, and whole runs of the stage. A files.list is the set of its stripped, non-blank lines. */
module RefineCommit {
  import opened Results
  import opened Ordering
  import opened Sequences
  import opened Text
  import Workspace
  import ZeroOmission

  type Name = Workspace.Name
  type File = Workspace.File

  /** split/: the candidate directories and split/_merge_to/<target>/, each with its files. */
  datatype Plan = Plan(children: map<Name, set<File>>, merges: map<Name, set<File>>)

  datatype Module = Module(list: Option<set<File>>, snapshot: Option<set<File>>, plan: Plan, deleted: set<File>) {
    function Files(): set<File> {
      list.GetOr({})
    }

    function Snapshot(): set<File> {
      snapshot.GetOr({})
    }
  }

  /** modules/ and deleted.list, which may be missing. */
  datatype Disk = Disk(modules: map<Name, Module>, deletedList: Option<seq<File>>)

  datatype CommitInfo = CommitInfo(newModules: seq<Name>, mergedTargets: seq<Name>, retainedParent: bool)

  /** The check reads a deleted.list that is not there, or finds files missing or extra. */
  datatype CommitError = NoDeletedList | Uncovered(missing: set<File>, extra: set<File>)

  const NO_PLAN := Plan(map[], map[])
  const EMPTY_MODULE := Module(None, None, NO_PLAN, {})

  function DirOr(mods: map<Name, Module>, t: Name): Module {
    if t in mods then mods[t] else EMPTY_MODULE
  }

  /** The children with files whose names do not start with '_'. */
  function ChildMap(plan: Plan): map<Name, set<File>> {
    map c | c in plan.children && !("_" <= c) && plan.children[c] != {} :: plan.children[c]
  }

  function MergeMap(plan: Plan): map<Name, set<File>> {
    map t | t in plan.merges && plan.merges[t] != {} :: plan.merges[t]
  }

  function SplitOut(d: Module): set<File> {
    Workspace.UnionOf(ChildMap(d.plan))
  }

  function MergeOut(d: Module): set<File> {
    Workspace.UnionOf(MergeMap(d.plan))
  }

  function Covered(d: Module): set<File> {
    SplitOut(d) + MergeOut(d) + d.deleted + d.Files()
  }

  // ---------- the check ----------

  /** f in text, for the text of a list with these entries: a stripped entry that occurs in the text occurs in one
      of its lines. */
  predicate Mentions(entries: set<File>, f: File) {
    exists e | e in entries :: Within(f, e)
  }

  predicate MentionedByOthers(mods: map<Name, Module>, m: Name, f: File) {
    exists t | t in mods && t != m :: Mentions(mods[t].Files(), f)
  }

  predicate Found(s: Disk, m: Name, f: File) {
    MentionedByOthers(s.modules, m, f) || Mentions(SetOf(s.deletedList.GetOr([])), f)
  }

  /** The files that the check misses: nowhere in the plan, the deletions or files.list. */
  function Missing(d: Module): set<File> {
    d.Snapshot() - Covered(d)
  }

  function NotFound(s: Disk, m: Name, files: set<File>): set<File> {
    set f | f in files && !Found(s, m, f)
  }

  function TrulyMissing(s: Disk, m: Name): set<File> {
    NotFound(s, m, Missing(DirOr(s.modules, m)))
  }

  function Extra(d: Module): set<File> {
    Covered(d) - d.Snapshot()
  }

  function Check(s: Disk, m: Name): Option<CommitError> {
    var d := DirOr(s.modules, m);
    if d.Snapshot() == {} || Covered(d) == d.Snapshot() then None
    else if s.deletedList.None? && TrulyMissing(s, m) != {} then Some(NoDeletedList)
    else if TrulyMissing(s, m) != {} || Extra(d) != {} then Some(Uncovered(TrulyMissing(s, m), Extra(d)))
    else None
  }

  // ---------- the writes ----------

  /** A target's list gains the files, and so does its snapshot while an agent is at work on it. */
  function Extended(d: Module, files: set<File>, busy: bool): Module {
    d.(list := Some(d.Files() + files),
       snapshot := if busy && d.snapshot.Some? then Some(d.snapshot.value + files) else d.snapshot)
  }

  /** The modules after the children in `done` are written, in any order. */
  function WriteChildren(mods: map<Name, Module>, m: Name, cm: map<Name, set<File>>, busy: set<Name>, done: set<Name>)
    : map<Name, Module>
    requires done <= cm.Keys
  {
    map t | t in mods.Keys + done ::
      if t !in done then mods[t]
      else if t == m then DirOr(mods, t).(list := Some(cm[t]))
      else Extended(DirOr(mods, t), cm[t], t in busy)
  }

  function WriteMerges(mods: map<Name, Module>, mm: map<Name, set<File>>, busy: set<Name>, done: set<Name>)
    : map<Name, Module>
    requires done <= mm.Keys
  {
    map t | t in mods.Keys + done :: if t !in done then mods[t] else Extended(DirOr(mods, t), mm[t], t in busy)
  }

  /** The parent keeps its own share, or what its list has beside the plan; without either it loses its list or,
      with no deletions, disappears. */
  function FinishParent(mods: map<Name, Module>, m: Name, cm: map<Name, set<File>>, mm: map<Name, set<File>>)
    : map<Name, Module>
  {
    var d := DirOr(mods, m);
    var kept := d.Files() - Workspace.UnionOf(cm) - Workspace.UnionOf(mm);
    if m in cm then mods[m := d.(list := Some(cm[m]))]
    else if kept != {} then mods[m := d.(list := Some(kept))]
    else if d.deleted != {} then mods[m := d.(list := None)]
    else mods - {m}
  }

  /** .snapshot, split/ and deleted/ are removed, and a directory without a list. */
  function Cleaned(mods: map<Name, Module>, m: Name): map<Name, Module> {
    if m !in mods then mods
    else if mods[m].list.None? then mods - {m}
    else mods[m := mods[m].(snapshot := None, plan := NO_PLAN, deleted := {})]
  }

  function Archived(s: Disk, m: Name): Option<seq<File>> {
    var gone := DirOr(s.modules, m).deleted;
    if gone == {} then s.deletedList else Some(s.deletedList.GetOr([]) + Sorted(gone))
  }

  function CommittedModules(s: Disk, m: Name, busy: set<Name>): map<Name, Module> {
    var d := DirOr(s.modules, m);
    var cm, mm := ChildMap(d.plan), MergeMap(d.plan);
    Cleaned(FinishParent(WriteMerges(WriteChildren(s.modules, m, cm, busy, cm.Keys), mm, busy, mm.Keys), m, cm, mm), m)
  }

  function CommitDisk(s: Disk, m: Name, busy: set<Name>): Disk {
    if Check(s, m).Some? then s else Disk(CommittedModules(s, m, busy), Archived(s, m))
  }

  function CommitResult(s: Disk, m: Name): Result<CommitInfo, CommitError> {
    var d := DirOr(s.modules, m);
    var cm := ChildMap(d.plan);
    if Check(s, m).Some? then Err(Check(s, m).value)
    else Ok(CommitInfo(Sorted(cm.Keys - {m}), Sorted(MergeMap(d.plan).Keys),
                       m in cm || d.Files() - SplitOut(d) - MergeOut(d) != {}))
  }

  lemma WriteChildrenStep(mods: map<Name, Module>, m: Name, cm: map<Name, set<File>>, busy: set<Name>,
                          done: set<Name>, child: Name)
    requires done <= cm.Keys && child in cm && child !in done
    ensures var before := WriteChildren(mods, m, cm, busy, done);
            WriteChildren(mods, m, cm, busy, done + {child})
              == before[child := if child == m then DirOr(before, child).(list := Some(cm[child]))
                                 else Extended(DirOr(before, child), cm[child], child in busy)]
  {
    assert DirOr(WriteChildren(mods, m, cm, busy, done), child) == DirOr(mods, child);
  }

  lemma WriteMergesStep(mods: map<Name, Module>, mm: map<Name, set<File>>, busy: set<Name>, done: set<Name>,
                        target: Name)
    requires done <= mm.Keys && target in mm && target !in done
    ensures var before := WriteMerges(mods, mm, busy, done);
            WriteMerges(mods, mm, busy, done + {target})
              == before[target := Extended(DirOr(before, target), mm[target], target in busy)]
  {
    assert DirOr(WriteMerges(mods, mm, busy, done), target) == DirOr(mods, target);
  }

  lemma NotFoundStep(s: Disk, m: Name, files: set<File>, f: File)
    ensures NotFound(s, m, files + {f}) == NotFound(s, m, files) + (if Found(s, m, f) then {} else {f})
  {
  }

  class RefineWorkspace {
    var modules: map<Name, Module>
    var deletedList: Option<seq<File>>

    ghost function View(): Disk
      reads this
    {
      Disk(modules, deletedList)
    }

    constructor (modules: map<Name, Module>, deletedList: Option<seq<File>>)
      ensures View() == Disk(modules, deletedList)
    {
      this.modules, this.deletedList := modules, deletedList;
    }

    /** Adding files to the list and, while an agent is at work on the module, to an existing snapshot. */
    method Extend(t: Name, files: set<File>, busy: set<Name>)
      modifies this`modules
      ensures modules == old(modules)[t := Extended(DirOr(old(modules), t), files, t in busy)]
    {
      var d := DirOr(modules, t);
      d := d.(list := Some(d.Files() + files));
      if t in busy && d.snapshot.Some? {
        d := d.(snapshot := Some(d.snapshot.value + files));
      }
      modules := modules[t := d];
    }

    method ApplyChildren(m: Name, cm: map<Name, set<File>>, busy: set<Name>)
      modifies this`modules
      ensures modules == WriteChildren(old(modules), m, cm, busy, cm.Keys)
    {
      var names := Sorted(cm.Keys);
      PrefixAll(cm.Keys);
      for i := 0 to |names|
        invariant Elems(names[..i]) <= cm.Keys
        invariant modules == WriteChildren(old(modules), m, cm, busy, Elems(names[..i]))
      {
        var child := names[i];
        PrefixStep(cm.Keys, i);
        WriteChildrenStep(old(modules), m, cm, busy, Elems(names[..i]), child);
        if child == m {
          modules := modules[child := DirOr(modules, child).(list := Some(cm[child]))];
        } else {
          Extend(child, cm[child], busy);
        }
      }
    }

    method ApplyMerges(mm: map<Name, set<File>>, busy: set<Name>)
      modifies this`modules
      ensures modules == WriteMerges(old(modules), mm, busy, mm.Keys)
    {
      var names := Sorted(mm.Keys);
      PrefixAll(mm.Keys);
      for i := 0 to |names|
        invariant Elems(names[..i]) <= mm.Keys
        invariant modules == WriteMerges(old(modules), mm, busy, Elems(names[..i]))
      {
        PrefixStep(mm.Keys, i);
        WriteMergesStep(old(modules), mm, busy, Elems(names[..i]), names[i]);
        Extend(names[i], mm[names[i]], busy);
      }
    }

    method SettleParent(m: Name, cm: map<Name, set<File>>, mm: map<Name, set<File>>) returns (kept: bool)
      modifies this`modules
      ensures modules == FinishParent(old(modules), m, cm, mm)
      ensures kept <==> m !in cm && DirOr(old(modules), m).Files() - Workspace.UnionOf(cm) - Workspace.UnionOf(mm) != {}
    {
      var d := DirOr(modules, m);
      kept := false;
      if m in cm {
        modules := modules[m := d.(list := Some(cm[m]))];
      } else {
        var lines := d.Files() - Workspace.UnionOf(cm) - Workspace.UnionOf(mm);
        if lines != {} {
          modules := modules[m := d.(list := Some(lines))];
          kept := true;
        } else if d.deleted != {} {
          modules := modules[m := d.(list := None)];
        } else {
          modules := modules - {m};
        }
      }
    }

    /** The loops of the check over the missing files and, for each, over the other modules' lists. */
    method FindMissing(m: Name, missing: set<File>) returns (lost: set<File>, failed: bool)
      ensures failed <==> deletedList.None? && NotFound(View(), m, missing) != {}
      ensures !failed ==> lost == NotFound(View(), m, missing)
    {
      var files := Sorted(missing);
      PrefixAll(missing);
      lost, failed := {}, false;
      for i := 0 to |files|
        invariant Elems(files[..i]) <= missing
        invariant lost == NotFound(View(), m, Elems(files[..i]))
        invariant deletedList.None? ==> lost == {}
      {
        var f := files[i];
        PrefixStep(missing, i);
        NotFoundStep(View(), m, Elems(files[..i]), f);
        var found := MentionedElsewhere(m, f);
        if !found {
          if deletedList.None? {
            assert f in NotFound(View(), m, missing);
            return {}, true;
          }
          if !Mentions(SetOf(deletedList.value), f) {
            lost := lost + {f};
          }
        }
      }
    }

    method MentionedElsewhere(m: Name, f: File) returns (found: bool)
      ensures found == MentionedByOthers(modules, m, f)
    {
      var names := Sorted(modules.Keys);
      PrefixAll(modules.Keys);
      for i := 0 to |names|
        invariant Elems(names[..i]) <= modules.Keys
        invariant forall t | t in Elems(names[..i]) && t != m :: !Mentions(modules[t].Files(), f)
      {
        PrefixStep(modules.Keys, i);
        if names[i] != m && Mentions(modules[names[i]].Files(), f) {
          return true;
        }
      }
      return false;
    }

    method CheckModule(m: Name) returns (e: Option<CommitError>)
      ensures e == Check(View(), m)
    {
      var d := DirOr(modules, m);
      if d.Snapshot() == {} || Covered(d) == d.Snapshot() {
        return None;
      }
      var lost, failed := FindMissing(m, Missing(d));
      if failed {
        return Some(NoDeletedList);
      }
      return if lost != {} || Extra(d) != {} then Some(Uncovered(lost, Extra(d))) else None;
    }

    /** _commit_one_module, and the commit worker's removal of a directory left without a list. */
    method CommitOneModule(m: Name, busy: set<Name>) returns (r: Result<CommitInfo, CommitError>)
      modifies this
      ensures View() == CommitDisk(old(View()), m, busy)
      ensures r == CommitResult(old(View()), m)
    {
      var e := CheckModule(m);
      if e.Some? {
        return Err(e.value);
      }
      var d := DirOr(modules, m);
      var cm, mm := ChildMap(d.plan), MergeMap(d.plan);
      ApplyChildren(m, cm, busy);
      ApplyMerges(mm, busy);
      ParentBeforeSettling(old(View()), m, cm, mm, busy);
      var kept := SettleParent(m, cm, mm);
      if d.deleted != {} {
        deletedList := Some(deletedList.GetOr([]) + Sorted(d.deleted));
      }
      if m in modules {
        if modules[m].list.None? {
          modules := modules - {m};
        } else {
          modules := modules[m := modules[m].(snapshot := None, plan := NO_PLAN, deleted := {})];
        }
      }
      return Ok(CommitInfo(Sorted(cm.Keys - {m}), Sorted(mm.Keys), m in cm || kept));
    }
  }

  /** What the parent holds when it is settled: its old list, or its own share, and what is merged into itself. */
  lemma ParentBeforeSettling(s: Disk, m: Name, cm: map<Name, set<File>>, mm: map<Name, set<File>>, busy: set<Name>)
    ensures var d := DirOr(WriteMerges(WriteChildren(s.modules, m, cm, busy, cm.Keys), mm, busy, mm.Keys), m);
            && d.deleted == DirOr(s.modules, m).deleted
            && d.Files() == (if m in cm then cm[m] else DirOr(s.modules, m).Files()) + ZeroOmission.Share(mm, m)
            && (m !in cm ==> d.Files() - Workspace.UnionOf(cm) - Workspace.UnionOf(mm)
                             == DirOr(s.modules, m).Files() - Workspace.UnionOf(cm) - Workspace.UnionOf(mm))
  {
  }
}
