/** The module workspace of app/pipeline/helpers.py: modules/<name>/ with files.list and the
    Worker's split/, deleted/ and recover/ drafts, .s2_snapshots/ and the append-only deleted.list.
    A files.list is the sequence of its stripped, non-blank lines. */
module Workspace {
  import opened Results
  import opened Ordering
  import opened Sequences
  import opened Text

  type Name = string
  type File = string

  /** split/: the candidate directories and split/_merge_to/<target>/, each with its files.list. */
  datatype SplitDir = SplitDir(children: map<Name, seq<File>>, mergeTo: map<Name, seq<File>>)

  /** deleted/, which may exist without a files.list. */
  datatype DeletedDir = DeletedDir(list: Option<seq<File>>)

  datatype ModuleDir = ModuleDir(
    list: Option<seq<File>>, split: Option<SplitDir>, deleted: Option<DeletedDir>, recover: Option<seq<File>>)

  datatype Disk = Disk(modules: map<Name, ModuleDir>, snapshots: map<Name, seq<File>>, deletedList: seq<File>)

  datatype CommitInfo = CommitInfo(applied: bool, newModules: seq<Name>, mergedTargets: seq<Name>, retainedParent: bool)
  datatype StageError = StageError(missing: seq<File>, extra: seq<File>)

  const EMPTY_DIR := ModuleDir(None, None, None, None)

  // ---------- readers ----------

  function ReadModuleFiles(d: ModuleDir): seq<File> {
    d.list.GetOr([])
  }

  function ReadDeleted(d: ModuleDir): seq<File> {
    if d.deleted.Some? then d.deleted.value.list.GetOr([]) else []
  }

  function DirOr(mods: map<Name, ModuleDir>, t: Name): ModuleDir {
    if t in mods then mods[t] else EMPTY_DIR
  }

  function FilesOf(mods: map<Name, ModuleDir>, t: Name): set<File> {
    SetOf(ReadModuleFiles(DirOr(mods, t)))
  }

  function DeletedOf(mods: map<Name, ModuleDir>, t: Name): set<File> {
    SetOf(ReadDeleted(DirOr(mods, t)))
  }

  function SnapshotOf(s: Disk, m: Name): set<File> {
    if m in s.snapshots then SetOf(s.snapshots[m]) else {}
  }

  /** list_split_candidate_modules: directories not starting with '_' whose files.list is not empty. */
  function Candidates(split: SplitDir): set<Name> {
    set c | c in split.children && !("_" <= c) && split.children[c] != []
  }

  function ChildMap(split: SplitDir): map<Name, set<File>> {
    map c | c in Candidates(split) :: SetOf(split.children[c])
  }

  /** read_split_merge_targets. */
  function MergeMap(split: SplitDir): map<Name, set<File>> {
    map t | t in split.mergeTo && split.mergeTo[t] != [] :: SetOf(split.mergeTo[t])
  }

  function UnionOf(m: map<Name, set<File>>): set<File> {
    set t, f | t in m && f in m[t] :: f
  }

  function Covered(split: SplitDir, deleted: set<File>): set<File> {
    UnionOf(ChildMap(split)) + UnionOf(MergeMap(split)) + deleted
  }

  // ---------- commit_split_plan, as a function of the disk ----------

  /** _write_unique_files. */
  function WriteUnique(d: ModuleDir, files: set<File>): ModuleDir {
    d.(list := Some(Sorted(files)))
  }

  /** The modules after the children in `done` are written, in any order. */
  function WriteChildren(mods: map<Name, ModuleDir>, mod: Name, cm: map<Name, set<File>>, done: set<Name>)
    : map<Name, ModuleDir>
    requires done <= cm.Keys
  {
    map t | t in mods.Keys + done ::
      if t !in done then mods[t]
      else WriteUnique(DirOr(mods, t), if t == mod then cm[t] else FilesOf(mods, t) + cm[t])
  }

  /** The modules after the merge targets in `done` are extended, in any order. */
  function WriteMerges(mods: map<Name, ModuleDir>, mm: map<Name, set<File>>, done: set<Name>): map<Name, ModuleDir>
    requires done <= mm.Keys
  {
    map t | t in mods.Keys + done ::
      if t !in done then mods[t] else WriteUnique(DirOr(mods, t), FilesOf(mods, t) + mm[t])
  }

  /** The parent keeps its own share, keeps only deleted/, or disappears; split/ goes in every case. */
  function FinishParent(mods: map<Name, ModuleDir>, mod: Name, cm: map<Name, set<File>>): map<Name, ModuleDir> {
    var d := DirOr(mods, mod);
    if mod in cm then mods[mod := WriteUnique(d, cm[mod]).(split := None)]
    else if d.deleted.Some? then mods[mod := d.(list := None, split := None)]
    else mods - {mod}
  }

  /** Snapshots for the modules written to; an existing snapshot is not refreshed. */
  function AddSnapshots(snaps: map<Name, seq<File>>, mods: map<Name, ModuleDir>, written: set<Name>)
    : map<Name, seq<File>>
  {
    map t | t in snaps.Keys + (set w | w in written && w in mods && mods[w].list.Some?) ::
      if t in snaps then snaps[t] else mods[t].list.value
  }

  lemma WriteChildrenStep(mods: map<Name, ModuleDir>, mod: Name, cm: map<Name, set<File>>, done: set<Name>, child: Name)
    requires done <= cm.Keys && child in cm && child !in done
    ensures var before := WriteChildren(mods, mod, cm, done);
            var existing := if child == mod then {} else FilesOf(before, child);
            WriteChildren(mods, mod, cm, done + {child})
              == before[child := WriteUnique(DirOr(before, child), existing + cm[child])]
  {
    var before := WriteChildren(mods, mod, cm, done);
    assert DirOr(before, child) == DirOr(mods, child);
    assert {} + cm[child] == cm[child];
  }

  lemma WriteMergesStep(mods: map<Name, ModuleDir>, mm: map<Name, set<File>>, done: set<Name>, target: Name)
    requires done <= mm.Keys && target in mm && target !in done
    ensures var before := WriteMerges(mods, mm, done);
            WriteMerges(mods, mm, done + {target})
              == before[target := WriteUnique(DirOr(before, target), FilesOf(before, target) + mm[target])]
  {
  }

  lemma AddSnapshotsStep(snaps: map<Name, seq<File>>, mods: map<Name, ModuleDir>, done: set<Name>, child: Name)
    ensures var before := AddSnapshots(snaps, mods, done);
            AddSnapshots(snaps, mods, done + {child})
              == if child !in before && child in mods && mods[child].list.Some?
                 then before[child := mods[child].list.value] else before
  {
  }

  predicate HasSplit(s: Disk, mod: Name) {
    mod in s.modules && s.modules[mod].split.Some?
  }

  /** The all-or-nothing check: a non-empty snapshot must be covered exactly. */
  predicate CommitAccepted(s: Disk, mod: Name)
    requires HasSplit(s, mod)
  {
    SnapshotOf(s, mod) == {} ||
    Covered(s.modules[mod].split.value, DeletedOf(s.modules, mod)) == SnapshotOf(s, mod)
  }

  predicate CommitApplies(s: Disk, mod: Name) {
    HasSplit(s, mod) && CommitAccepted(s, mod)
  }

  function CommittedModules(s: Disk, mod: Name): map<Name, ModuleDir>
    requires HasSplit(s, mod)
  {
    var split := s.modules[mod].split.value;
    var cm, mm := ChildMap(split), MergeMap(split);
    FinishParent(WriteMerges(WriteChildren(s.modules, mod, cm, cm.Keys), mm, mm.Keys), mod, cm)
  }

  function CommittedSnapshots(s: Disk, mod: Name): map<Name, seq<File>>
    requires HasSplit(s, mod)
  {
    var split := s.modules[mod].split.value;
    AddSnapshots(s.snapshots, CommittedModules(s, mod), (ChildMap(split).Keys - {mod}) + MergeMap(split).Keys)
  }

  function CommitDisk(s: Disk, mod: Name): Disk {
    if !CommitApplies(s, mod) then s
    else Disk(CommittedModules(s, mod), CommittedSnapshots(s, mod), s.deletedList)
  }

  function CommitResult(s: Disk, mod: Name): Result<CommitInfo, StageError> {
    if !HasSplit(s, mod) then Ok(CommitInfo(false, [], [], false))
    else
      var split := s.modules[mod].split.value;
      var covered, snap := Covered(split, DeletedOf(s.modules, mod)), SnapshotOf(s, mod);
      if !CommitAccepted(s, mod) then Err(StageError(Sorted(snap - covered), Sorted(covered - snap)))
      else Ok(CommitInfo(true, Sorted(ChildMap(split).Keys - {mod}), Sorted(MergeMap(split).Keys),
                         mod in ChildMap(split)))
  }

  // ---------- restore, recover and archive ----------

  function RestoredDir(s: Disk, mod: Name): ModuleDir {
    var d := DirOr(s.modules, mod);
    d.(list := if mod in s.snapshots then Some(s.snapshots[mod]) else d.list, split := None, deleted := None)
  }

  /** restore_module_for_retry; without a snapshot the module directory is not created. */
  function RestoreDisk(s: Disk, mod: Name): Disk {
    if mod in s.snapshots || mod in s.modules then s.(modules := s.modules[mod := RestoredDir(s, mod)]) else s
  }

  function Without(files: seq<File>, gone: set<File>): (r: seq<File>)
    ensures Elems(r) == Elems(files) - gone
  {
    if files == [] then []
    else
      var rest := Without(files[1..], gone);
      assert Elems(files) == {files[0]} + Elems(files[1..]);
      assert Elems([files[0]] + rest) == {files[0]} + Elems(rest);
      if files[0] in gone then rest else [files[0]] + rest
  }

  /** deleted/ after the recovered entries are taken out; an emptied deleted/ is removed. */
  function DeletedAfterRecover(deleted: Option<DeletedDir>, recovered: set<File>): Option<DeletedDir> {
    if deleted.None? || deleted.value.list.None? then deleted
    else
      var remaining := Without(deleted.value.list.value, recovered);
      if remaining == [] then None else Some(DeletedDir(Some(remaining)))
  }

  /** process_module_recover on one module directory. */
  function RecoveredDir(d: ModuleDir): ModuleDir {
    if d.recover.None? then d
    else if d.recover.value == [] then d.(recover := None)
    else d.(
      list := Some(ReadModuleFiles(d) + d.recover.value),
      deleted := DeletedAfterRecover(d.deleted, SetOf(d.recover.value)),
      recover := None)
  }

  function RecoverDisk(s: Disk, mod: Name): Disk {
    if mod in s.modules then s.(modules := s.modules[mod := RecoveredDir(s.modules[mod])]) else s
  }

  /** archive_module_deletions. */
  function ArchiveDisk(s: Disk, mod: Name): Disk {
    if mod in s.modules && s.modules[mod].deleted.Some? then
      s.(modules := s.modules[mod := s.modules[mod].(deleted := None)],
         deletedList := s.deletedList + ReadDeleted(s.modules[mod]))
    else s
  }

  // ---------- stray directories ----------

  /** The directories at the workspace root, each with its files.list, if any. */
  type Root = map<Name, Option<seq<File>>>

  /** _clean_orphan_dirs takes a directory for a misspelt module path: it has a list but no snapshot, is neither
      hidden nor modules/ nor refined, and its name contains the module's, in lower case. */
  predicate Orphan(root: Root, snapshots: set<Name>, mod: Name, refined: set<Name>, lower: string -> string, d: Name) {
    && d in root && root[d].Some? && d !in snapshots
    && !("." <= d) && d != "modules" && d !in refined
    && Within(lower(mod), lower(d))
  }

  function WithoutOrphans(root: Root, snapshots: set<Name>, mod: Name, refined: set<Name>, lower: string -> string)
    : Root
  {
    map d | d in root && !Orphan(root, snapshots, mod, refined, lower, d) :: root[d]
  }

  // ---------- the workspace itself ----------

  class WorkspaceDir {
    var modules: map<Name, ModuleDir>
    var snapshots: map<Name, seq<File>>
    var deletedList: seq<File>
    var root: Root

    ghost function View(): Disk
      reads this
    {
      Disk(modules, snapshots, deletedList)
    }

    constructor (modules: map<Name, ModuleDir>, snapshots: map<Name, seq<File>>, deletedList: seq<File>, root: Root)
      ensures View() == Disk(modules, snapshots, deletedList) && this.root == root
    {
      this.modules, this.snapshots, this.deletedList, this.root := modules, snapshots, deletedList, root;
    }

    method WriteFilesList(t: Name, files: set<File>)
      modifies this`modules
      ensures modules == old(modules)[t := WriteUnique(DirOr(old(modules), t), files)]
    {
      var d := DirOr(modules, t);
      modules := modules[t := d.(list := Some(Sorted(files)))];
    }

    method ApplyChildren(mod: Name, cm: map<Name, set<File>>)
      modifies this`modules
      ensures modules == WriteChildren(old(modules), mod, cm, cm.Keys)
    {
      var names := Sorted(cm.Keys);
      PrefixAll(cm.Keys);
      for i := 0 to |names|
        invariant Elems(names[..i]) <= cm.Keys
        invariant modules == WriteChildren(old(modules), mod, cm, Elems(names[..i]))
      {
        var child := names[i];
        PrefixStep(cm.Keys, i);
        WriteChildrenStep(old(modules), mod, cm, Elems(names[..i]), child);
        var existing := if child == mod then {} else FilesOf(modules, child);
        WriteFilesList(child, existing + cm[child]);
      }
    }

    method ApplyMerges(mm: map<Name, set<File>>)
      modifies this`modules
      ensures modules == WriteMerges(old(modules), mm, mm.Keys)
    {
      var names := Sorted(mm.Keys);
      PrefixAll(mm.Keys);
      for i := 0 to |names|
        invariant Elems(names[..i]) <= mm.Keys
        invariant modules == WriteMerges(old(modules), mm, Elems(names[..i]))
      {
        var target := names[i];
        PrefixStep(mm.Keys, i);
        WriteMergesStep(old(modules), mm, Elems(names[..i]), target);
        WriteFilesList(target, FilesOf(modules, target) + mm[target]);
      }
    }

    method CreateSnapshots(written: set<Name>)
      modifies this`snapshots
      ensures snapshots == AddSnapshots(old(snapshots), modules, written)
    {
      var names := Sorted(written);
      PrefixAll(written);
      for i := 0 to |names|
        invariant Elems(names[..i]) <= written
        invariant snapshots == AddSnapshots(old(snapshots), modules, Elems(names[..i]))
      {
        var child := names[i];
        PrefixStep(written, i);
        AddSnapshotsStep(old(snapshots), modules, Elems(names[..i]), child);
        if child !in snapshots && child in modules && modules[child].list.Some? {
          snapshots := snapshots[child := modules[child].list.value];
        }
      }
    }

    method SettleParent(mod: Name, cm: map<Name, set<File>>)
      modifies this`modules
      ensures modules == FinishParent(old(modules), mod, cm)
    {
      if mod in cm {
        WriteFilesList(mod, cm[mod]);
        modules := modules[mod := modules[mod].(split := None)];
      } else if DirOr(modules, mod).deleted.Some? {
        modules := modules[mod := modules[mod].(list := None, split := None)];
      } else {
        modules := modules - {mod};
      }
    }

    /** The writing half of commit_split_plan, reached only after the check. */
    method ApplyPlan(mod: Name, split: SplitDir)
      requires HasSplit(View(), mod) && split == modules[mod].split.value
      modifies this
      ensures modules == CommittedModules(old(View()), mod)
      ensures snapshots == CommittedSnapshots(old(View()), mod)
      ensures deletedList == old(deletedList)
    {
      var cm, mm := ChildMap(split), MergeMap(split);
      ApplyChildren(mod, cm);
      ApplyMerges(mm);
      SettleParent(mod, cm);
      CreateSnapshots((cm.Keys - {mod}) + mm.Keys);
    }

    method CommitSplitPlan(mod: Name) returns (r: Result<CommitInfo, StageError>)
      modifies this
      ensures View() == CommitDisk(old(View()), mod)
      ensures r == CommitResult(old(View()), mod)
    {
      if mod !in modules || modules[mod].split.None? {
        return Ok(CommitInfo(false, [], [], false));
      }
      var split := modules[mod].split.value;
      var snap := if mod in snapshots then SetOf(snapshots[mod]) else {};
      var covered := Covered(split, DeletedOf(modules, mod));
      if snap != {} && covered != snap {
        return Err(StageError(Sorted(snap - covered), Sorted(covered - snap)));
      }
      ApplyPlan(mod, split);
      var cm := ChildMap(split);
      return Ok(CommitInfo(true, Sorted(cm.Keys - {mod}), Sorted(MergeMap(split).Keys), mod in cm));
    }

    /** _clean_orphan_dirs, with the directories met in any order. */
    method CleanOrphanDirs(mod: Name, refined: set<Name>, lower: string -> string)
      modifies this`root
      ensures root == WithoutOrphans(old(root), snapshots.Keys, mod, refined, lower)
    {
      var todo := root.Keys;
      while todo != {}
        invariant todo <= old(root).Keys
        invariant root == map d | d in old(root) &&
                    (d in todo || !Orphan(old(root), snapshots.Keys, mod, refined, lower, d)) :: old(root)[d]
        decreases |todo|
      {
        var d :| d in todo;
        todo := todo - {d};
        if !("." <= d) && d != "modules" && d !in refined {
          if root[d].Some? && d !in snapshots && Within(lower(mod), lower(d)) {
            root := root - {d};
          }
        }
      }
    }

    method RestoreModuleForRetry(mod: Name, refined: set<Name>, lower: string -> string)
      modifies this`modules, this`root
      ensures View() == RestoreDisk(old(View()), mod)
      ensures root == WithoutOrphans(old(root), snapshots.Keys, mod, refined, lower)
    {
      if mod in snapshots {
        modules := modules[mod := DirOr(modules, mod).(list := Some(snapshots[mod]))];
      }
      if mod in modules {
        modules := modules[mod := modules[mod].(split := None)];
        modules := modules[mod := modules[mod].(deleted := None)];
      }
      CleanOrphanDirs(mod, refined, lower);
    }

    method ProcessModuleRecover(mod: Name) returns (recovered: seq<File>)
      modifies this`modules
      ensures View() == RecoverDisk(old(View()), mod)
      ensures recovered == if mod in old(modules) then old(modules)[mod].recover.GetOr([]) else []
    {
      if mod !in modules || modules[mod].recover.None? {
        assert mod in modules ==> modules[mod := modules[mod]] == modules;
        return [];
      }
      var d := modules[mod];
      recovered := d.recover.value;
      if recovered == [] {
        modules := modules[mod := d.(recover := None)];
        return;
      }
      var recoverSet := SetOf(recovered);
      if d.deleted.Some? && d.deleted.value.list.Some? {
        var remaining: seq<File> := [];
        var lines := d.deleted.value.list.value;
        for i := 0 to |lines|
          invariant remaining + Without(lines[i..], recoverSet) == Without(lines, recoverSet)
        {
          assert lines[i..] == [lines[i]] + lines[i + 1..];
          if lines[i] !in recoverSet {
            remaining := remaining + [lines[i]];
          }
        }
        assert remaining == Without(lines, recoverSet);
        if remaining != [] {
          d := d.(deleted := Some(DeletedDir(Some(remaining))));
        } else {
          d := d.(deleted := None);
        }
      }
      modules := modules[mod := d.(list := Some(ReadModuleFiles(d) + recovered), recover := None)];
    }

    method ArchiveModuleDeletions(mod: Name) returns (n: nat)
      modifies this`modules, this`deletedList
      ensures View() == ArchiveDisk(old(View()), mod)
      ensures n == if mod in old(modules) then |ReadDeleted(old(modules)[mod])| else 0
    {
      if mod !in modules || modules[mod].deleted.None? {
        return 0;
      }
      var files := ReadDeleted(modules[mod]);
      var i := 0;
      while i < |files|
        invariant 0 <= i <= |files|
        invariant modules == old(modules)
        invariant deletedList == old(deletedList) + files[..i]
      {
        deletedList := deletedList + [files[i]];
        i := i + 1;
      }
      modules := modules[mod := modules[mod].(deleted := None)];
      return |files|;
    }
  }
}
