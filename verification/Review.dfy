/** The Worker/Judge round loops of app/pipeline/s1_classify.py and app/pipeline/s1_security_filter.py, with the
    vote of app/pipeline/helpers.py. Rounds are counted from 1; Workers and Judges are arbitrary. */
module Review {
  import opened Results
  import opened Ordering
  import opened Sequences
  import Discovery

  type Name = string
  type File = string

  // ---------- the vote ----------

  function Passes(verdicts: seq<bool>): (n: nat)
    ensures n <= |verdicts|
  {
    if verdicts == [] then 0
    else if Last(verdicts) then Passes(Init(verdicts)) + 1
    else Passes(Init(verdicts))
  }

  predicate Vote(verdicts: seq<bool>, mode: string, judges: nat) {
    var passes := Passes(verdicts);
    if mode == "any" then passes >= 1
    else if mode == "majority" then passes as real > judges as real / 2.0
    else passes == judges
  }

  ghost function Approvals(verdicts: seq<bool>): set<nat> {
    set i: nat | i < |verdicts| && verdicts[i]
  }

  lemma {:induction false} PassesCounts(verdicts: seq<bool>)
    ensures Passes(verdicts) == |Approvals(verdicts)|
  {
    if verdicts != [] {
      var n := |verdicts| - 1;
      PassesCounts(Init(verdicts));
      OneIndexMore(Approvals(Init(verdicts)), Approvals(verdicts), n, verdicts[n]);
    }
  }

  ghost function Rejections(verdicts: seq<bool>): set<nat> {
    set i: nat | i < |verdicts| && !verdicts[i]
  }

  /** Some judge passes, more judges pass than do not, every judge passes. */
  ghost predicate Approves(verdicts: seq<bool>, mode: string) {
    if mode == "any" then true in verdicts
    else if mode == "majority" then |Approvals(verdicts)| > |Rejections(verdicts)|
    else false !in verdicts
  }

  lemma {:induction false} VotesAdd(verdicts: seq<bool>)
    ensures |Approvals(verdicts)| + |Rejections(verdicts)| == |verdicts|
  {
    if verdicts == [] {
      assert Approvals(verdicts) == {} && Rejections(verdicts) == {};
    } else {
      var n := |verdicts| - 1;
      VotesAdd(Init(verdicts));
      OneIndexMore(Approvals(Init(verdicts)), Approvals(verdicts), n, verdicts[n]);
      OneIndexMore(Rejections(Init(verdicts)), Rejections(verdicts), n, !verdicts[n]);
    }
  }

  /** With the judges' own number, the count and the mode give this vote. */
  lemma VoteIs(verdicts: seq<bool>, mode: string)
    ensures Vote(verdicts, mode, |verdicts|) <==> Approves(verdicts, mode)
  {
    PassesCounts(verdicts);
    VotesAdd(verdicts);
    if true in verdicts {
      var i: nat :| i < |verdicts| && verdicts[i];
      assert i in Approvals(verdicts);
    } else {
      assert Approvals(verdicts) == {};
    }
    if false in verdicts {
      var i: nat :| i < |verdicts| && !verdicts[i];
      assert i in Rejections(verdicts);
    } else {
      assert Rejections(verdicts) == {};
    }
  }

  /** check_voting. */
  method CheckVoting(verdicts: seq<bool>, mode: string, judges: nat) returns (pass: bool)
    ensures pass == Vote(verdicts, mode, judges)
    ensures judges == |verdicts| ==> (pass <==> Approves(verdicts, mode))
  {
    var passes := 0;
    for i := 0 to |verdicts|
      invariant passes == Passes(verdicts[..i])
    {
      assert Init(verdicts[..i + 1]) == verdicts[..i] && Last(verdicts[..i + 1]) == verdicts[i];
      if verdicts[i] {
        passes := passes + 1;
      }
    }
    assert verdicts[..|verdicts|] == verdicts;
    VoteIs(verdicts, mode);
    if mode == "any" {
      return passes >= 1;
    } else if mode == "majority" {
      return passes as real > judges as real / 2.0;
    }
    return passes == judges;
  }

  /** The judges' own mode: every judge passes, more than half do, at least one does. */
  ghost predicate Strictness(mode: string, level: nat) {
    match level
    case 0 => mode == "any"
    case 1 => mode == "majority"
    case _ => mode != "any" && mode != "majority"
  }

  /** Loosening all to majority to any keeps every vote that passed, exactly when there is a judge: without one
      "all" passes and the others do not. */
  lemma LooseningKeepsTheVoteIff(verdicts: seq<bool>, strict: string, loose: string, s: nat, l: nat)
    requires Strictness(strict, s) && Strictness(loose, l) && l < s <= 2
    ensures (Vote(verdicts, strict, |verdicts|) ==> Vote(verdicts, loose, |verdicts|))
       <==> verdicts != [] || s == 1
  {
  }

  /** Without a judge "all" passes, and loosening it fails. */
  lemma NoJudgePassesAllOnly()
    ensures Vote([], "all", 0) && !Vote([], "majority", 0) && !Vote([], "any", 0)
  {
    assert "all"[1] != "any"[1] && |"all"| != |"majority"|;
  }

  // ---------- the classify loop ----------

  datatype Config = Config(mode: string, minRounds: int, maxRounds: int)

  const UNLIMITED := 999

  function MaxIter(cfg: Config): int {
    if cfg.maxRounds < 0 then UNLIMITED else cfg.maxRounds
  }

  /** The rounds go up to max_rounds, and with a negative one to 999. */
  predicate InLimit(cfg: Config, r: int) {
    1 <= r && (if cfg.maxRounds >= 0 then r <= cfg.maxRounds else r < 1000)
  }

  /** The vote of a round counts only from min_rounds on. */
  ghost predicate Accepts(cfg: Config, verdicts: nat -> seq<bool>, r: nat) {
    Approves(verdicts(r), cfg.mode) && r >= cfg.minRounds
  }

  /** r is the first accepting round, within the limit. */
  ghost predicate FirstAccepting(cfg: Config, verdicts: nat -> seq<bool>, r: nat) {
    InLimit(cfg, r) && Accepts(cfg, verdicts, r) && forall s: nat | 1 <= s < r :: !Accepts(cfg, verdicts, s)
  }

  ghost predicate NeverAccepts(cfg: Config, verdicts: nat -> seq<bool>) {
    forall s: nat | InLimit(cfg, s) :: !Accepts(cfg, verdicts, s)
  }

  /** A round that returns, by its vote or as a last round treated as passed, or the stage error. */
  datatype Outcome = Passed(round: nat) | Forced(round: nat) | Failed

  ghost predicate Decides(cfg: Config, treatAsPassed: bool, verdicts: nat -> seq<bool>, o: Outcome) {
    match o
    case Passed(r) => FirstAccepting(cfg, verdicts, r)
    case Forced(r) => treatAsPassed && InLimit(cfg, r) && !InLimit(cfg, r + 1) && NeverAccepts(cfg, verdicts)
    case Failed => (!treatAsPassed || !InLimit(cfg, 1)) && NeverAccepts(cfg, verdicts)
  }

  /** The task's deleted/files.list, as the Worker and the Judges leave it, and deleted.list. */
  class ClassifyStage {
    var deleted: Option<seq<File>>
    var deletedList: seq<File>

    constructor (deleted: Option<seq<File>>, deletedList: seq<File>)
      ensures this.deleted == deleted && this.deletedList == deletedList
    {
      this.deleted, this.deletedList := deleted, deletedList;
    }

    /** _archive_s1_deleted. */
    method ArchiveDeleted()
      modifies this
      ensures deleted == None && deletedList == old(deletedList) + old(deleted).GetOr([])
    {
      if deleted.Some? {
        deletedList := deletedList + deleted.value;
        deleted := None;
      }
    }

    /** The round loop of ClassifyStage.execute. Only the deletions proposed in the round that returns are
        archived: those of earlier rounds are cleared before each retry. */
    method Execute(cfg: Config, treatAsPassed: bool, verdicts: nat -> seq<bool>,
                   worker: (nat, Option<seq<File>>) -> Option<seq<File>>) returns (o: Outcome)
      modifies this
      ensures Decides(cfg, treatAsPassed, verdicts, o)
      ensures !o.Failed? ==>
                && deleted == None
                && deletedList == old(deletedList)
                   + worker(o.round, if o.round == 1 then old(deleted) else None).GetOr([])
      ensures o.Failed? ==> deletedList == old(deletedList)
    {
      var attempt := 0;
      while attempt < MaxIter(cfg)
        invariant 0 <= attempt && (attempt <= MaxIter(cfg) || attempt == 0)
        invariant forall s: nat | 1 <= s <= attempt :: !Accepts(cfg, verdicts, s)
        invariant attempt == 0 ==> deleted == old(deleted)
        invariant deletedList == old(deletedList)
        invariant treatAsPassed ==> attempt < MaxIter(cfg) || attempt == 0
      {
        if attempt > 0 {
          deleted := None;
        }
        var r := attempt + 1;
        deleted := worker(r, deleted);
        var voted := CheckVoting(verdicts(r), cfg.mode, |verdicts(r)|);
        if voted && r >= cfg.minRounds {
          ArchiveDeleted();
          return Passed(r);
        }
        if r >= MaxIter(cfg) && treatAsPassed {
          ArchiveDeleted();
          return Forced(r);
        }
        attempt := r;
      }
      return Failed;
    }
  }

  /** A looser mode never delays acceptance as long as every round has a judge. */
  lemma LooseningNeverDelays(strict: Config, loose: Config, s: nat, l: nat, treatAsPassed: bool,
                             verdicts: nat -> seq<bool>, o: Outcome, p: Outcome)
    requires Strictness(strict.mode, s) && Strictness(loose.mode, l) && l < s <= 2
    requires loose == strict.(mode := loose.mode)
    requires forall r: nat :: verdicts(r) != []
    requires Decides(strict, treatAsPassed, verdicts, o) && Decides(loose, treatAsPassed, verdicts, p)
    ensures o.Passed? ==> p.Passed? && p.round <= o.round
    ensures p.Failed? ==> o.Failed?
  {
    forall r: nat | Accepts(strict, verdicts, r) ensures Accepts(loose, verdicts, r) {
      VoteIs(verdicts(r), strict.mode);
      VoteIs(verdicts(r), loose.mode);
      LooseningKeepsTheVoteIff(verdicts(r), strict.mode, loose.mode, s, l);
    }
    if o.Passed? {
      assert Accepts(loose, verdicts, o.round);
    }
  }

  /** The stage has one outcome for given verdicts. */
  lemma OneOutcome(cfg: Config, treatAsPassed: bool, verdicts: nat -> seq<bool>, o: Outcome, p: Outcome)
    requires Decides(cfg, treatAsPassed, verdicts, o) && Decides(cfg, treatAsPassed, verdicts, p)
    ensures o == p
  {
  }

  // ---------- the filter loop ----------

  /** A line of the Judges' feedback: a section title, an item, or anything else. */
  datatype Line = RestoreTitle | RemoveTitle | Item(name: Name) | OtherLine

  datatype Section = NoSection | RestoreSection | RemoveSection

  predicate Title(line: Line) {
    line.RestoreTitle? || line.RemoveTitle?
  }

  /** The last title among the first n lines. */
  function LastTitle(lines: seq<Line>, n: nat): (s: Section)
    requires n <= |lines|
    ensures s.NoSection? <==> forall j | 0 <= j < n :: !Title(lines[j])
    ensures !s.NoSection? ==> exists j | 0 <= j < n ::
              lines[j] == (if s.RestoreSection? then RestoreTitle else RemoveTitle)
              && forall k | j < k < n :: !Title(lines[k])
  {
    if n == 0 then NoSection
    else match lines[n - 1]
      case RestoreTitle => RestoreSection
      case RemoveTitle => RemoveSection
      case _ => LastTitle(lines, n - 1)
  }

  /** Among the first n lines there is an item of this name below a title of this section. */
  ghost predicate Listed(lines: seq<Line>, n: nat, section: Section, name: Name)
    requires n <= |lines|
  {
    exists j | 0 <= j < n :: lines[j] == Item(name) && LastTitle(lines, j) == section
  }

  /** An item below a title. */
  ghost predicate HasCorrections(lines: seq<Line>) {
    exists i, j :: 0 <= i < j < |lines| && Title(lines[i]) && lines[j].Item?
  }

  /** The loop over the feedback lines. */
  method Corrections(lines: seq<Line>) returns (restore: seq<Name>, remove: seq<Name>)
    ensures forall x :: x in restore <==> Listed(lines, |lines|, RestoreSection, x)
    ensures forall x :: x in remove <==> Listed(lines, |lines|, RemoveSection, x)
    ensures (restore != [] || remove != []) <==> HasCorrections(lines)
  {
    restore, remove := [], [];
    var section := NoSection;
    for i := 0 to |lines|
      invariant section == LastTitle(lines, i)
      invariant forall x :: x in restore <==> Listed(lines, i, RestoreSection, x)
      invariant forall x :: x in remove <==> Listed(lines, i, RemoveSection, x)
    {
      ListedOneMore(lines, i);
      match lines[i] {
        case RestoreTitle => section := RestoreSection;
        case RemoveTitle => section := RemoveSection;
        case OtherLine =>
        case Item(name) =>
          if section.RestoreSection? {
            restore := restore + [name];
          } else if section.RemoveSection? {
            remove := remove + [name];
          }
      }
    }
    CorrectionIsListed(lines);
    assert restore != [] ==> restore[0] in restore;
    assert remove != [] ==> remove[0] in remove;
  }

  lemma ListedOneMore(lines: seq<Line>, n: nat)
    requires n < |lines|
    ensures forall section, x :: Listed(lines, n + 1, section, x) <==>
              Listed(lines, n, section, x) || (lines[n] == Item(x) && LastTitle(lines, n) == section)
  {
    forall section, x
      ensures Listed(lines, n + 1, section, x) <==>
                Listed(lines, n, section, x) || (lines[n] == Item(x) && LastTitle(lines, n) == section)
    {
      if Listed(lines, n + 1, section, x) {
        var j :| 0 <= j < n + 1 && lines[j] == Item(x) && LastTitle(lines, j) == section;
        assert j < n || j == n;
      }
      if Listed(lines, n, section, x) {
        var j :| 0 <= j < n && lines[j] == Item(x) && LastTitle(lines, j) == section;
        assert j < n + 1;
      }
    }
  }

  lemma CorrectionIsListed(lines: seq<Line>)
    ensures HasCorrections(lines) <==>
              exists x :: Listed(lines, |lines|, RestoreSection, x) || Listed(lines, |lines|, RemoveSection, x)
  {
    if HasCorrections(lines) {
      var i, j :| 0 <= i < j < |lines| && Title(lines[i]) && lines[j].Item?;
      var section := LastTitle(lines, j);
      assert lines[j] == Item(lines[j].name);
      assert Listed(lines, |lines|, section, lines[j].name);
    }
  }

  /** discover_modules: the modules with a non-empty list, hidden directories aside. */
  function Discover(modules: map<Name, seq<File>>): set<Name> {
    set m | m in modules && modules[m] != [] && Discovery.Visible(m)
  }

  /** All entries of the lists of some modules. */
  ghost function Gathered(modules: map<Name, seq<File>>, names: set<Name>): multiset<File>
    requires names <= modules.Keys
  {
    if names == {} then multiset{}
    else
      var m := Least(names);
      multiset(modules[m]) + Gathered(modules, names - {m})
  }

  lemma {:induction false} GatheredOneLess(modules: map<Name, seq<File>>, names: set<Name>, x: Name)
    requires names <= modules.Keys && x in names
    ensures Gathered(modules, names) == multiset(modules[x]) + Gathered(modules, names - {x})
    decreases |names|
  {
    var m := Least(names);
    if m != x {
      assert names - {m} - {x} == names - {x} - {m};
      GatheredOneLess(modules, names - {m}, x);
      GatheredOneLess(modules, names - {x}, m);
    }
  }

  lemma GatheredOneMore(modules: map<Name, seq<File>>, names: set<Name>, x: Name, files: seq<File>)
    requires names <= modules.Keys && x in modules && x !in names && multiset(files) == Gathered(modules, names)
    ensures multiset(files + modules[x]) == Gathered(modules, names + {x})
  {
    GatheredOneLess(modules, names + {x}, x);
    assert names + {x} - {x} == names;
  }

  lemma {:induction false} GatheredSplits(modules: map<Name, seq<File>>, a: set<Name>, b: set<Name>)
    requires a + b <= modules.Keys && a !! b
    ensures Gathered(modules, a + b) == Gathered(modules, a) + Gathered(modules, b)
    decreases |a|
  {
    if a == {} {
      assert a + b == b;
    } else {
      var x :| x in a;
      GatheredOneLess(modules, a + b, x);
      GatheredOneLess(modules, a, x);
      SetOneLess(a, b, x);
      GatheredSplits(modules, a - {x}, b);
      BagAssoc(multiset(modules[x]), Gathered(modules, a - {x}), Gathered(modules, b));
    }
  }

  lemma SetOneLess<T>(a: set<T>, b: set<T>, x: T)
    requires x in a && a !! b
    ensures a + b - {x} == (a - {x}) + b
  {
  }

  lemma BagAssoc<T>(a: multiset<T>, b: multiset<T>, c: multiset<T>)
    ensures a + (b + c) == a + b + c
  {
  }

  lemma {:induction false} GatheredAgrees(modules: map<Name, seq<File>>, other: map<Name, seq<File>>, names: set<Name>)
    requires names <= modules.Keys && names <= other.Keys && forall m | m in names :: modules[m] == other[m]
    ensures Gathered(modules, names) == Gathered(other, names)
    decreases |names|
  {
    if names != {} { GatheredAgrees(modules, other, names - {Least(names)}); }
  }

  /** The Worker only deleted whole modules or brought them back from the backup. */
  ghost predicate Whole(modules: map<Name, seq<File>>, backup: map<Name, seq<File>>) {
    forall m | m in modules :: m in backup && modules[m] == backup[m]
  }

  /** rm -rf of some modules, then cp -r of others from the backup. */
  function Corrected(modules: map<Name, seq<File>>, backup: map<Name, seq<File>>, remove: set<Name>, restore: set<Name>)
    : map<Name, seq<File>>
  {
    map m | m in (modules.Keys - remove) + (backup.Keys * restore) ::
      if m in backup && m in restore then backup[m] else modules[m]
  }

  /** A round passes the filter loop: the vote, min_rounds, and no corrections asked for. */
  ghost predicate FilterAccepts(cfg: Config, verdicts: nat -> seq<bool>, feedback: nat -> seq<Line>, r: nat) {
    Accepts(cfg, verdicts, r) && !HasCorrections(feedback(r))
  }

  /** An accepted round; the stage error; or the failure of a round without judges, whose record reads a name
      that only the loop over the judges binds. */
  datatype FilterOutcome = Accepted(round: nat) | Exhausted | NoJudges

  ghost predicate FilterDecides(cfg: Config, verdicts: nat -> seq<bool>, feedback: nat -> seq<Line>, o: FilterOutcome) {
    match o
    case Accepted(r) =>
      && InLimit(cfg, r) && verdicts(1) != [] && FilterAccepts(cfg, verdicts, feedback, r)
      && forall s: nat | 1 <= s < r :: !FilterAccepts(cfg, verdicts, feedback, s)
    case Exhausted =>
      && (InLimit(cfg, 1) ==> verdicts(1) != [])
      && forall s: nat | InLimit(cfg, s) :: !FilterAccepts(cfg, verdicts, feedback, s)
    case NoJudges => InLimit(cfg, 1) && verdicts(1) == []
  }

  /** The lists of the removed modules, by name. */
  method ListedFiles(saved: map<Name, seq<File>>, removed: set<Name>) returns (files: seq<File>)
    requires removed <= saved.Keys
    ensures multiset(files) == Gathered(saved, removed)
  {
    var names := Sorted(removed);
    files := [];
    ghost var done := {};
    PrefixAll(removed);
    for i := 0 to |names|
      invariant done == Elems(names[..i]) && done <= removed
      invariant multiset(files) == Gathered(saved, done)
    {
      PrefixStep(removed, i);
      GatheredOneMore(saved, done, names[i], files);
      done := done + {names[i]};
      files := files + saved[names[i]];
    }
  }

  class FilterStage {
    var modules: map<Name, seq<File>>
    var backup: Option<map<Name, seq<File>>>
    var deletedList: seq<File>

    constructor (modules: map<Name, seq<File>>, deletedList: seq<File>)
      ensures this.modules == modules && this.deletedList == deletedList && backup == None
    {
      this.modules, this.backup, this.deletedList := modules, None, deletedList;
    }

    /** SecurityFocusFilterStage.execute from the backup on; `worker` gives modules/ as the Worker of a round
        leaves it, before discovery, `feedback` the lines of the Judges' feedback. The files of the modules that are
        gone are archived from the backup, and every file is kept exactly when the kept modules list what they
        listed. */
    method Execute(cfg: Config, verdicts: nat -> seq<bool>, feedback: nat -> seq<Line>,
                   worker: nat -> Discovery.Tree) returns (o: FilterOutcome)
      modifies this
      ensures FilterDecides(cfg, verdicts, feedback, o)
      ensures o.Accepted? ==> modules == Discovery.Lists(worker(o.round)) && backup == None
      ensures o.Accepted? ==> Settled(modules, old(modules), old(deletedList), deletedList)
      ensures !o.Accepted? ==> backup == Some(old(modules)) && deletedList == old(deletedList)
    {
      backup := Some(modules);
      var attempt := 0;
      var judged := false;
      while attempt < MaxIter(cfg)
        invariant 0 <= attempt && (attempt <= MaxIter(cfg) || attempt == 0)
        invariant attempt > 0 ==> judged
        invariant judged ==> verdicts(1) != []
        invariant forall s: nat | 1 <= s <= attempt :: !FilterAccepts(cfg, verdicts, feedback, s)
        invariant backup == Some(old(modules)) && deletedList == old(deletedList)
      {
        var r := attempt + 1;
        modules := Discovery.Lists(worker(r));
        judged := judged || verdicts(r) != [];
        var corrected := AsksCorrections(feedback(r));
        var voted := CheckVoting(verdicts(r), cfg.mode, |verdicts(r)|);
        if !judged {
          return NoJudges;
        }
        if voted && !corrected && r >= cfg.minRounds {
          ArchiveRemoved();
          return Accepted(r);
        }
        attempt := r;
      }
      return Exhausted;
    }

    /** The end of an accepted round: the entries of the modules that are gone are archived, the backup goes. */
    method ArchiveRemoved()
      requires backup.Some?
      modifies this`deletedList, this`backup
      ensures backup == None
      ensures Settled(modules, old(backup).value, old(deletedList), deletedList)
    {
      var saved := backup.value;
      ghost var before := deletedList;
      var files := ListedFiles(saved, saved.Keys - Discover(modules));
      deletedList := deletedList + files;
      assert Gone(modules, saved) == saved.Keys - Discover(modules);
      assert deletedList[|before|..] == files;
      ConservedIff(modules, saved, before, deletedList);
      backup := None;
    }
  }

  /** The loop over the feedback gives corrections. */
  method AsksCorrections(lines: seq<Line>) returns (some: bool)
    ensures some == HasCorrections(lines)
  {
    var restore, remove := Corrections(lines);
    some := restore != [] || remove != [];
  }

  /** The saved modules that are not there any more, hidden ones and those without an entry included. */
  ghost function Gone(modules: map<Name, seq<File>>, saved: map<Name, seq<File>>): set<Name> {
    set m | m in saved && (m !in modules || modules[m] == [] || "." <= m)
  }

  /** What was archived of the saved modules, and when nothing is lost by it. */
  ghost predicate Settled(modules: map<Name, seq<File>>, saved: map<Name, seq<File>>, before: seq<File>,
                          after: seq<File>) {
    && before <= after && multiset(after[|before|..]) == Gathered(saved, Gone(modules, saved))
    && (Gathered(modules, Discover(modules)) + multiset(after) == Gathered(saved, saved.Keys) + multiset(before)
        <==> KeptUnchanged(modules, saved))
  }

  /** The modules still there list, with multiplicity, what they listed in the backup. */
  ghost predicate KeptUnchanged(modules: map<Name, seq<File>>, backup: map<Name, seq<File>>) {
    Gathered(modules, Discover(modules)) == Gathered(backup, backup.Keys * Discover(modules))
  }

  lemma Cancel<T>(a: multiset<T>, b: multiset<T>, c: multiset<T>)
    ensures a + c == b + c <==> a == b
  {
    if a + c == b + c {
      forall x ensures a[x] == b[x] {
        assert (a + c)[x] == a[x] + c[x] && (b + c)[x] == b[x] + c[x];
      }
    }
  }

  lemma ConservedIff(modules: map<Name, seq<File>>, saved: map<Name, seq<File>>, before: seq<File>, after: seq<File>)
    requires multiset(after) == multiset(before) + Gathered(saved, saved.Keys - Discover(modules))
    ensures Gathered(modules, Discover(modules)) + multiset(after) == Gathered(saved, saved.Keys) + multiset(before)
       <==> KeptUnchanged(modules, saved)
  {
    var kept := Discover(modules);
    var stay, gone := Gathered(saved, saved.Keys * kept), Gathered(saved, saved.Keys - kept);
    var now := Gathered(modules, kept);
    assert saved.Keys * kept + (saved.Keys - kept) == saved.Keys;
    GatheredSplits(saved, saved.Keys * kept, saved.Keys - kept);
    assert now + multiset(after) == now + (gone + multiset(before));
    assert Gathered(saved, saved.Keys) + multiset(before) == stay + (gone + multiset(before));
    Cancel(now, stay, gone + multiset(before));
  }

  /** Workers that only delete modules or bring them back leave the kept modules unchanged. */
  lemma WholeKeepsUnchanged(modules: map<Name, seq<File>>, backup: map<Name, seq<File>>)
    requires Whole(modules, backup)
    ensures KeptUnchanged(modules, backup)
  {
    assert backup.Keys * Discover(modules) == Discover(modules);
    GatheredAgrees(modules, backup, Discover(modules));
  }

  /** Following the correction lists keeps modules whole. */
  lemma CorrectionsKeepWhole(modules: map<Name, seq<File>>, backup: map<Name, seq<File>>,
                             remove: set<Name>, restore: set<Name>)
    requires Whole(modules, backup)
    ensures Whole(Corrected(modules, backup, remove, restore), backup)
  {
  }

  /** The lists after each round's discovery. */
  ghost function AfterRounds(worker: nat -> Discovery.Tree): nat -> map<Name, seq<File>> {
    r => if 0 <= r then Discovery.Lists(worker(r)) else map[]
  }

  /** Each round deletes modules and copies others back, from the backup in the first round and from what the
      round before left in the later ones. */
  ghost predicate Follows(after: nat -> map<Name, seq<File>>, backup: map<Name, seq<File>>,
                          remove: nat -> set<Name>, restore: nat -> set<Name>) {
    && after(1) == Corrected(backup, backup, remove(1), restore(1))
    && forall r: nat | 1 <= r :: NextRound(after, backup, remove, restore, r)
  }

  ghost predicate NextRound(after: nat -> map<Name, seq<File>>, backup: map<Name, seq<File>>,
                            remove: nat -> set<Name>, restore: nat -> set<Name>, r: nat) {
    after(r + 1) == Corrected(after(r), backup, remove(r + 1), restore(r + 1))
  }

  /** So modules are whole after every round. */
  lemma {:induction false} FollowersStayWhole(after: nat -> map<Name, seq<File>>, backup: map<Name, seq<File>>,
                                              remove: nat -> set<Name>, restore: nat -> set<Name>, r: nat)
    requires Follows(after, backup, remove, restore) && 1 <= r
    ensures Whole(after(r), backup)
  {
    if r == 1 {
      CorrectionsKeepWhole(backup, backup, remove(1), restore(1));
    } else {
      FollowersStayWhole(after, backup, remove, restore, r - 1);
      assert NextRound(after, backup, remove, restore, r - 1);
      CorrectionsKeepWhole(after(r - 1), backup, remove(r), restore(r));
    }
  }

  /** A stage run with such Workers, whatever the Judges say: when it is accepted, the kept and the archived files
      together are those of the backup, with multiplicity. */
  method FollowersKeepEveryFile(before: map<Name, seq<File>>, archived: seq<File>, cfg: Config,
                                verdicts: nat -> seq<bool>, feedback: nat -> seq<Line>,
                                worker: nat -> Discovery.Tree,
                                ghost remove: nat -> set<Name>, ghost restore: nat -> set<Name>)
    returns (o: FilterOutcome, modules: map<Name, seq<File>>, deletedList: seq<File>)
    requires Follows(AfterRounds(worker), before, remove, restore)
    ensures FilterDecides(cfg, verdicts, feedback, o)
    ensures o.Accepted? ==> Gathered(modules, Discover(modules)) + multiset(deletedList)
                            == Gathered(before, before.Keys) + multiset(archived)
  {
    var stage := new FilterStage(before, archived);
    o := stage.Execute(cfg, verdicts, feedback, worker);
    modules, deletedList := stage.modules, stage.deletedList;
    if o.Accepted? {
      FollowersStayWhole(AfterRounds(worker), before, remove, restore, o.round);
      WholeKeepsUnchanged(modules, before);
    }
  }

  /** One round, accepted by one judge, whose Worker takes a file out of a module's list: the file is then
      neither listed nor archived. */
  method ShortenedListLosesFile(m: Name, kept: seq<File>, lost: File)
    returns (o: FilterOutcome, modules: map<Name, seq<File>>, deletedList: seq<File>)
    requires Discovery.Visible(m) && kept != [] && lost !in kept
    ensures o == Accepted(1) && modules == map[m := kept]
    ensures lost !in Gathered(modules, Discover(modules)) + multiset(deletedList)
  {
    var before: map<Name, seq<File>> := map[m := kept + [lost]];
    var stage := new FilterStage(before, []);
    var cfg := Config("all", 1, 1);
    assert FilterAccepts(cfg, _ => [true], _ => [], 1);
    var after: Discovery.Tree := Discovery.Flat(map[m := kept]);
    Discovery.ListsOfFlat(map[m := kept]);
    o := stage.Execute(cfg, _ => [true], _ => [], _ => after);
    modules, deletedList := stage.modules, stage.deletedList;
    OneModule(m, kept);
    assert before.Keys - Discover(modules) == {};
    assert multiset(deletedList) == multiset{};
  }

  lemma OneModule(m: Name, files: seq<File>)
    requires Discovery.Visible(m) && files != []
    ensures var modules: map<Name, seq<File>> := map[m := files];
            Discover(modules) == {m} && Gathered(modules, {m}) == multiset(files)
  {
    var modules: map<Name, seq<File>> := map[m := files];
    GatheredOneLess(modules, {m}, m);
    assert {m} - {m} == {};
  }
}
