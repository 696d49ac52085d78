/** app/pipeline/s0_path_group.py: the common directory prefix, the functional sub-path of a file, and
    grouping files into modules by their directories. */
module PathGroups {
  import opened Sequences
  import opened Results

  // ---------- paths ----------

  /** p.replace("\\", "/"). */
  function Slashes(p: string): string {
    seq(|p|, i requires 0 <= i < |p| => if p[i] == '\\' then '/' else p[i])
  }

  /** p.rstrip("/"). */
  function TrimSlashes(p: string): string {
    if p != [] && Last(p) == '/' then TrimSlashes(Init(p)) else p
  }

  /** s.split("/"). */
  function Split(s: string): (parts: seq<string>)
    ensures parts != []
  {
    if s == [] then [[]]
    else
      var rest := Split(s[1..]);
      if s[0] == '/' then [[]] + rest else [[s[0]] + rest[0]] + rest[1..]
  }

  /** "/".join(parts). */
  function Join(parts: seq<string>): string {
    if parts == [] then []
    else if |parts| == 1 then parts[0]
    else parts[0] + ['/'] + Join(parts[1..])
  }

  /** The directories of a path, without the file name. */
  function Dirs(p: string): seq<string> {
    Init(Split(TrimSlashes(Slashes(p))))
  }

  predicate IsSlash(c: char) {
    c == '/' || c == '\\'
  }

  /** Paths that differ only in the slashes they use read the same, without a backslash. */
  lemma SameButForSlashes(p: string, q: string)
    requires |p| == |q| && forall i | 0 <= i < |p| :: p[i] == q[i] || (IsSlash(p[i]) && IsSlash(q[i]))
    ensures Slashes(p) == Slashes(q) && '\\' !in Slashes(p)
    ensures '\\' !in p ==> Slashes(q) == p
  {
    assert forall i | 0 <= i < |p| :: Slashes(p)[i] == Slashes(q)[i];
  }

  /** Only slashes are trimmed, and all of those at the end. */
  lemma {:induction false} TrimmedSlashes(p: string)
    ensures var t := TrimSlashes(p);
            t <= p && (t != [] ==> Last(t) != '/') && forall i | |t| <= i < |p| :: p[i] == '/'
  {
    if p != [] && Last(p) == '/' { TrimmedSlashes(Init(p)); }
  }

  // ---------- the longest common directory prefix ----------

  ghost predicate SharedBy(dirs: seq<string>, paths: seq<string>) {
    forall p | p in paths :: dirs <= Dirs(p)
  }

  /** `common` is shared by all paths, and every shared list of directories is a prefix of it. */
  ghost predicate LongestShared(common: seq<string>, paths: seq<string>) {
    SharedBy(common, paths) && forall dirs | SharedBy(dirs, paths) :: dirs <= common
  }

  /** The inner loop: the length of the common start of two lists. */
  method CommonLength(a: seq<string>, b: seq<string>) returns (n: nat)
    ensures n <= |a| && n <= |b| && a[..n] == b[..n]
    ensures n == |a| || n == |b| || a[n] != b[n]
  {
    n := 0;
    while n < |a| && n < |b| && a[n] == b[n]
      invariant n <= |a| && n <= |b| && a[..n] == b[..n]
    {
      n := n + 1;
    }
  }

  lemma NoLongerShared(a: seq<string>, b: seq<string>, n: nat, dirs: seq<string>)
    requires n <= |a| && n <= |b| && (n == |a| || n == |b| || a[n] != b[n])
    requires dirs <= a && dirs <= b
    ensures dirs <= a[..n]
  {
  }

  /** _common_prefix, before joining. */
  method CommonDirs(paths: seq<string>) returns (common: seq<string>)
    requires paths != []
    ensures LongestShared(common, paths)
  {
    common := Dirs(paths[0]);
    for i := 1 to |paths|
      invariant LongestShared(common, paths[..i])
    {
      ghost var before := common;
      var n := CommonLength(common, Dirs(paths[i]));
      common := common[..n];
      assert paths[..i + 1] == paths[..i] + [paths[i]];
      SharedByOneMore(before, paths[..i], paths[i], n);
    }
    assert paths[..|paths|] == paths;
  }

  lemma SharedByOneMore(before: seq<string>, paths: seq<string>, p: string, n: nat)
    requires LongestShared(before, paths)
    requires n <= |before| && n <= |Dirs(p)| && before[..n] == Dirs(p)[..n]
    requires n == |before| || n == |Dirs(p)| || before[n] != Dirs(p)[n]
    ensures LongestShared(before[..n], paths + [p])
  {
    forall q | q in paths + [p] ensures before[..n] <= Dirs(q) {
      if q in paths { assert before <= Dirs(q); }
    }
    forall dirs | SharedBy(dirs, paths + [p]) ensures dirs <= before[..n] {
      assert SharedBy(dirs, paths);
      assert p in paths + [p];
      NoLongerShared(before, Dirs(p), n, dirs);
    }
  }

  /** The root is the longest shared list of directories, joined; nothing for no paths. */
  ghost predicate IsRoot(root: string, paths: seq<string>) {
    if paths == [] then root == [] else exists common :: LongestShared(common, paths) && root == Join(common)
  }

  /** _common_prefix. */
  method CommonPrefix(paths: seq<string>) returns (root: string, ghost common: seq<string>)
    ensures paths == [] ==> root == [] && common == []
    ensures paths != [] ==> LongestShared(common, paths) && root == Join(common)
    ensures IsRoot(root, paths)
  {
    if paths == [] {
      return [], [];
    }
    var dirs := CommonDirs(paths);
    return Join(dirs), dirs;
  }

  // ---------- stripping the project root ----------

  /** The partial matches of the fallback: the first k segments of the root, k counting down. */
  function StripPartial(segments: seq<string>, clean: string, k: nat): string
    requires k <= |segments|
  {
    if k == 0 then clean
    else
      var prefix := Join(segments[..k]) + ['/'];
      if prefix <= clean then clean[|prefix|..] else StripPartial(segments, clean, k - 1)
  }

  /** The first step of _strip_common_prefixes on one path, its fallback included. */
  function StripRoot(root: string, rel: string): string {
    var clean := Slashes(rel);
    if root == [] then clean
    else if root + ['/'] <= clean then clean[|root| + 1..]
    else
      var segments := Split(root);
      StripPartial(segments, clean, if |segments| < 3 then |segments| else 3)
  }

  lemma {:induction false} JoinSplit(s: string)
    ensures Join(Split(s)) == s
  {
    if s != [] {
      var rest := Split(s[1..]);
      JoinSplit(s[1..]);
      assert s == [s[0]] + s[1..];
      if s[0] == '/' {
        assert ([[]] + rest)[1..] == rest;
      } else {
        var parts := [[s[0]] + rest[0]] + rest[1..];
        assert parts[1..] == rest[1..];
        if |rest| > 1 { ConcatAssoc([s[0]], rest[0] + ['/'], Join(rest[1..])); ConcatAssoc([s[0]], rest[0], ['/']); }
      }
    }
  }

  /** A proper prefix of the segments, joined and closed with a slash, starts the joined whole. */
  lemma {:induction false} JoinPrefix(parts: seq<string>, k: nat)
    requires 0 < k < |parts|
    ensures Join(parts[..k]) + ['/'] <= Join(parts)
  {
    if k > 1 {
      JoinPrefix(parts[1..], k - 1);
      assert parts[..k][1..] == parts[1..][..k - 1];
      var head, inner := parts[0] + ['/'], Join(parts[1..][..k - 1]);
      assert Join(parts[..k]) == head + inner;
      ConcatAssoc(head, inner, ['/']);
    }
  }

  /** The project root with its slash starts every path, so the partial-match fallback is never reached. */
  lemma RootStartsEveryPath(paths: seq<string>, common: seq<string>, rel: string)
    requires LongestShared(common, paths) && rel in paths && Join(common) != []
    ensures Join(common) + ['/'] <= Slashes(rel)
    ensures StripRoot(Join(common), rel) == Slashes(rel)[|Join(common)| + 1..]
  {
    CommonSegments(paths, common, rel);
    JoinPrefix(Split(Slashes(rel)), |common|);
    JoinSplit(Slashes(rel));
  }

  lemma SplitCons(c: char, s: string)
    ensures Split([c] + s) == if c == '/' then [[]] + Split(s) else [[c] + Split(s)[0]] + Split(s)[1..]
  {
  }

  lemma ConcatTail<T>(x: seq<T>, y: seq<T>)
    requires x != []
    ensures (x + y)[0] == x[0] && (x + y)[1..] == x[1..] + y
  {
  }

  lemma {:induction false} SplitConcat(a: string, t: string)
    ensures Split(a + (['/'] + t)) == Split(a) + Split(t)
  {
    if a == [] {
      assert a + (['/'] + t) == ['/'] + t;
      SplitCons('/', t);
    } else {
      var c, rest := a[0], a[1..];
      var x, y := Split(rest), Split(t);
      assert a == [c] + rest;
      ConcatAssoc([c], rest, ['/'] + t);
      SplitCons(c, rest);
      SplitCons(c, rest + (['/'] + t));
      SplitConcat(rest, t);
      ConcatTail(x, y);
      ConcatAssoc(if c == '/' then [[]] else [[c] + x[0]], if c == '/' then x else x[1..], y);
    }
  }

  ghost predicate NoSlash(parts: seq<string>) {
    forall p | p in parts :: '/' !in p
  }

  lemma {:induction false} SplitSegment(p: string)
    requires '/' !in p
    ensures Split(p) == [p]
  {
    if p != [] {
      SplitSegment(p[1..]);
      assert p == [p[0]] + p[1..];
    }
  }

  lemma {:induction false} SplitJoin(parts: seq<string>)
    requires parts != [] && NoSlash(parts)
    ensures Split(Join(parts)) == parts
  {
    SplitSegment(parts[0]);
    assert parts == [parts[0]] + parts[1..];
    if |parts| > 1 {
      ConcatAssoc(parts[0], ['/'], Join(parts[1..]));
      SplitConcat(parts[0], Join(parts[1..]));
      SplitJoin(parts[1..]);
    }
  }

  lemma {:induction false} SplitHasNoSlash(s: string)
    ensures NoSlash(Split(s))
  {
    if s != [] { SplitHasNoSlash(s[1..]); }
  }

  /** Cutting off the first k segments and their slash leaves the other segments. */
  lemma {:induction false} DropSegments(s: string, k: nat)
    requires 0 < k < |Split(s)|
    ensures var n := |Join(Split(s)[..k])| + 1; n <= |s| && Split(s[n..]) == Split(s)[k..]
  {
    var parts := Split(s);
    var a := Join(parts[..k]);
    JoinSplit(s);
    JoinPrefix(parts, k);
    var t := s[|a| + 1..];
    assert s == a + ['/'] + t;
    ConcatAssoc(a, ['/'], t);
    SplitConcat(a, t);
    SplitHasNoSlash(s);
    SplitJoin(parts[..k]);
  }

  /** The common directories are the first segments of every path, and at least one more follows. */
  lemma CommonSegments(paths: seq<string>, common: seq<string>, rel: string)
    requires LongestShared(common, paths) && rel in paths
    ensures |common| < |Split(Slashes(rel))| && Split(Slashes(rel))[..|common|] == common
  {
    var k := |common|;
    assert common <= Dirs(rel);
    assert k < |Split(TrimSlashes(Slashes(rel)))|;
    assert Split(TrimSlashes(Slashes(rel)))[..k] == Dirs(rel)[..k] == common;
    TrimKeepsDirs(Slashes(rel), k);
  }

  /** Stripping the root drops exactly the common directories: what is left splits into the path's other
      segments. */
  lemma {:induction false} StripDropsCommonDirs(paths: seq<string>, common: seq<string>, rel: string)
    requires LongestShared(common, paths) && rel in paths && Join(common) != []
    ensures |common| < |Split(Slashes(rel))|
    ensures Split(StripRoot(Join(common), rel)) == Split(Slashes(rel))[|common|..]
  {
    var clean := Slashes(rel);
    RootStartsEveryPath(paths, common, rel);
    CommonSegments(paths, common, rel);
    assert common != [];
    CutRoot(clean, common, StripRoot(Join(common), rel));
  }

  lemma CutRoot(clean: string, common: seq<string>, left: string)
    requires 0 < |common| < |Split(clean)| && Split(clean)[..|common|] == common
    requires |Join(common)| < |clean| && left == clean[|Join(common)| + 1..]
    ensures Split(left) == Split(clean)[|common|..]
  {
    DropSegments(clean, |common|);
  }

  /** Trailing slashes only add empty segments at the end. */
  lemma {:induction false} TrimKeepsDirs(p: string, k: nat)
    requires k < |Split(TrimSlashes(p))|
    ensures k < |Split(p)| && Split(p)[..k] == Split(TrimSlashes(p))[..k]
  {
    if p != [] && Last(p) == '/' {
      TrimKeepsDirs(Init(p), k);
      SplitSnocSlash(Init(p));
      assert p == Init(p) + ['/'];
    }
  }

  lemma {:induction false} SplitSnocSlash(s: string)
    ensures Split(s + ['/']) == Split(s) + [[]]
  {
    if s != [] {
      SplitSnocSlash(s[1..]);
      assert (s + ['/'])[1..] == s[1..] + ['/'];
    } else {
      assert Split([]) == [[]];
      assert Split(['/']) == [[]] + Split([]);
    }
  }

  // ---------- the functional sub-path of a file ----------

  const MIN_MODULE_FILES := 3
  const ROOT_MODULE := "__root__"
  const UNMATCHED_SHARED := "__unmatched_shared__"

  /** The tables and patterns on names: case folding, the structural containers (on folded names), the
      meaningful directory names, shared libraries and their base names. */
  datatype Naming = Naming(lower: string -> string, container: string -> bool, meaningful: string -> bool,
                           shared: string -> bool, soname: string -> Option<string>)

  /** Drops at most n leading structural containers. */
  function StripContainers(names: Naming, parts: seq<string>, n: nat): seq<string> {
    if n > 0 && parts != [] && names.container(names.lower(parts[0]))
    then StripContainers(names, parts[1..], n - 1)
    else parts
  }

  /** The loop that pops leading containers. */
  method DropContainers(names: Naming, parts: seq<string>) returns (left: seq<string>)
    ensures left == StripContainers(names, parts, 3)
  {
    left := parts;
    var n := 3;
    while n > 0 && left != [] && names.container(names.lower(left[0]))
      invariant n >= 0 && StripContainers(names, left, n) == StripContainers(names, parts, 3)
    {
      left, n := left[1..], n - 1;
    }
  }

  /** The directories of a path below the common ones, its leading containers dropped; a common prefix that
      joins to nothing is not a project root. */
  function FunctionalDirs(names: Naming, common: seq<string>, rel: string): seq<string>
    requires |common| < |Split(Slashes(rel))|
  {
    var below := if Join(common) == [] then Split(Slashes(rel)) else Split(Slashes(rel))[|common|..];
    StripContainers(names, Init(below), 3)
  }

  /** The body of the loop over the paths. */
  method FunctionalParts(names: Naming, ghost paths: seq<string>, ghost common: seq<string>, root: string, rel: string)
    returns (parts: seq<string>)
    requires LongestShared(common, paths) && rel in paths && root == Join(common)
    ensures |common| < |Split(Slashes(rel))| && parts == FunctionalDirs(names, common, rel)
  {
    CommonSegments(paths, common, rel);
    parts := Init(Split(StripRoot(root, rel)));
    if root != [] { StripDropsCommonDirs(paths, common, rel); }
    parts := DropContainers(names, parts);
  }

  /** _strip_common_prefixes. */
  method StripCommonPrefixes(names: Naming, paths: seq<string>)
    returns (stripped: seq<seq<string>>, ghost common: seq<string>)
    ensures |stripped| == |paths|
    ensures paths != [] ==> LongestShared(common, paths)
    ensures forall p | p in paths :: |common| < |Split(Slashes(p))|
    ensures forall i | 0 <= i < |paths| :: stripped[i] == FunctionalDirs(names, common, paths[i])
  {
    var root;
    root, common := CommonPrefix(paths);
    forall p | p in paths ensures |common| < |Split(Slashes(p))| { CommonSegments(paths, common, p); }
    stripped := [];
    for i := 0 to |paths|
      invariant |stripped| == i
      invariant forall j | 0 <= j < i :: stripped[j] == FunctionalDirs(names, common, paths[j])
    {
      var parts := FunctionalParts(names, paths, common, root, paths[i]);
      stripped := stripped + [parts];
    }
  }

  // ---------- module boundaries ----------

  /** The first meaningful directory at or after position i, or the length. */
  function FirstMeaningful(names: Naming, parts: seq<string>, i: nat): (r: nat)
    requires i <= |parts|
    ensures i <= r <= |parts|
    ensures forall j | i <= j < r :: !names.meaningful(parts[j])
    ensures r < |parts| ==> names.meaningful(parts[r])
    decreases |parts| - i
  {
    if i < |parts| && !names.meaningful(parts[i]) then FirstMeaningful(names, parts, i + 1) else i
  }

  /** The module of the first pass. */
  function Candidate(names: Naming, parts: seq<string>): string {
    if parts == [] then ROOT_MODULE
    else
      var start := FirstMeaningful(names, parts, 0);
      names.lower(if start < |parts| then parts[start] else Last(parts))
  }

  /** The candidate is a meaningful directory, and this is its name. */
  predicate StandsAt(names: Naming, parts: seq<string>, level: string) {
    var start := FirstMeaningful(names, parts, 0);
    start < |parts| && names.lower(parts[start]) == level
  }

  /** The directory below the first meaningful one, where a small module may be merged. */
  function LevelBelow(names: Naming, parts: seq<string>): Option<string> {
    var start := FirstMeaningful(names, parts, 0);
    if start + 1 < |parts| then Some(names.lower(parts[start + 1])) else None
  }

  /** The files of a module, by index. */
  ghost function Members(modules: seq<string>, m: string): set<nat> {
    set i: nat | i < |modules| && modules[i] == m
  }

  ghost function Siblings(names: Naming, lists: seq<seq<string>>, level: string): set<nat> {
    set i: nat | i < |lists| && StandsAt(names, lists[i], level)
  }

  ghost predicate Candidates(names: Naming, lists: seq<seq<string>>, modules: seq<string>) {
    |modules| == |lists| && forall i | 0 <= i < |lists| :: modules[i] == Candidate(names, lists[i])
  }

  ghost predicate Small(modules: seq<string>, m: string) {
    |Members(modules, m)| < MIN_MODULE_FILES
  }

  /** The module of a file after the merge of small modules. */
  ghost function ModuleOf(names: Naming, lists: seq<seq<string>>, candidates: seq<string>, parts: seq<string>): string {
    var own := Candidate(names, parts);
    var below := LevelBelow(names, parts);
    if Small(candidates, own) && below.Some? && |Siblings(names, lists, below.value)| >= MIN_MODULE_FILES
    then below.value else own
  }

  lemma MembersGrow(modules: seq<string>, x: string, m: string)
    ensures |Members(modules + [x], m)| == |Members(modules, m)| + if x == m then 1 else 0
  {
    var more := modules + [x];
    if x == m {
      assert Members(more, m) == Members(modules, m) + {|modules|};
    } else {
      assert Members(more, m) == Members(modules, m);
    }
  }

  lemma SiblingsGrow(names: Naming, lists: seq<seq<string>>, parts: seq<string>, level: string)
    ensures |Siblings(names, lists + [parts], level)|
         == |Siblings(names, lists, level)| + if StandsAt(names, parts, level) then 1 else 0
  {
    var more := lists + [parts];
    if StandsAt(names, parts, level) {
      assert Siblings(names, more, level) == Siblings(names, lists, level) + {|lists|};
    } else {
      assert Siblings(names, more, level) == Siblings(names, lists, level);
    }
  }

  /** The loop that skips meaningless directories. */
  method FindStart(names: Naming, parts: seq<string>) returns (start: nat)
    ensures start == FirstMeaningful(names, parts, 0)
  {
    start := 0;
    while start < |parts| && !names.meaningful(parts[start])
      invariant start <= |parts| && FirstMeaningful(names, parts, start) == FirstMeaningful(names, parts, 0)
    {
      start := start + 1;
    }
  }

  /** The first pass. */
  method FirstPass(names: Naming, lists: seq<seq<string>>) returns (modules: seq<string>)
    ensures Candidates(names, lists, modules)
  {
    modules := [];
    for i := 0 to |lists|
      invariant |modules| == i && forall j | 0 <= j < i :: modules[j] == Candidate(names, lists[j])
    {
      var parts := lists[i];
      if parts == [] {
        modules := modules + [ROOT_MODULE];
      } else {
        var start := FindStart(names, parts);
        modules := modules + [names.lower(if start < |parts| then parts[start] else Last(parts))];
      }
    }
  }

  ghost predicate Counted(counts: map<string, nat>, modules: seq<string>, m: string) {
    (if m in counts then counts[m] else 0) == |Members(modules, m)|
  }

  /** The second pass. */
  method CountModules(modules: seq<string>) returns (counts: map<string, nat>)
    ensures forall m :: Counted(counts, modules, m)
  {
    counts := map[];
    for i := 0 to |modules|
      invariant forall m :: Counted(counts, modules[..i], m)
    {
      var m := modules[i];
      ghost var before := counts;
      counts := counts[m := (if m in counts then counts[m] else 0) + 1];
      assert modules[..i + 1] == modules[..i] + [m];
      ghost var seen := modules[..i + 1];
      forall other ensures Counted(counts, seen, other) {
        assert Counted(before, modules[..i], other);
        MembersGrow(modules[..i], m, other);
      }
    }
    assert modules[..|modules|] == modules;
  }

  /** The sibling count of the third pass. */
  method CountSiblings(names: Naming, lists: seq<seq<string>>, level: string) returns (n: nat)
    ensures n == |Siblings(names, lists, level)|
  {
    n := 0;
    for i := 0 to |lists|
      invariant n == |Siblings(names, lists[..i], level)|
    {
      var parts := lists[i];
      var start := FindStart(names, parts);
      if start < |parts| && names.lower(parts[start]) == level {
        n := n + 1;
      }
      SiblingsGrow(names, lists[..i], parts, level);
      assert lists[..i + 1] == lists[..i] + [parts];
    }
    assert lists[..|lists|] == lists;
  }

  /** The body of the third pass: the module of one file whose candidate is m. */
  method MergedName(names: Naming, lists: seq<seq<string>>, counts: map<string, nat>, m: string, parts: seq<string>,
                    ghost candidates: seq<string>) returns (name: string)
    requires m == Candidate(names, parts) && Counted(counts, candidates, m)
    ensures name == ModuleOf(names, lists, candidates, parts)
  {
    if (if m in counts then counts[m] else 0) >= MIN_MODULE_FILES || parts == [] {
      return m;
    }
    var start := FindStart(names, parts);
    if start + 1 < |parts| {
      var level := names.lower(parts[start + 1]);
      var siblings := CountSiblings(names, lists, level);
      if siblings >= MIN_MODULE_FILES {
        return level;
      }
    }
    return m;
  }

  /** _find_module_boundary: the counts are those of the first pass, while the modules change. */
  method FindModuleBoundary(names: Naming, lists: seq<seq<string>>)
    returns (modules: seq<string>, ghost candidates: seq<string>)
    ensures Candidates(names, lists, candidates)
    ensures |modules| == |lists|
    ensures forall i | 0 <= i < |lists| :: modules[i] == ModuleOf(names, lists, candidates, lists[i])
  {
    modules := FirstPass(names, lists);
    candidates := modules;
    var counts := CountModules(modules);
    for i := 0 to |lists|
      invariant |modules| == |lists|
      invariant forall j | 0 <= j < i :: modules[j] == ModuleOf(names, lists, candidates, lists[j])
      invariant forall j | i <= j < |lists| :: modules[j] == candidates[j]
    {
      assert Counted(counts, candidates, modules[i]);
      var name := MergedName(names, lists, counts, modules[i], lists[i], candidates);
      modules := modules[i := name];
    }
  }

  ghost predicate Merged(names: Naming, lists: seq<seq<string>>, candidates: seq<string>, modules: seq<string>) {
    && Candidates(names, lists, candidates)
    && |modules| == |lists|
    && forall i | 0 <= i < |lists| :: modules[i] == ModuleOf(names, lists, candidates, lists[i])
  }

  /** A module of three or more files never loses one. */
  lemma LargeModulesKeepTheirFiles(names: Naming, lists: seq<seq<string>>, candidates: seq<string>,
                                   modules: seq<string>, m: string)
    requires Merged(names, lists, candidates, modules)
    requires !Small(candidates, m)
    ensures Members(candidates, m) <= Members(modules, m)
  {
  }

  /** A file that is moved leaves a module of fewer than three files for one that ends with more than three. */
  lemma {:induction false} MovesJoinLargeModules(names: Naming, lists: seq<seq<string>>, candidates: seq<string>,
                                                 modules: seq<string>, i: nat)
    requires Merged(names, lists, candidates, modules) && i < |lists|
    ensures modules[i] != candidates[i] ==>
              Small(candidates, candidates[i]) && |Members(modules, modules[i])| > MIN_MODULE_FILES
    ensures modules[i] in candidates
  {
    var level := modules[i];
    if level == candidates[i] {
      assert level in candidates;
    } else {
      var standing := Siblings(names, lists, level);
      assert standing <= Members(candidates, level);
      SubsetSize(standing, Members(candidates, level));
      LargeModulesKeepTheirFiles(names, lists, candidates, modules, level);
      assert i !in standing;
      SubsetSize(standing + {i}, Members(modules, level));
      var s :| s in standing;
      assert candidates[s] == level;
    }
  }

  /** The merge never makes a new module, so the number of modules never grows. */
  lemma ModulesNeverMultiply(names: Naming, lists: seq<seq<string>>, candidates: seq<string>, modules: seq<string>)
    requires Merged(names, lists, candidates, modules)
    ensures Elems(modules) <= Elems(candidates) && |Elems(modules)| <= |Elems(candidates)|
  {
    forall m | m in modules ensures m in candidates {
      var i :| 0 <= i < |modules| && modules[i] == m;
      MovesJoinLargeModules(names, lists, candidates, modules, i);
    }
    SubsetSize(Elems(modules), Elems(candidates));
  }

  // ---------- directories and modules, in terms of positions ----------

  /** At most three leading containers are gone, and no more of them are left when it is fewer. */
  ghost predicate WithoutContainers(names: Naming, parts: seq<string>, left: seq<string>) {
    exists k: nat :: k <= 3 && ContainersEnd(names, parts, k, 3) && left == parts[k..]
  }

  ghost predicate ContainersEnd(names: Naming, parts: seq<string>, k: nat, n: nat) {
    && k <= n && k <= |parts| && (forall j | 0 <= j < k :: names.container(names.lower(parts[j])))
    && (k < n && k < |parts| ==> !names.container(names.lower(parts[k])))
  }

  lemma {:induction false} StripsContainers(names: Naming, parts: seq<string>, n: nat) returns (k: nat)
    ensures ContainersEnd(names, parts, k, n) && StripContainers(names, parts, n) == parts[k..]
  {
    k := 0;
    if n > 0 && parts != [] && names.container(names.lower(parts[0])) {
      var rest := StripsContainers(names, parts[1..], n - 1);
      k := rest + 1;
      forall j | 0 <= j < k ensures names.container(names.lower(parts[j])) {
        if j > 0 { assert parts[j] == parts[1..][j - 1]; }
      }
    }
  }

  /** The directories of a path below the common ones without their leading containers; a common prefix that joins to
      nothing is not cut off. */
  ghost predicate PathBelow(names: Naming, common: seq<string>, rel: string, parts: seq<string>) {
    var segments := Split(Slashes(rel));
    && |common| < |segments|
    && WithoutContainers(names, if Join(common) == [] then Init(segments) else Init(segments)[|common|..], parts)
  }

  lemma FunctionalDirsBelow(names: Naming, common: seq<string>, rel: string)
    requires |common| < |Split(Slashes(rel))|
    ensures PathBelow(names, common, rel, FunctionalDirs(names, common, rel))
  {
    var segments := Split(Slashes(rel));
    var below := if Join(common) == [] then segments else segments[|common|..];
    assert Init(below) == if Join(common) == [] then Init(segments) else Init(segments)[|common|..];
    var k := StripsContainers(names, Init(below), 3);
  }

  /** The first meaningful directory stands at position i. */
  ghost predicate FirstAt(names: Naming, parts: seq<string>, i: nat) {
    i < |parts| && names.meaningful(parts[i]) && forall j | 0 <= j < i :: !names.meaningful(parts[j])
  }

  ghost predicate IsCandidate(names: Naming, parts: seq<string>, m: string) {
    if parts == [] then m == "__root__"
    else if exists i: nat :: FirstAt(names, parts, i) then MeaningfulIs(names, parts, m)
    else m == names.lower(parts[|parts| - 1])
  }

  ghost predicate MeaningfulIs(names: Naming, parts: seq<string>, level: string) {
    exists i: nat :: FirstAt(names, parts, i) && names.lower(parts[i]) == level
  }

  /** The files whose first meaningful directory has this name. */
  ghost function FilesAt(names: Naming, lists: seq<seq<string>>, level: string): set<nat> {
    set j: nat | j < |lists| && MeaningfulIs(names, lists[j], level)
  }

  ghost predicate StandsBelow(names: Naming, parts: seq<string>, level: string) {
    exists i: nat :: FirstAt(names, parts, i) && i + 1 < |parts| && names.lower(parts[i + 1]) == level
  }

  /** A file of a module of fewer than three goes to the level below its first meaningful directory if at least three
      files have that as theirs, and stays otherwise. */
  ghost predicate IsModule(names: Naming, lists: seq<seq<string>>, candidates: seq<string>, k: nat, m: string)
    requires k < |lists| == |candidates|
  {
    var few := |Members(candidates, candidates[k])| < 3;
    if few && exists level :: StandsBelow(names, lists[k], level) && |FilesAt(names, lists, level)| >= 3
    then StandsBelow(names, lists[k], m) && |FilesAt(names, lists, m)| >= 3
    else m == candidates[k]
  }

  lemma FirstIs(names: Naming, parts: seq<string>, i: nat)
    ensures FirstAt(names, parts, i) <==> i < |parts| && i == FirstMeaningful(names, parts, 0)
  {
  }

  lemma CandidateIs(names: Naming, parts: seq<string>)
    ensures IsCandidate(names, parts, Candidate(names, parts))
  {
    FirstIs(names, parts, FirstMeaningful(names, parts, 0));
  }

  lemma StandsIff(names: Naming, parts: seq<string>, level: string)
    ensures StandsAt(names, parts, level) <==> MeaningfulIs(names, parts, level)
    ensures LevelBelow(names, parts) == Some(level) <==> StandsBelow(names, parts, level)
  {
    var start := FirstMeaningful(names, parts, 0);
    FirstIs(names, parts, start);
    forall i: nat ensures FirstAt(names, parts, i) ==> i == start { FirstIs(names, parts, i); }
  }

  lemma SiblingsAre(names: Naming, lists: seq<seq<string>>, level: string)
    ensures Siblings(names, lists, level) == FilesAt(names, lists, level)
  {
    forall j | 0 <= j < |lists| ensures StandsAt(names, lists[j], level) <==> MeaningfulIs(names, lists[j], level) {
      StandsIff(names, lists[j], level);
    }
  }

  lemma ModuleIs(names: Naming, lists: seq<seq<string>>, candidates: seq<string>, k: nat)
    requires Candidates(names, lists, candidates) && k < |lists|
    ensures IsModule(names, lists, candidates, k, ModuleOf(names, lists, candidates, lists[k]))
  {
    var below := LevelBelow(names, lists[k]);
    forall level ensures (below == Some(level) <==> StandsBelow(names, lists[k], level))
                      && Siblings(names, lists, level) == FilesAt(names, lists, level) {
      StandsIff(names, lists[k], level);
      SiblingsAre(names, lists, level);
    }
  }

  // ---------- the groups ----------

  datatype Label = Normal(name: string) | Special(key: string)

  /** The files with a label, in order. */
  function Pick(files: seq<string>, tag: string -> Label, l: Label): seq<string> {
    if files == [] then []
    else if tag(Last(files)) == l then Pick(Init(files), tag, l) + [Last(files)]
    else Pick(Init(files), tag, l)
  }

  /** groups[key].append(rel). */
  function Append(groups: map<string, seq<string>>, key: string, rel: string): map<string, seq<string>> {
    groups[key := (if key in groups then groups[key] else []) + [rel]]
  }

  function Named(special: bool, key: string): Label {
    if special then Special(key) else Normal(key)
  }

  /** The groups of one kind hold the files of their label, and no group is empty. */
  ghost predicate Grouped(groups: map<string, seq<string>>, files: seq<string>, tag: string -> Label, special: bool) {
    forall k :: (if k in groups then groups[k] else []) == Pick(files, tag, Named(special, k))
             && (k in groups ==> groups[k] != [])
  }

  lemma PickOneMore(files: seq<string>, f: string, tag: string -> Label, l: Label)
    ensures Pick(files + [f], tag, l) == if tag(f) == l then Pick(files, tag, l) + [f] else Pick(files, tag, l)
  {
  }

  lemma AppendKeepsGrouped(groups: map<string, seq<string>>, files: seq<string>, tag: string -> Label, special: bool,
                           key: string, f: string)
    requires Grouped(groups, files, tag, special) && tag(f) == Named(special, key)
    ensures Grouped(Append(groups, key, f), files + [f], tag, special)
  {
    var after := Append(groups, key, f);
    forall k ensures (if k in after then after[k] else []) == Pick(files + [f], tag, Named(special, k))
                  && (k in after ==> after[k] != [])
    {
      PickOneMore(files, f, tag, Named(special, k));
      assert (if k in groups then groups[k] else []) == Pick(files, tag, Named(special, k));
    }
  }

  lemma SkipKeepsGrouped(groups: map<string, seq<string>>, files: seq<string>, tag: string -> Label, special: bool,
                         f: string)
    requires Grouped(groups, files, tag, special) && tag(f).Special? != special
    ensures Grouped(groups, files + [f], tag, special)
  {
  }

  /** The files that are not shared libraries. */
  function Plain(names: Naming, files: seq<string>): seq<string> {
    if files == [] then []
    else if names.shared(Last(files)) then Plain(names, Init(files))
    else Plain(names, Init(files)) + [Last(files)]
  }

  lemma {:induction false} PickPlain(names: Naming, files: seq<string>, tag: string -> Label, m: string)
    requires forall f | f in files && names.shared(f) :: tag(f).Special?
    ensures Pick(Plain(names, files), tag, Normal(m)) == Pick(files, tag, Normal(m))
  {
    if files != [] {
      var f := Last(files);
      InitLast(files);
      PickPlain(names, Init(files), tag, m);
      if !names.shared(f) { PickOneMore(Plain(names, Init(files)), f, tag, Normal(m)); }
    }
  }

  lemma {:induction false} PickAgrees(files: seq<string>, tag: string -> Label, other: string -> Label, l: Label)
    requires forall f | f in files :: tag(f) == l <==> other(f) == l
    ensures Pick(files, tag, l) == Pick(files, other, l)
  {
    if files != [] {
      InitLast(files);
      PickAgrees(Init(files), tag, other, l);
    }
  }

  lemma {:induction false} PlainFiles(names: Naming, files: seq<string>)
    ensures forall f :: f in Plain(names, files) <==> f in files && !names.shared(f)
  {
    if files != [] {
      InitLast(files);
      PlainFiles(names, Init(files));
    }
  }

  function SharedKey(names: Naming, f: string): string {
    names.soname(f).GetOr(UNMATCHED_SHARED)
  }

  /** The label of a file: shared libraries by their base name, the others by their module. */
  ghost predicate Labels(names: Naming, files: seq<string>, tag: string -> Label,
                         common: seq<string>, lists: seq<seq<string>>, candidates: seq<string>) {
    var plain := Plain(names, files);
    && (plain != [] ==> LongestShared(common, plain))
    && |lists| == |plain|
    && (forall f | f in plain :: |common| < |Split(Slashes(f))|)
    && (forall i | 0 <= i < |plain| :: lists[i] == FunctionalDirs(names, common, plain[i]))
    && Candidates(names, lists, candidates)
    && (forall f | f in files && names.shared(f) :: tag(f) == Special(SharedKey(names, f)))
    && (forall i | 0 <= i < |plain| :: tag(plain[i]) == Normal(ModuleOf(names, lists, candidates, lists[i])))
  }

  /** The first loop: shared libraries are grouped, the others collected. */
  method SplitShared(names: Naming, files: seq<string>)
    returns (plain: seq<string>, special: map<string, seq<string>>, ghost tag: string -> Label)
    ensures plain == Plain(names, files)
    ensures forall f :: tag(f) == if names.shared(f) then Special(SharedKey(names, f)) else Normal([])
    ensures Grouped(special, files, tag, true)
  {
    plain, special := [], map[];
    tag := f => if names.shared(f) then Special(SharedKey(names, f)) else Normal([]);
    for i := 0 to |files|
      invariant plain == Plain(names, files[..i])
      invariant Grouped(special, files[..i], tag, true)
    {
      var f := files[i];
      assert files[..i + 1] == files[..i] + [f];
      assert Init(files[..i + 1]) == files[..i] && Last(files[..i + 1]) == f;
      if names.shared(f) {
        AppendKeepsGrouped(special, files[..i], tag, true, SharedKey(names, f), f);
        special := Append(special, SharedKey(names, f), f);
      } else {
        SkipKeepsGrouped(special, files[..i], tag, true, f);
        plain := plain + [f];
      }
    }
    assert files[..|files|] == files;
  }

  /** The last loop: files grouped by their module. */
  method GroupPlain(plain: seq<string>, modules: seq<string>, ghost tag: string -> Label)
    returns (normal: map<string, seq<string>>)
    requires |modules| == |plain| && forall i | 0 <= i < |plain| :: tag(plain[i]) == Normal(modules[i])
    ensures Grouped(normal, plain, tag, false)
  {
    normal := map[];
    for i := 0 to |plain|
      invariant Grouped(normal, plain[..i], tag, false)
    {
      assert plain[..i + 1] == plain[..i] + [plain[i]];
      AppendKeepsGrouped(normal, plain[..i], tag, false, modules[i], plain[i]);
      normal := Append(normal, modules[i], plain[i]);
    }
    assert plain[..|plain|] == plain;
  }

  /** Every file keeps its number of occurrences in the group of its label and has none in any other. */
  lemma {:induction false} EachFileInOneGroup(files: seq<string>, tag: string -> Label, l: Label, f: string)
    ensures multiset(Pick(files, tag, l))[f] == if tag(f) == l then multiset(files)[f] else 0
  {
    if files != [] {
      EachFileInOneGroup(Init(files), tag, l, f);
      InitLast(files);
    }
  }

  /** The group of a label, empty if there is none. */
  function GroupOf(normal: map<string, seq<string>>, special: map<string, seq<string>>, l: Label): seq<string> {
    match l
    case Normal(name) => if name in normal then normal[name] else []
    case Special(key) => if key in special then special[key] else []
  }

  /** The groups partition the files: a file with all its occurrences stands in one group and in no other, and
      the groups hold nothing else. */
  ghost predicate Partition(files: seq<string>, normal: map<string, seq<string>>, special: map<string, seq<string>>) {
    && (forall f, l | f in GroupOf(normal, special, l) ::
          multiset(GroupOf(normal, special, l))[f] == multiset(files)[f])
    && (forall f | f in files :: exists l :: f in GroupOf(normal, special, l))
    && (forall f, l, m | f in GroupOf(normal, special, l) && f in GroupOf(normal, special, m) :: l == m)
  }

  ghost predicate GroupHolds(files: seq<string>, tag: string -> Label, group: seq<string>, l: Label, f: string) {
    (f in group <==> f in files && tag(f) == l) && (f in group ==> multiset(group)[f] == multiset(files)[f])
  }

  lemma GroupedHolds(files: seq<string>, tag: string -> Label, normal: map<string, seq<string>>,
                     special: map<string, seq<string>>, l: Label, f: string)
    requires Grouped(normal, files, tag, false) && Grouped(special, files, tag, true)
    ensures GroupHolds(files, tag, GroupOf(normal, special, l), l, f)
  {
    var group := GroupOf(normal, special, l);
    assert group == Pick(files, tag, Named(l.Special?, if l.Special? then l.key else l.name));
    EachFileInOneGroup(files, tag, l, f);
    assert f in group <==> f in multiset(group);
    assert f in files <==> f in multiset(files);
  }

  lemma {:induction false} HoldingIsPartition(files: seq<string>, tag: string -> Label,
                                              normal: map<string, seq<string>>, special: map<string, seq<string>>)
    requires forall l, f :: GroupHolds(files, tag, GroupOf(normal, special, l), l, f)
    ensures Partition(files, normal, special)
  {
    forall l, f ensures f in GroupOf(normal, special, l) ==>
                          tag(f) == l && multiset(GroupOf(normal, special, l))[f] == multiset(files)[f]
    {
      assert GroupHolds(files, tag, GroupOf(normal, special, l), l, f);
    }
    forall f, l, m | f in GroupOf(normal, special, l) && f in GroupOf(normal, special, m) ensures l == m {
      assert tag(f) == l && tag(f) == m;
    }
    forall f | f in files ensures exists l :: f in GroupOf(normal, special, l) {
      assert GroupHolds(files, tag, GroupOf(normal, special, tag(f)), tag(f), f);
    }
  }

  lemma {:induction false} GroupedIsPartition(files: seq<string>, tag: string -> Label,
                                              normal: map<string, seq<string>>, special: map<string, seq<string>>)
    requires Grouped(normal, files, tag, false) && Grouped(special, files, tag, true)
    ensures Partition(files, normal, special)
  {
    forall l, f ensures GroupHolds(files, tag, GroupOf(normal, special, l), l, f) {
      GroupedHolds(files, tag, normal, special, l, f);
    }
    HoldingIsPartition(files, tag, normal, special);
  }

  /** These are the files that are no shared libraries, with their repeats. */
  ghost predicate Unshared(names: Naming, files: seq<string>, plain: seq<string>) {
    forall f :: multiset(plain)[f] == if names.shared(f) then 0 else multiset(files)[f]
  }

  lemma {:induction false} PlainCounts(names: Naming, files: seq<string>, f: string)
    ensures multiset(Plain(names, files))[f] == if names.shared(f) then 0 else multiset(files)[f]
  {
    if files != [] {
      InitLast(files);
      PlainCounts(names, Init(files), f);
    }
  }

  /** The label of a shared library is its base name or the group without one, that of any other file its module. */
  ghost predicate LabelsSay(names: Naming, files: seq<string>, tag: string -> Label, plain: seq<string>,
                            common: seq<string>, lists: seq<seq<string>>, candidates: seq<string>) {
    && Unshared(names, files, plain)
    && (plain != [] ==> LongestShared(common, plain))
    && |lists| == |plain| == |candidates|
    && (forall i | 0 <= i < |plain| :: PathBelow(names, common, plain[i], lists[i]))
    && (forall i | 0 <= i < |plain| :: IsCandidate(names, lists[i], candidates[i]))
    && (forall i | 0 <= i < |plain| :: TaggedWith(names, lists, candidates, i, tag(plain[i])))
    && (forall f | f in files && names.shared(f) ::
          tag(f) == Special(if names.soname(f).Some? then names.soname(f).value else "__unmatched_shared__"))
  }

  ghost predicate TaggedWith(names: Naming, lists: seq<seq<string>>, candidates: seq<string>, i: nat, l: Label) {
    i < |lists| == |candidates| && l.Normal? && IsModule(names, lists, candidates, i, l.name)
  }

  lemma LabelsSaySo(names: Naming, files: seq<string>, tag: string -> Label, common: seq<string>,
                    lists: seq<seq<string>>, candidates: seq<string>)
    requires Labels(names, files, tag, common, lists, candidates)
    ensures LabelsSay(names, files, tag, Plain(names, files), common, lists, candidates)
  {
    var plain := Plain(names, files);
    forall f ensures multiset(plain)[f] == if names.shared(f) then 0 else multiset(files)[f] {
      PlainCounts(names, files, f);
    }
    forall i | 0 <= i < |plain| ensures PathBelow(names, common, plain[i], lists[i]) {
      FunctionalDirsBelow(names, common, plain[i]);
    }
    forall i | 0 <= i < |plain| ensures IsCandidate(names, lists[i], candidates[i]) {
      CandidateIs(names, lists[i]);
    }
    forall i | 0 <= i < |plain| ensures TaggedWith(names, lists, candidates, i, tag(plain[i])) {
      ModuleIs(names, lists, candidates, i);
    }
  }

  /** _build_path_groups_v2. */
  method BuildPathGroups(names: Naming, files: seq<string>)
    returns (normal: map<string, seq<string>>, special: map<string, seq<string>>,
             ghost tag: string -> Label, ghost common: seq<string>, ghost lists: seq<seq<string>>,
             ghost candidates: seq<string>)
    ensures Labels(names, files, tag, common, lists, candidates)
    ensures LabelsSay(names, files, tag, Plain(names, files), common, lists, candidates)
    ensures Grouped(normal, files, tag, false) && Grouped(special, files, tag, true)
    ensures Partition(files, normal, special)
  {
    normal, special, tag, common, lists, candidates := GroupFiles(names, files);
    LabelsSaySo(names, files, tag, common, lists, candidates);
    GroupedIsPartition(files, tag, normal, special);
  }

  method GroupFiles(names: Naming, files: seq<string>)
    returns (normal: map<string, seq<string>>, special: map<string, seq<string>>,
             ghost tag: string -> Label, ghost common: seq<string>, ghost lists: seq<seq<string>>,
             ghost candidates: seq<string>)
    ensures Labels(names, files, tag, common, lists, candidates)
    ensures Grouped(normal, files, tag, false) && Grouped(special, files, tag, true)
  {
    var plain;
    ghost var draft;
    plain, special, draft := SplitShared(names, files);
    PlainFiles(names, files);
    if plain == [] {
      normal, tag, common, lists, candidates := map[], draft, [], [], [];
      forall k ensures Pick(files, tag, Normal(k)) == [] { PickPlain(names, files, tag, k); }
      return;
    }
    var stripped, modules;
    stripped, common := StripCommonPrefixes(names, plain);
    modules, candidates := FindModuleBoundary(names, stripped);
    lists := stripped;
    tag := FinalTag(names, plain, common, lists, candidates);
    normal := GroupPlain(plain, modules, tag);
    forall k ensures Pick(files, tag, Normal(k)) == Pick(plain, tag, Normal(k)) { PickPlain(names, files, tag, k); }
    forall k ensures Pick(files, tag, Special(k)) == Pick(files, draft, Special(k)) {
      PickAgrees(files, tag, draft, Special(k));
    }
  }

  ghost function FinalTag(names: Naming, plain: seq<string>, common: seq<string>, lists: seq<seq<string>>,
                          candidates: seq<string>): (tag: string -> Label)
    requires forall f | f in plain :: |common| < |Split(Slashes(f))|
    ensures forall f | names.shared(f) :: tag(f) == Special(SharedKey(names, f))
    ensures forall f | f in plain && !names.shared(f) ::
              tag(f) == Normal(ModuleOf(names, lists, candidates, FunctionalDirs(names, common, f)))
    ensures forall f | !names.shared(f) :: tag(f).Normal?
  {
    f => if names.shared(f) then Special(SharedKey(names, f))
         else if f in plain then Normal(ModuleOf(names, lists, candidates, FunctionalDirs(names, common, f)))
         else Normal([])
  }

}
