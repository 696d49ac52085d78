/** app/pipeline/helpers.py, discover_modules: module directories nested in a directory without a list of its own
    are moved up, or joined to the module of their name, before the modules are collected. */
module Discovery {
  import opened Ordering
  import opened Sequences
  import Workspace

  type Name = Workspace.Name
  type File = Workspace.File

  /** A directory under modules/: its list, empty when missing, and the lists of the directories in it. */
  datatype Dir = Dir(list: seq<File>, nested: map<Name, seq<File>>)

  type Tree = map<Name, Dir>

  const NO_DIR := Dir([], map[])

  predicate Visible(n: Name) {
    !("." <= n)
  }

  /** The nested module directories. */
  function Nested(d: Dir): set<Name> {
    set n | n in d.nested && Visible(n) && d.nested[n] != []
  }

  /** A directory that is opened up: visible and without a list of its own. */
  predicate Container(tree: Tree, p: Name) {
    p in tree && Visible(p) && tree[p].list == []
  }

  function NotIn(files: seq<File>, existing: set<File>): seq<File> {
    if files == [] then []
    else
      var before := NotIn(Init(files), existing);
      if Last(files) in existing then before else before + [Last(files)]
  }

  /** The entries not yet there are appended. */
  function Joined(list: seq<File>, files: seq<File>): seq<File> {
    list + NotIn(files, SetOf(list))
  }

  function DirOr(tree: Tree, t: Name): Dir {
    if t in tree then tree[t] else NO_DIR
  }

  function Less(nested: map<Name, seq<File>>, gone: set<Name>): map<Name, seq<File>> {
    map n | n in nested && n !in gone :: nested[n]
  }

  lemma LessMore(nested: map<Name, seq<File>>, gone: set<Name>, sub: Name)
    ensures Less(nested, {}) == nested
    ensures Less(Less(nested, gone), {sub}) == Less(nested, gone + {sub})
  {
  }

  /** The tree after the nested directories `done` of p are moved up, in any order. */
  function MovedUp(tree: Tree, p: Name, done: set<Name>): Tree
    requires p in tree && done <= tree[p].nested.Keys
  {
    map t | t in tree.Keys + done ::
      Dir(if t in done then Joined(DirOr(tree, t).list, tree[p].nested[t]) else DirOr(tree, t).list,
          if t == p then Less(tree[p].nested, done) else DirOr(tree, t).nested)
  }

  function FlattenOne(tree: Tree, p: Name): Tree {
    if Container(tree, p) then MovedUp(tree, p, Nested(tree[p])) else tree
  }

  function FlattenAll(tree: Tree, parents: seq<Name>): Tree {
    if parents == [] then tree else FlattenOne(FlattenAll(tree, Init(parents)), Last(parents))
  }

  function Flattened(tree: Tree): Tree {
    FlattenAll(tree, Sorted(tree.Keys))
  }

  /** The visible directories with a list. */
  function Modules(tree: Tree): set<Name> {
    set m | m in tree && Visible(m) && tree[m].list != []
  }

  /** The lists under modules/ after discovery. */
  function Lists(tree: Tree): map<Name, seq<File>> {
    var z := Flattened(tree);
    map m | m in z :: z[m].list
  }

  lemma {:induction false} NotInNone(files: seq<File>)
    ensures NotIn(files, {}) == files
  {
    if files != [] {
      NotInNone(Init(files));
      InitLast(files);
    }
  }

  lemma JoinedToNone(files: seq<File>)
    ensures Joined([], files) == files
  {
    NotInNone(files);
    assert SetOf([]) == {};
  }

  /** One nested directory moved up, or joined to the module of its name. */
  function OneUp(tree: Tree, p: Name, sub: Name): Tree
    requires p in tree && sub in tree[p].nested
  {
    var d := DirOr(tree, sub);
    var up := tree[sub := Dir(Joined(d.list, tree[p].nested[sub]), d.nested)];
    up[p := up[p].(nested := Less(up[p].nested, {sub}))]
  }

  lemma MovedUpStep(tree: Tree, p: Name, done: set<Name>, sub: Name)
    requires p in tree && done <= tree[p].nested.Keys && sub in tree[p].nested && sub !in done
    ensures var mid := MovedUp(tree, p, done);
            p in mid && sub in mid[p].nested && MovedUp(tree, p, done + {sub}) == OneUp(mid, p, sub)
  {
    LessMore(tree[p].nested, done, sub);
    var mid := MovedUp(tree, p, done);
    assert DirOr(mid, sub).list == DirOr(tree, sub).list;
  }

  lemma NoneMovedUp(tree: Tree, p: Name)
    requires p in tree
    ensures MovedUp(tree, p, {}) == tree
  {
    LessMore(tree[p].nested, {}, p);
  }

  class ModulesRoot {
    var tree: Tree

    constructor (tree: Tree)
      ensures this.tree == tree
    {
      this.tree := tree;
    }

    method MoveUp(p: Name, sub: Name)
      requires p in tree && sub in tree[p].nested
      modifies this
      ensures tree == OneUp(old(tree), p, sub)
    {
      var files := tree[p].nested[sub];
      if sub !in tree {
        JoinedToNone(files);
        tree := tree[sub := Dir(files, map[])];
      } else {
        AppendTo(sub, files);
      }
      tree := tree[p := tree[p].(nested := Less(tree[p].nested, {sub}))];
    }

    /** The body of the first loop, with the nested directories met in any order. */
    method Open(p: Name)
      requires Container(tree, p)
      modifies this
      ensures tree == FlattenOne(old(tree), p)
    {
      ghost var before := tree;
      ghost var done: set<Name> := {};
      var todo := Nested(tree[p]);
      ghost var all := todo;
      assert all <= before[p].nested.Keys;
      NoneMovedUp(before, p);
      while todo != {}
        invariant done + todo == all && done !! todo
        invariant tree == MovedUp(before, p, done)
        decreases |todo|
      {
        var sub :| sub in todo;
        MoveOne(done, todo, all, sub);
        assert sub in before[p].nested;
        MovedUpStep(before, p, done, sub);
        MoveUp(p, sub);
        done := done + {sub};
        todo := todo - {sub};
      }
      assert done == all;
    }

    method AppendTo(t: Name, files: seq<File>)
      requires t in tree
      modifies this
      ensures tree == old(tree)[t := old(tree)[t].(list := Joined(old(tree)[t].list, files))]
    {
      var list := tree[t].list;
      var existing := SetOf(list);
      ghost var before := tree[t];
      assert list + [] == list;
      for i := 0 to |files|
        invariant tree.Keys == old(tree).Keys
        invariant tree == old(tree)[t := before.(list := list + NotIn(files[..i], existing))]
      {
        assert Init(files[..i + 1]) == files[..i] && Last(files[..i + 1]) == files[i];
        ConcatAssoc(list, NotIn(files[..i], existing), [files[i]]);
        if files[i] !in existing {
          tree := tree[t := tree[t].(list := tree[t].list + [files[i]])];
        }
      }
      assert files[..|files|] == files;
    }

    /** discover_modules. */
    method DiscoverModules() returns (names: seq<Name>)
      modifies this
      ensures tree == Flattened(old(tree)) && names == Sorted(Modules(tree))
      ensures StrictlySorted(names)
      ensures forall m :: m in names <==> m in tree && !("." <= m) && tree[m].list != []
    {
      var parents := Sorted(tree.Keys);
      for i := 0 to |parents|
        invariant tree == FlattenAll(old(tree), parents[..i])
      {
        assert Init(parents[..i + 1]) == parents[..i] && Last(parents[..i + 1]) == parents[i];
        var p := parents[i];
        if p in tree && Visible(p) && tree[p].list == [] {
          Open(p);
        }
      }
      assert parents[..|parents|] == parents;
      names := Sorted(Modules(tree));
      assert forall m :: m in names <==> m in Elems(names);
    }
  }

  // ---------- nothing is lost on disk ----------

  /** Every file listed by a directory or by a directory in it. */
  ghost predicate Somewhere(tree: Tree, f: File) {
    (exists t :: f in DirOr(tree, t).list) || (exists t, n :: InNested(tree, t, n, f))
  }

  ghost predicate InNested(tree: Tree, t: Name, n: Name, f: File) {
    n in DirOr(tree, t).nested && f in DirOr(tree, t).nested[n]
  }

  lemma {:induction false} NotInHas(files: seq<File>, existing: set<File>, f: File)
    ensures f in NotIn(files, existing) <==> f in files && f !in existing
  {
    if files != [] {
      NotInHas(Init(files), existing, f);
      InitLast(files);
    }
  }

  lemma JoinedHas(list: seq<File>, files: seq<File>, f: File)
    ensures f in Joined(list, files) <==> f in list || f in files
  {
    NotInHas(files, SetOf(list), f);
    assert f in SetOf(list) <==> f in list;
  }

  lemma {:induction false} NotInConcat(a: seq<File>, b: seq<File>, existing: set<File>)
    ensures NotIn(a + b, existing) == NotIn(a, existing) + NotIn(b, existing)
  {
    if b == [] {
      assert a + b == a;
    } else {
      assert Init(a + b) == a + Init(b) && Last(a + b) == Last(b);
      NotInConcat(a, Init(b), existing);
    }
  }

  /** Joining appends, in order, the entries that the list lacks, repeats included. */
  lemma JoinedIs(list: seq<File>, a: seq<File>, f: File, b: seq<File>)
    ensures list <= Joined(list, a) && Joined(list, []) == list
    ensures var before, after := |Joined(list, a)|, |Joined(list, a + [f])|;
            && Joined(list, a) <= Joined(list, a + [f]) <= Joined(list, a + [f] + b)
            && Joined(list, a + [f])[before..] == if f in list then [] else [f]
  {
    NotInConcat(a, [f], SetOf(list));
    NotInConcat(a + [f], b, SetOf(list));
    assert Init([f]) == [] && Last([f]) == f;
    assert f in SetOf(list) <==> f in list;
  }

  lemma ListAfter(tree: Tree, p: Name, t: Name, f: File)
    requires Container(tree, p)
    ensures f in DirOr(FlattenOne(tree, p), t).list
       <==> f in DirOr(tree, t).list || (t in Nested(tree[p]) && f in tree[p].nested[t])
  {
    if t in Nested(tree[p]) { JoinedHas(DirOr(tree, t).list, tree[p].nested[t], f); }
  }

  lemma NestedAfter(tree: Tree, p: Name, t: Name)
    requires Container(tree, p)
    ensures DirOr(FlattenOne(tree, p), t).nested
         == if t == p then Less(tree[p].nested, Nested(tree[p])) else DirOr(tree, t).nested
  {
  }

  lemma FlattenOneKeeps(tree: Tree, p: Name, f: File)
    ensures Somewhere(FlattenOne(tree, p), f) <==> Somewhere(tree, f)
  {
    if Container(tree, p) {
      var after := FlattenOne(tree, p);
      forall t ensures f in DirOr(after, t).list ==> Somewhere(tree, f) {
        ListAfter(tree, p, t, f);
        assert t in Nested(tree[p]) && f in tree[p].nested[t] ==> InNested(tree, p, t, f);
      }
      forall t ensures f in DirOr(tree, t).list ==> f in DirOr(after, t).list { ListAfter(tree, p, t, f); }
      forall t, n ensures InNested(after, t, n, f) ==> InNested(tree, t, n, f) { NestedAfter(tree, p, t); }
      forall t, n ensures InNested(tree, t, n, f) ==> InNested(after, t, n, f) || f in DirOr(after, n).list {
        NestedAfter(tree, p, t);
        ListAfter(tree, p, n, f);
      }
    }
  }

  lemma {:induction false} FlattenKeepsFiles(tree: Tree, parents: seq<Name>, f: File)
    ensures Somewhere(FlattenAll(tree, parents), f) <==> Somewhere(tree, f)
  {
    if parents != [] {
      FlattenKeepsFiles(tree, Init(parents), f);
      FlattenOneKeeps(FlattenAll(tree, Init(parents)), Last(parents), f);
    }
  }

  lemma NestedOf(tree: Tree, p: Name, t: Name)
    ensures var d := DirOr(tree, t);
            DirOr(FlattenOne(tree, p), t).nested
              == if t == p && Container(tree, p) then Less(d.nested, Nested(d)) else d.nested
  {
  }

  lemma ListPrefix(tree: Tree, p: Name, t: Name)
    ensures DirOr(tree, t).list <= DirOr(FlattenOne(tree, p), t).list
  {
  }

  /** A pass leaves every list as a prefix of what it becomes. */
  lemma {:induction false} ListsKeepTheirEntries(tree: Tree, parents: seq<Name>, t: Name)
    ensures DirOr(tree, t).list <= DirOr(FlattenAll(tree, parents), t).list
  {
    if parents != [] {
      ListsKeepTheirEntries(tree, Init(parents), t);
      ListPrefix(FlattenAll(tree, Init(parents)), Last(parents), t);
    }
  }

  /** What hidden directories and directories with a list hold stays in them, and so do hidden directories and those
      without a list; nothing gets into a directory. */
  lemma {:induction false} NestedStays(tree: Tree, parents: seq<Name>, p: Name, n: Name)
    ensures var before, after := DirOr(tree, p), DirOr(FlattenAll(tree, parents), p);
            && (n in after.nested ==> n in before.nested && after.nested[n] == before.nested[n])
            && (n in before.nested && ("." <= p || before.list != [] || "." <= n || before.nested[n] == []) ==>
                  n in after.nested)
  {
    if parents != [] {
      var mid := FlattenAll(tree, Init(parents));
      NestedStays(tree, Init(parents), p, n);
      ListsKeepTheirEntries(tree, Init(parents), p);
      NestedOf(mid, Last(parents), p);
    }
  }

  /** An entry comes into the list of t only from a visible directory without a list that holds a visible t. */
  ghost predicate ComesFrom(tree: Tree, p: Name, t: Name, f: File) {
    p in tree && !("." <= p) && tree[p].list == [] && !("." <= t) && InNested(tree, p, t, f)
  }

  lemma {:induction false} EntriesComeFrom(tree: Tree, parents: seq<Name>, t: Name, f: File)
    requires f in DirOr(FlattenAll(tree, parents), t).list
    ensures f in DirOr(tree, t).list || exists p :: ComesFrom(tree, p, t, f)
  {
    if parents != [] {
      var mid, p := FlattenAll(tree, Init(parents)), Last(parents);
      if f in DirOr(mid, t).list {
        EntriesComeFrom(tree, Init(parents), t, f);
      } else {
        if Container(mid, p) { ListAfter(mid, p, t, f); }
        NestedStays(tree, Init(parents), p, t);
        ListsKeepTheirEntries(tree, Init(parents), p);
        assert ComesFrom(tree, p, t, f);
      }
    }
  }

  // ---------- what comes to the surface ----------

  lemma FlattenSnoc(tree: Tree, parents: seq<Name>, i: nat)
    requires i < |parents|
    ensures FlattenAll(tree, parents[..i + 1]) == FlattenOne(FlattenAll(tree, parents[..i]), parents[i])
  {
    assert Init(parents[..i + 1]) == parents[..i] && Last(parents[..i + 1]) == parents[i];
  }

  lemma ListStays(tree: Tree, p: Name, t: Name, f: File)
    requires f in DirOr(tree, t).list
    ensures f in DirOr(FlattenOne(tree, p), t).list
  {
    if Container(tree, p) { ListAfter(tree, p, t, f); }
  }

  /** Lists only grow. */
  lemma {:induction false} ListsGrow(tree: Tree, parents: seq<Name>, i: nat, k: nat, t: Name, f: File)
    requires i <= k <= |parents| && f in DirOr(FlattenAll(tree, parents[..i]), t).list
    ensures f in DirOr(FlattenAll(tree, parents[..k]), t).list
  {
    if i < k {
      ListsGrow(tree, parents, i, k - 1, t, f);
      FlattenSnoc(tree, parents, k - 1);
      ListStays(FlattenAll(tree, parents[..k - 1]), parents[k - 1], t, f);
    }
  }

  lemma EmptyBefore(tree: Tree, parents: seq<Name>, i: nat, k: nat, t: Name)
    requires i <= k <= |parents| && DirOr(FlattenAll(tree, parents[..k]), t).list == []
    ensures DirOr(FlattenAll(tree, parents[..i]), t).list == []
  {
    var list := DirOr(FlattenAll(tree, parents[..i]), t).list;
    if list != [] { ListsGrow(tree, parents, i, k, t, list[0]); }
  }

  lemma {:induction false} DirsStay(tree: Tree, parents: seq<Name>)
    ensures tree.Keys <= FlattenAll(tree, parents).Keys
    ensures forall t | t in FlattenAll(tree, parents) && t !in tree :: FlattenAll(tree, parents)[t].list != []
  {
    if parents != [] {
      var before, p := FlattenAll(tree, Init(parents)), Last(parents);
      DirsStay(tree, Init(parents));
      forall t | t in FlattenOne(before, p) && t !in tree ensures FlattenOne(before, p)[t].list != [] {
        var f := if t in before then before[t].list[0] else before[p].nested[t][0];
        if Container(before, p) { ListAfter(before, p, t, f); }
      }
    }
  }

  /** Until its turn a directory keeps what is nested in it. */
  lemma {:induction false} NestedUntouched(tree: Tree, parents: seq<Name>, t: Name)
    requires t !in parents
    ensures DirOr(FlattenAll(tree, parents), t).nested == DirOr(tree, t).nested
  {
    if parents != [] {
      NestedUntouched(tree, Init(parents), t);
      InitLast(parents);
      if Container(FlattenAll(tree, Init(parents)), Last(parents)) {
        NestedAfter(FlattenAll(tree, Init(parents)), Last(parents), t);
      }
    }
  }

  /** Directory i is opened up in its turn. */
  predicate Opens(tree: Tree, parents: seq<Name>, i: nat)
    requires i < |parents|
  {
    Container(FlattenAll(tree, parents[..i]), parents[i])
  }

  ghost predicate NoRepeats(parents: seq<Name>) {
    forall i, j | 0 <= i < j < |parents| :: parents[i] != parents[j]
  }

  lemma {:induction false} FinalNested(tree: Tree, parents: seq<Name>, i: nat, k: nat)
    requires i < k <= |parents| && NoRepeats(parents)
    ensures var d := DirOr(tree, parents[i]);
            DirOr(FlattenAll(tree, parents[..k]), parents[i]).nested
              == if Opens(tree, parents, i) then Less(d.nested, Nested(d)) else d.nested
  {
    FlattenSnoc(tree, parents, k - 1);
    NestedOf(FlattenAll(tree, parents[..k - 1]), parents[k - 1], parents[i]);
    if i < k - 1 {
      FinalNested(tree, parents, i, k - 1);
    } else {
      NestedUntouched(tree, parents[..i], parents[i]);
    }
  }

  predicate Before(p: Name, q: Name) {
    LexLe(p, q) && p != q
  }

  /** A directory without a list, with module directories in it, whose name is also that of a module directory in
      an earlier one. */
  ghost predicate Clash(tree: Tree, p: Name, q: Name) {
    && Container(tree, p) && Container(tree, q) && Before(p, q)
    && q in Nested(tree[p]) && Nested(tree[q]) != {}
  }

  ghost predicate NoClash(tree: Tree) {
    forall p, q :: !Clash(tree, p, q)
  }

  lemma SortedNames(names: set<Name>, i: nat, j: nat)
    requires i < j < |Sorted(names)|
    ensures Before(Sorted(names)[i], Sorted(names)[j])
  {
  }

  lemma NamesDistinct(names: set<Name>)
    ensures NoRepeats(Sorted(names))
  {
  }

  /** What a directory holds when its turn comes. */
  lemma {:induction false} OpensAsItWas(tree: Tree, i: nat)
    requires i < |Sorted(tree.Keys)|
    ensures var p := Sorted(tree.Keys)[i];
            && p in tree
            && DirOr(FlattenAll(tree, Sorted(tree.Keys)[..i]), p).nested == tree[p].nested
            && (Opens(tree, Sorted(tree.Keys), i) ==> Container(tree, p))
            && (Container(tree, p) && DirOr(FlattenAll(tree, Sorted(tree.Keys)[..i]), p).list == [] ==>
                  Opens(tree, Sorted(tree.Keys), i))
  {
    var parents := Sorted(tree.Keys);
    PrefixStep(tree.Keys, i);
    NestedUntouched(tree, parents[..i], parents[i]);
    DirsStay(tree, parents[..i]);
    if Opens(tree, parents, i) { EmptyBefore(tree, parents, 0, i, parents[i]); }
  }

  /** Opening directory k does not move anything into directory j. */
  ghost predicate NotInto(tree: Tree, parents: seq<Name>, k: nat, j: nat)
    requires k < |parents| && j < |parents|
  {
    var before := FlattenAll(tree, parents[..k]);
    Container(before, parents[k]) ==> parents[j] !in Nested(before[parents[k]])
  }

  /** Without a clash no directory opened up earlier holds one of the name of a later one that has module
      directories in it. */
  lemma NotMovedInto(tree: Tree, k: nat, j: nat)
    requires NoClash(tree) && k < j < |Sorted(tree.Keys)|
    requires Container(tree, Sorted(tree.Keys)[j]) && Nested(tree[Sorted(tree.Keys)[j]]) != {}
    ensures NotInto(tree, Sorted(tree.Keys), k, j)
  {
    OpensAsItWas(tree, k);
    SortedNames(tree.Keys, k, j);
    assert !Clash(tree, Sorted(tree.Keys)[k], Sorted(tree.Keys)[j]);
  }

  lemma {:induction false} ListKept(tree: Tree, parents: seq<Name>, k: nat, j: nat)
    requires k <= |parents| && j < |parents| && forall i: nat | i < k :: NotInto(tree, parents, i, j)
    ensures DirOr(FlattenAll(tree, parents[..k]), parents[j]).list == DirOr(tree, parents[j]).list
  {
    if k > 0 {
      var before, p := FlattenAll(tree, parents[..k - 1]), parents[k - 1];
      ListKept(tree, parents, k - 1, j);
      assert NotInto(tree, parents, k - 1, j);
      assert FlattenAll(tree, parents[..k]) == FlattenOne(before, p) by { FlattenSnoc(tree, parents, k - 1); }
      ListUntouched(before, p, parents[j]);
    }
  }

  /** So that one still has no list when its turn comes. */
  lemma StaysEmpty(tree: Tree, j: nat)
    requires NoClash(tree) && j < |Sorted(tree.Keys)|
    requires Container(tree, Sorted(tree.Keys)[j]) && Nested(tree[Sorted(tree.Keys)[j]]) != {}
    ensures DirOr(FlattenAll(tree, Sorted(tree.Keys)[..j]), Sorted(tree.Keys)[j]).list == []
  {
    forall i: nat | i < j ensures NotInto(tree, Sorted(tree.Keys), i, j) { NotMovedInto(tree, i, j); }
    ListKept(tree, Sorted(tree.Keys), j, j);
  }

  lemma ListUntouched(tree: Tree, p: Name, t: Name)
    requires Container(tree, p) ==> t !in Nested(tree[p])
    ensures DirOr(FlattenOne(tree, p), t).list == DirOr(tree, t).list
  {
  }

  lemma IndexOf(names: set<Name>, p: Name) returns (i: nat)
    requires p in names
    ensures i < |Sorted(names)| && Sorted(names)[i] == p
  {
    assert p in Elems(Sorted(names));
    i :| i < |Sorted(names)| && Sorted(names)[i] == p;
  }

  lemma {:induction false} WholeNames(tree: Tree)
    ensures FlattenAll(tree, Sorted(tree.Keys)[..|Sorted(tree.Keys)|]) == Flattened(tree)
  {
    assert Sorted(tree.Keys)[..|Sorted(tree.Keys)|] == Sorted(tree.Keys);
  }

  /** Nothing is left in directory p after the pass. */
  ghost predicate OpenedUp(tree: Tree, p: Name) {
    Nested(DirOr(Flattened(tree), p)) == {}
  }

  lemma OpenedUpIff(tree: Tree, i: nat)
    requires i < |Sorted(tree.Keys)| && Container(tree, Sorted(tree.Keys)[i])
    ensures var p := Sorted(tree.Keys)[i];
            OpenedUp(tree, p) <==> Opens(tree, Sorted(tree.Keys), i) || Nested(tree[p]) == {}
  {
    WholeNames(tree);
    NamesDistinct(tree.Keys);
    FinalNested(tree, Sorted(tree.Keys), i, |Sorted(tree.Keys)|);
  }

  /** One pass opens up every directory without a list exactly when no two of them clash. */
  lemma EveryContainerOpensIff(tree: Tree)
    ensures (forall p | Container(tree, p) :: OpenedUp(tree, p)) <==> NoClash(tree)
  {
    if NoClash(tree) {
      forall p | Container(tree, p) ensures OpenedUp(tree, p) {
        var i := IndexOf(tree.Keys, p);
        OpenedUpIff(tree, i);
        if Nested(tree[p]) != {} {
          StaysEmpty(tree, i);
          OpensAsItWas(tree, i);
        }
      }
    }
    forall p, q | Clash(tree, p, q) ensures !OpenedUp(tree, p) || !OpenedUp(tree, q) {
      ClashBlocks(tree, p, q);
    }
  }

  lemma IndicesInOrder(names: set<Name>, i: nat, j: nat)
    requires i < |Sorted(names)| && j < |Sorted(names)| && Before(Sorted(names)[i], Sorted(names)[j])
    ensures i < j
  {
    if j < i {
      SortedNames(names, j, i);
      LexAntisymmetric(Sorted(names)[i], Sorted(names)[j]);
    }
  }

  lemma ClashBlocks(tree: Tree, p: Name, q: Name)
    requires Clash(tree, p, q)
    ensures !OpenedUp(tree, p) || !OpenedUp(tree, q)
  {
    var parents := Sorted(tree.Keys);
    var i := IndexOf(tree.Keys, p);
    var j := IndexOf(tree.Keys, q);
    IndicesInOrder(tree.Keys, i, j);
    OpenedUpIff(tree, i);
    OpenedUpIff(tree, j);
    OpensAsItWas(tree, i);
    if Opens(tree, parents, i) {
      var before := FlattenAll(tree, parents[..i]);
      var f := before[p].nested[q][0];
      ListAfter(before, p, q, f);
      FlattenSnoc(tree, parents, i);
      ListsGrow(tree, parents, i + 1, j, q, f);
    }
  }

  /** Then every file of a nested module directory is listed by the module of that name. */
  lemma {:induction false} NestedFilesSurface(tree: Tree, p: Name, n: Name, f: File)
    requires NoClash(tree) && Container(tree, p) && n in Nested(tree[p]) && f in tree[p].nested[n]
    ensures n in Modules(Flattened(tree)) && f in Flattened(tree)[n].list
  {
    var parents := Sorted(tree.Keys);
    var i := IndexOf(tree.Keys, p);
    StaysEmpty(tree, i);
    OpensAsItWas(tree, i);
    ListAfter(FlattenAll(tree, parents[..i]), p, n, f);
    FlattenSnoc(tree, parents, i);
    ListsGrow(tree, parents, i + 1, |parents|, n, f);
    WholeNames(tree);
  }

  /** A second pass changes nothing, clash or not: what is left inside stays inside. */
  lemma FlattenedTwice(tree: Tree)
    ensures Flattened(Flattened(tree)) == Flattened(tree)
  {
    var z := Flattened(tree);
    forall p | Container(z, p) ensures Nested(z[p]) == {} { NothingLeft(tree, p); }
    NothingToOpen(z, Sorted(z.Keys));
  }

  lemma NothingLeft(tree: Tree, p: Name)
    requires Container(Flattened(tree), p)
    ensures Nested(Flattened(tree)[p]) == {}
  {
    var parents := Sorted(tree.Keys);
    DirsStay(tree, parents);
    WholeNames(tree);
    var i := IndexOf(tree.Keys, p);
    EmptyBefore(tree, parents, 0, |parents|, p);
    EmptyBefore(tree, parents, i, |parents|, p);
    OpensAsItWas(tree, i);
    OpenedUpIff(tree, i);
  }

  lemma {:induction false} NothingToOpen(tree: Tree, parents: seq<Name>)
    requires forall p | Container(tree, p) :: Nested(tree[p]) == {}
    ensures FlattenAll(tree, parents) == tree
  {
    if parents != [] {
      NothingToOpen(tree, Init(parents));
      if Container(tree, Last(parents)) { NoneMovedUp(tree, Last(parents)); }
    }
  }

  /** With nothing nested the lists are what they were. */
  lemma ListsOfFlat(lists: map<Name, seq<File>>)
    ensures Lists(Flat(lists)) == lists
  {
    NothingToOpen(Flat(lists), Sorted(Flat(lists).Keys));
  }

  function Flat(lists: map<Name, seq<File>>): Tree {
    map m | m in lists :: Dir(lists[m], map[])
  }

  /** Directory a holds a module directory b, and directory b, without a list, holds others. */
  ghost predicate TwoDeep(tree: Tree, a: Name, b: Name) {
    && tree.Keys == {a, b} && Before(a, b) && Visible(a) && Visible(b)
    && tree[a].list == [] && Nested(tree[a]) == {b}
    && tree[b].list == [] && Nested(tree[b]) != {}
  }

  lemma OpenFirst(tree: Tree, a: Name, b: Name)
    requires TwoDeep(tree, a, b)
    ensures var mid := FlattenOne(tree, a);
            mid.Keys == {a, b} && mid[a].list == [] && mid[b] == Dir(tree[a].nested[b], tree[b].nested)
  {
    assert b in Nested(tree[a]);
    JoinedToNone(tree[a].nested[b]);
  }

  lemma FlattenTwo(tree: Tree, a: Name, b: Name)
    ensures FlattenAll(tree, [a, b]) == FlattenOne(FlattenOne(tree, a), b)
  {
    assert Init([a, b]) == [a] && Init([a]) == [];
    assert FlattenAll(tree, [a]) == FlattenOne(tree, a);
  }

  lemma SortedOne(b: Name)
    ensures Sorted({b}) == [b]
  {
    var rest := {b} - {Least({b})};
    assert rest == {};
    assert Sorted(rest) == [];
  }

  lemma TwoNames(a: Name, b: Name)
    requires Before(a, b)
    ensures Sorted({a, b}) == [a, b]
  {
    LexRefl(a);
    LeastUnique({a, b});
    assert IsLeast(a, {a, b});
    assert {a, b} - {a} == {b};
    SortedOne(b);
  }

  /** Opening a makes b a module, which then is not opened: what is in b is in no module, however often the
      modules are discovered. */
  lemma ClashHidesFiles(tree: Tree, a: Name, b: Name)
    requires TwoDeep(tree, a, b)
    ensures var z := Flattened(tree);
            Modules(z) == {b} && z[b] == Dir(tree[a].nested[b], tree[b].nested) && Flattened(z) == z
  {
    OpenFirst(tree, a, b);
    TwoNames(a, b);
    FlattenTwo(tree, a, b);
    assert b in Nested(tree[a]);
    FlattenedTwice(tree);
  }

  lemma TwoDeepExists(a: Name, b: Name, c: Name, f: File, g: File)
    requires Before(a, b) && Visible(a) && Visible(b) && Visible(c)
    ensures TwoDeep(map[a := Dir([], map[b := [f]]), b := Dir([], map[c := [g]])], a, b)
  {
    var tree: Tree := map[a := Dir([], map[b := [f]]), b := Dir([], map[c := [g]])];
    assert c in Nested(tree[b]);
  }
}
