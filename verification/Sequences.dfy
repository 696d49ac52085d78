/** Small facts about sequences and sets used across the modules. */
module Sequences {

  ghost function Elems<T>(xs: seq<T>): set<T> {
    set x | x in xs
  }

  lemma ElemsConcat<T>(xs: seq<T>, ys: seq<T>)
    ensures Elems(xs + ys) == Elems(xs) + Elems(ys)
  {}

  lemma ConcatAssoc<T>(a: seq<T>, b: seq<T>, c: seq<T>)
    ensures a + (b + c) == a + b + c
  {}

  lemma CutAt<T>(s: seq<T>, i: nat)
    requires i < |s|
    ensures s == s[..i] + [s[i]] + s[i + 1..]
  {}

  function Last<T>(s: seq<T>): T
    requires s != []
  {
    s[|s| - 1]
  }

  function Init<T>(s: seq<T>): seq<T>
    requires s != []
  {
    s[..|s| - 1]
  }

  lemma InitLast<T>(s: seq<T>)
    requires s != []
    ensures s == Init(s) + [Last(s)]
  {}

  lemma PrefixSnoc<T>(s: seq<T>, i: nat)
    requires i < |s|
    ensures s[..i + 1] == s[..i] + [s[i]]
  {}

  lemma BagSnoc<T>(s: seq<T>, x: T)
    ensures multiset(s + [x]) == multiset(s) + multiset{x}
  {}

  lemma SubsetSize<T>(a: set<T>, b: set<T>)
    requires a <= b
    ensures |a| <= |b|
  {
    assert b == a + (b - a);
  }

  /** One step of a loop that takes the members of a set in any order. */
  lemma MoveOne<T>(done: set<T>, todo: set<T>, all: set<T>, x: T)
    requires done + todo == all && done !! todo && x in todo
    ensures done + {x} + (todo - {x}) == all && done + {x} !! todo - {x}
  {
  }

  /** The numbers below n with a property. */
  ghost function Below(p: nat -> bool, n: nat): set<nat> {
    set i: nat | i < n && p(i)
  }

  lemma BelowGrows(p: nat -> bool, n: nat)
    ensures |Below(p, n + 1)| == |Below(p, n)| + (if p(n) then 1 else 0)
  {
    if p(n) {
      assert Below(p, n + 1) == Below(p, n) + {n};
    } else {
      assert Below(p, n + 1) == Below(p, n);
    }
  }

  lemma OneIndexMore(before: set<nat>, after: set<nat>, i: nat, added: bool)
    requires i !in before && forall j: nat :: j in after <==> j in before || (added && j == i)
    ensures |after| == |before| + if added then 1 else 0
  {
    assert after == if added then before + {i} else before;
  }
}
