/** Python's ordering of strings (lexicographic by code point) and sorted(set). */
module Ordering {
  import opened Sequences

  predicate LexLe(a: string, b: string) {
    a == [] || (b != [] && (a[0] < b[0] || (a[0] == b[0] && LexLe(a[1..], b[1..]))))
  }

  lemma LexRefl(a: string)
    ensures LexLe(a, a)
  {}

  lemma LexTotal(a: string, b: string)
    ensures LexLe(a, b) || LexLe(b, a)
  {}

  lemma {:induction false} LexAntisymmetric(a: string, b: string)
    requires LexLe(a, b) && LexLe(b, a)
    ensures a == b
  {
    if a != [] && b != [] {
      LexAntisymmetric(a[1..], b[1..]);
      assert a == [a[0]] + a[1..] && b == [b[0]] + b[1..];
    }
  }

  lemma {:induction false} LexTransitive(a: string, b: string, c: string)
    requires LexLe(a, b) && LexLe(b, c)
    ensures LexLe(a, c)
  {
    if a != [] && a[0] == b[0] && b[0] == c[0] {
      LexTransitive(a[1..], b[1..], c[1..]);
    }
  }

  predicate IsLeast(m: string, s: set<string>) {
    m in s && forall x | x in s :: LexLe(m, x)
  }

  lemma LeastExists(s: set<string>)
    requires s != {}
    ensures exists m :: IsLeast(m, s)
  {
    var x :| x in s;
    if s == {x} {
      LexRefl(x);
      assert IsLeast(x, s);
    } else {
      var rest := s - {x};
      LeastExists(rest);
      var m :| IsLeast(m, rest);
      LexTotal(x, m);
      if LexLe(m, x) {
        assert IsLeast(m, s);
      } else {
        forall y | y in s ensures LexLe(x, y) {
          if y == x { LexRefl(x); } else { LexTransitive(x, m, y); }
        }
        assert IsLeast(x, s);
      }
    }
  }

  lemma LeastUnique(s: set<string>)
    ensures forall m, n | IsLeast(m, s) && IsLeast(n, s) :: m == n
  {
    forall m, n | IsLeast(m, s) && IsLeast(n, s) ensures m == n {
      LexAntisymmetric(m, n);
    }
  }

  function Least(s: set<string>): (m: string)
    requires s != {}
    ensures IsLeast(m, s)
  {
    LeastExists(s);
    LeastUnique(s);
    var m :| IsLeast(m, s);
    m
  }

  ghost predicate StrictlySorted(xs: seq<string>) {
    forall i, j :: 0 <= i < j < |xs| ==> LexLe(xs[i], xs[j]) && xs[i] != xs[j]
  }

  lemma SortedCons(m: string, rest: seq<string>)
    requires StrictlySorted(rest)
    requires forall x | x in rest :: LexLe(m, x) && m != x
    ensures StrictlySorted([m] + rest)
  {
  }

  /** sorted(s): the members in increasing order, each once. */
  function Sorted(s: set<string>): (r: seq<string>)
    ensures Elems(r) == s
    ensures StrictlySorted(r)
    decreases |s|
  {
    if s == {} then []
    else
      var m := Least(s);
      assert |s - {m}| < |s|;
      var rest := Sorted(s - {m});
      assert forall x | x in rest :: x in Elems(rest);
      ElemsConcat([m], rest);
      SortedCons(m, rest);
      [m] + rest
  }

  /** The distinct entries of a list, as Python's set(xs). */
  function SetOf(xs: seq<string>): (r: set<string>)
    ensures r == Elems(xs)
  {
    set x | x in xs
  }

  lemma PrefixElems(xs: seq<string>, i: nat)
    requires i < |xs| && StrictlySorted(xs)
    ensures xs[i] in Elems(xs) && xs[i] !in Elems(xs[..i])
    ensures Elems(xs[..i + 1]) == Elems(xs[..i]) + {xs[i]}
    ensures Elems(xs[..i]) <= Elems(xs)
  {
  }

  /** One step of a loop over sorted(s): the next entry is a member not met before. */
  lemma PrefixStep(s: set<string>, i: nat)
    requires i < |Sorted(s)|
    ensures Sorted(s)[i] in s && Sorted(s)[i] !in Elems(Sorted(s)[..i])
    ensures Elems(Sorted(s)[..i + 1]) == Elems(Sorted(s)[..i]) + {Sorted(s)[i]}
    ensures Elems(Sorted(s)[..i]) <= s
  {
    PrefixElems(Sorted(s), i);
  }

  lemma PrefixAll(s: set<string>)
    ensures Elems(Sorted(s)[..|Sorted(s)|]) == s
    ensures Elems(Sorted(s)[..0]) == {}
  {
  }
}
