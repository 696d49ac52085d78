/** str.strip, the white space of Python's strings, and `in` on strings. */
module Text {

  function StripLeft(s: string, drop: char -> bool): (r: string)
    ensures |r| <= |s|
  {
    if s != [] && drop(s[0]) then StripLeft(s[1..], drop) else s
  }

  function StripRight(s: string, drop: char -> bool): (r: string)
    ensures |r| <= |s|
  {
    if s != [] && drop(s[|s| - 1]) then StripRight(s[..|s| - 1], drop) else s
  }

  function Strip(s: string, drop: char -> bool): string {
    StripRight(StripLeft(s, drop), drop)
  }

  /** s is this text between characters to drop, and the text neither begins nor ends with one. */
  ghost predicate StripsTo(s: string, drop: char -> bool, k: nat, text: string) {
    && k + |text| <= |s| && s[k..k + |text|] == text
    && (forall i | 0 <= i < k :: drop(s[i])) && (forall i | k + |text| <= i < |s| :: drop(s[i]))
    && (text != [] ==> !drop(text[0]) && !drop(text[|text| - 1]))
  }

  lemma {:induction false} StripLeftIs(s: string, drop: char -> bool)
    ensures var r := StripLeft(s, drop);
            && s[|s| - |r|..] == r && (r != [] ==> !drop(r[0])) && forall i | 0 <= i < |s| - |r| :: drop(s[i])
  {
    if s != [] && drop(s[0]) { StripLeftIs(s[1..], drop); }
  }

  lemma {:induction false} StripRightIs(s: string, drop: char -> bool)
    ensures var r := StripRight(s, drop);
            && s[..|r|] == r && (r != [] ==> !drop(r[|r| - 1])) && forall i | |r| <= i < |s| :: drop(s[i])
  {
    if s != [] && drop(s[|s| - 1]) { StripRightIs(s[..|s| - 1], drop); }
  }

  lemma StripIs(s: string, drop: char -> bool) returns (k: nat)
    ensures StripsTo(s, drop, k, Strip(s, drop))
  {
    var left := StripLeft(s, drop);
    StripLeftIs(s, drop);
    StripRightIs(left, drop);
    k := |s| - |left|;
    forall i | k <= i < |s| ensures s[i] == left[i - k] { assert s[k..][i - k] == s[i]; }
  }

  /** The white space of str.strip() and of \s in a pattern. */
  predicate IsSpace(c: char) {
    var n := c as int;
    9 <= n <= 13 || 28 <= n <= 32 || n == 0x85 || n == 0xA0 || n == 0x1680 || 0x2000 <= n <= 0x200A
    || n == 0x2028 || n == 0x2029 || n == 0x202F || n == 0x205F || n == 0x3000
  }

  lemma SkipLeft(c: char, s: string, drop: char -> bool)
    requires drop(c)
    ensures StripLeft([c] + s, drop) == StripLeft(s, drop)
  {
  }

  lemma SkipRight(s: string, c: char, drop: char -> bool)
    requires drop(c)
    ensures StripRight(s + [c], drop) == StripRight(s, drop)
  {
  }

  /** f in e. */
  predicate Within(f: string, e: string) {
    exists i | 0 <= i <= |e| - |f| :: OccursAt(f, e, i)
  }

  predicate OccursAt(f: string, e: string, i: nat)
    requires i + |f| <= |e|
  {
    e[i..i + |f|] == f
  }
}
