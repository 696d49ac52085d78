/** app/metrics.py and app/metrics_summary.py: labels as they are printed on a metric line, and as the label
    pattern and the unescaping read them back. */
module Labels {
  import opened Results
  import opened Sequences

  datatype Pair = Pair(key: string, value: string)

  // ---------- str.replace ----------

  /** s.replace(c, image) for a single character c. */
  function ReplaceChar(s: string, c: char, image: string): string {
    if s == [] then []
    else if s[0] == c then image + ReplaceChar(s[1..], c, image)
    else [s[0]] + ReplaceChar(s[1..], c, image)
  }

  /** s.replace(a + b, image) for a pattern of two characters, left to right and without overlap. */
  function ReplacePair(s: string, a: char, b: char, image: char): string {
    if s == [] then []
    else if |s| > 1 && s[0] == a && s[1] == b then [image] + ReplacePair(s[2..], a, b, image)
    else [s[0]] + ReplacePair(s[1..], a, b, image)
  }

  // ---------- printing ----------

  /** The three replacements of _labels. */
  function Escape(value: string): string {
    ReplaceChar(ReplaceChar(ReplaceChar(value, '\\', "\\\\"), '\n', "\\n"), '"', "\\\"")
  }

  /** ",".join(parts). */
  function JoinParts(parts: seq<string>): string {
    if parts == [] then []
    else if |parts| == 1 then parts[0]
    else parts[0] + ([','] + JoinParts(parts[1..]))
  }

  function Part(p: Pair): string {
    p.key + ("=\"" + (Escape(p.value) + "\""))
  }

  function Parts(labels: seq<Pair>): seq<string> {
    seq(|labels|, i requires 0 <= i < |labels| => Part(labels[i]))
  }

  /** _labels. */
  method PrintLabels(labels: seq<Pair>) returns (text: string)
    ensures text == Printed(labels)
  {
    var parts := [];
    for i := 0 to |labels|
      invariant |parts| == i && forall j | 0 <= j < i :: parts[j] == Part(labels[j])
    {
      parts := parts + [Part(labels[i])];
    }
    text := if parts != [] then "{" + (JoinParts(parts) + "}") else "";
    assert parts == Parts(labels);
  }

  function Printed(labels: seq<Pair>): string {
    if labels == [] then "" else "{" + (JoinParts(Parts(labels)) + "}")
  }

  // ---------- the label pattern ----------

  predicate IdentStart(c: char) {
    'a' <= c <= 'z' || 'A' <= c <= 'Z' || c == '_'
  }

  predicate IdentChar(c: char) {
    IdentStart(c) || '0' <= c <= '9'
  }

  /** [a-zA-Z_][a-zA-Z0-9_]*. */
  predicate IsKey(k: string) {
    k != [] && IdentStart(k[0]) && forall c | c in k :: IdentChar(c)
  }

  /** The longest run of identifier characters at the start. */
  function IdentLength(s: string): (n: nat)
    ensures n <= |s|
  {
    if s != [] && IdentChar(s[0]) then 1 + IdentLength(s[1..]) else 0
  }

  /** (?:\\.|[^"\\])* up to a closing quote: the length of the value, if it is closed. The dot does not match a
      newline. */
  function ValueLength(s: string): (n: Option<nat>)
    ensures n.Some? ==> n.value < |s|
  {
    if s == [] then None
    else if s[0] == '"' then Some(0)
    else if s[0] != '\\' then Plus(1, ValueLength(s[1..]))
    else if |s| > 1 && s[1] != '\n' then Plus(2, ValueLength(s[2..]))
    else None
  }

  function Plus(k: nat, n: Option<nat>): Option<nat> {
    match n
    case None => None
    case Some(m) => Some(k + m)
  }

  datatype Match = Match(pair: Pair, rest: string)

  /** A match of the label pattern at the start of s, and what follows it. */
  function MatchLabel(s: string): (m: Option<Match>)
    ensures m.Some? ==> |m.value.rest| < |s|
  {
    if s == [] || !IdentStart(s[0]) then None
    else
      var n := IdentLength(s);
      if !("=\"" <= s[n..]) then None
      else
        var after := s[n + 2..];
        match ValueLength(after)
        case None => None
        case Some(m) => Some(Match(Pair(s[..n], after[..m]), after[m + 1..]))
  }

  /** findall: leftmost matches without overlap. */
  function FindAll(s: string): seq<Pair>
    decreases |s|
  {
    if s == [] then []
    else match MatchLabel(s)
      case None => FindAll(s[1..])
      case Some(m) => [m.pair] + FindAll(m.rest)
  }

  /** _unescape. */
  function Unescape(value: string): string {
    ReplacePair(ReplacePair(ReplacePair(value, '\\', '\\', '\\'), '\\', '"', '"'), '\\', 'n', '\n')
  }

  function ParseLabels(text: string): seq<Pair> {
    var found := FindAll(text);
    seq(|found|, i requires 0 <= i < |found| => Pair(found[i].key, Unescape(found[i].value)))
  }

  // ---------- a value, character by character ----------

  /** How many replacements have been undone: none, the backslashes, the backslashes and the quotes. */
  function Token(c: char, undone: nat): string {
    if c == '\\' then (if undone == 0 then "\\\\" else "\\")
    else if c == '"' then (if undone <= 1 then "\\\"" else "\"")
    else if c == '\n' then "\\n"
    else [c]
  }

  function Tokens(value: string, undone: nat): string {
    if value == [] then [] else Token(value[0], undone) + Tokens(value[1..], undone)
  }

  lemma {:induction false} ReplaceCharConcat(s: string, t: string, c: char, image: string)
    ensures ReplaceChar(s + t, c, image) == ReplaceChar(s, c, image) + ReplaceChar(t, c, image)
  {
    if s == [] {
      assert s + t == t;
    } else {
      assert s + t == [s[0]] + (s[1..] + t);
      assert (s + t)[1..] == s[1..] + t;
      ReplaceCharConcat(s[1..], t, c, image);
      ConcatAssoc(if s[0] == c then image else [s[0]], ReplaceChar(s[1..], c, image), ReplaceChar(t, c, image));
    }
  }

  lemma {:induction false} EscapeConcat(s: string, t: string)
    ensures Escape(s + t) == Escape(s) + Escape(t)
  {
    ReplaceCharConcat(s, t, '\\', "\\\\");
    var s1, t1 := ReplaceChar(s, '\\', "\\\\"), ReplaceChar(t, '\\', "\\\\");
    ReplaceCharConcat(s1, t1, '\n', "\\n");
    ReplaceCharConcat(ReplaceChar(s1, '\n', "\\n"), ReplaceChar(t1, '\n', "\\n"), '"', "\\\"");
  }

  lemma EscapeChar(c: char)
    ensures Escape([c]) == Token(c, 0)
  {
    ReplaceOne(c, '\\', "\\\\");
    if c == '\\' {
      assert ReplaceChar("\\\\", '\n', "\\n") == "\\\\" by { ReplaceNone("\\\\", '\n', "\\n"); }
      ReplaceNone("\\\\", '"', "\\\"");
    } else {
      ReplaceOne(c, '\n', "\\n");
      if c == '\n' { ReplaceNone("\\n", '"', "\\\""); } else { ReplaceOne(c, '"', "\\\""); }
    }
  }

  lemma ReplaceOne(c: char, d: char, image: string)
    ensures ReplaceChar([c], d, image) == if c == d then image else [c]
  {
  }

  lemma {:induction false} ReplaceNone(s: string, d: char, image: string)
    requires d !in s
    ensures ReplaceChar(s, d, image) == s
  {
    if s != [] {
      ReplaceNone(s[1..], d, image);
      assert s == [s[0]] + s[1..];
    }
  }

  lemma {:induction false} EscapeTokens(value: string)
    ensures Escape(value) == Tokens(value, 0)
  {
    if value != [] {
      assert value == [value[0]] + value[1..];
      EscapeConcat([value[0]], value[1..]);
      EscapeChar(value[0]);
      EscapeTokens(value[1..]);
    }
  }

  lemma PairMatch(s: string, a: char, b: char, image: char)
    ensures ReplacePair([a, b] + s, a, b, image) == [image] + ReplacePair(s, a, b, image)
  {
  }

  lemma PairSkip(c: char, s: string, a: char, b: char, image: char)
    requires c != a || s == [] || s[0] != b
    ensures ReplacePair([c] + s, a, b, image) == [c] + ReplacePair(s, a, b, image)
  {
  }

  lemma Two(a: char, b: char, s: string)
    ensures [a, b] + s == [a] + ([b] + s)
  {
  }

  lemma {:induction false} UndoBackslashes(value: string)
    ensures ReplacePair(Tokens(value, 0), '\\', '\\', '\\') == Tokens(value, 1)
  {
    if value != [] {
      var c, t := value[0], Tokens(value[1..], 0);
      UndoBackslashes(value[1..]);
      if c == '\\' {
        PairMatch(t, '\\', '\\', '\\');
      } else if c == '\n' || c == '"' {
        var d := if c == '\n' then 'n' else '"';
        Two('\\', d, t);
        PairSkip('\\', [d] + t, '\\', '\\', '\\');
        PairSkip(d, t, '\\', '\\', '\\');
        Two('\\', d, Tokens(value[1..], 1));
      } else {
        PairSkip(c, t, '\\', '\\', '\\');
      }
    }
  }

  lemma NoQuoteFirst(value: string)
    ensures Tokens(value, 1) == [] || Tokens(value, 1)[0] != '"'
  {
  }

  lemma {:induction false} UndoQuotes(value: string)
    ensures ReplacePair(Tokens(value, 1), '\\', '"', '"') == Tokens(value, 2)
  {
    if value != [] {
      var c, t := value[0], Tokens(value[1..], 1);
      UndoQuotes(value[1..]);
      if c == '"' {
        PairMatch(t, '\\', '"', '"');
      } else if c == '\n' {
        Two('\\', 'n', t);
        PairSkip('\\', ['n'] + t, '\\', '"', '"');
        PairSkip('n', t, '\\', '"', '"');
        Two('\\', 'n', Tokens(value[1..], 2));
      } else {
        NoQuoteFirst(value[1..]);
        PairSkip(c, t, '\\', '"', '"');
      }
    }
  }

  lemma FirstToken(value: string)
    ensures Tokens(value, 2) == [] <==> value == []
    ensures value != [] ==> (Tokens(value, 2)[0] == 'n' <==> value[0] == 'n')
  {
  }

  lemma {:induction false} UndoNewlines(value: string)
    ensures ReplacePair(Tokens(value, 2), '\\', 'n', '\n') == ReplacePair(value, '\\', 'n', '\n')
    decreases |value|
  {
    if value != [] {
      var c, rest := value[0], value[1..];
      var t := Tokens(rest, 2);
      assert value == [c] + rest;
      FirstToken(rest);
      UndoNewlines(rest);
      if c == '\n' {
        PairMatch(t, '\\', 'n', '\n');
        PairSkip(c, rest, '\\', 'n', '\n');
      } else if c == '\\' && rest != [] && rest[0] == 'n' {
        var after := rest[1..];
        assert rest == ['n'] + after;
        UndoNewlines(after);
        Two(c, 'n', Tokens(after, 2));
        Two(c, 'n', after);
        PairMatch(Tokens(after, 2), '\\', 'n', '\n');
        PairMatch(after, '\\', 'n', '\n');
      } else {
        PairSkip(c, t, '\\', 'n', '\n');
        PairSkip(c, rest, '\\', 'n', '\n');
      }
    }
  }

  /** What a printed value is read back as: every backslash followed by an n has become a newline. */
  lemma UnescapeOfEscape(value: string)
    ensures Unescape(Escape(value)) == ReplacePair(value, '\\', 'n', '\n')
  {
    EscapeTokens(value);
    UndoBackslashes(value);
    UndoQuotes(value);
    UndoNewlines(value);
  }

  predicate BackslashN(value: string) {
    exists i | 0 <= i < |value| :: BackslashNAt(value, i)
  }

  predicate BackslashNAt(value: string, i: nat)
    requires i < |value|
  {
    i + 1 < |value| && value[i] == '\\' && value[i + 1] == 'n'
  }

  lemma {:induction false} ReplacePairShrinks(s: string, a: char, b: char, image: char)
    ensures |ReplacePair(s, a, b, image)| <= |s|
    decreases |s|
  {
    if s != [] {
      ReplacePairShrinks(s[1..], a, b, image);
      if |s| > 1 { ReplacePairShrinks(s[2..], a, b, image); }
    }
  }

  lemma {:induction false} UnchangedIff(value: string)
    ensures ReplacePair(value, '\\', 'n', '\n') == value <==> !BackslashN(value)
    decreases |value|
  {
    if value != [] {
      var c, rest := value[0], value[1..];
      assert value == [c] + rest;
      if BackslashNAt(value, 0) {
        ReplacePairShrinks(value[2..], '\\', 'n', '\n');
        assert BackslashN(value);
      } else {
        UnchangedIff(rest);
        BackslashNLater(value);
        assert ([c] + rest)[1..] == rest;
      }
    }
  }

  lemma BackslashNLater(value: string)
    requires value != [] && !BackslashNAt(value, 0)
    ensures BackslashN(value) <==> BackslashN(value[1..])
  {
    var rest := value[1..];
    if BackslashN(value) {
      var i :| 0 <= i < |value| && BackslashNAt(value, i);
      assert BackslashNAt(rest, i - 1);
    }
    if BackslashN(rest) {
      var i :| 0 <= i < |rest| && BackslashNAt(rest, i);
      assert BackslashNAt(value, i + 1);
    }
  }

  /** A label value survives printing and parsing exactly when it has no backslash directly before an n. */
  lemma ValueRoundTripIff(value: string)
    ensures Unescape(Escape(value)) == value <==> !BackslashN(value)
  {
    UnescapeOfEscape(value);
    UnchangedIff(value);
  }

  /** The shortest value that does not survive: a backslash and an n come back as one newline. */
  lemma BackslashNIsLost()
    ensures Unescape(Escape(['\\', 'n'])) == ['\n']
  {
    UnescapeOfEscape(['\\', 'n']);
    PairMatch([], '\\', 'n', '\n');
    assert ['\\', 'n'] + [] == ['\\', 'n'];
  }

  // ---------- the labels of a line ----------

  lemma {:induction false} KeyLength(k: string, t: string)
    requires (forall c | c in k :: IdentChar(c)) && (t == [] || !IdentChar(t[0]))
    ensures IdentLength(k + t) == |k|
  {
    if k == [] {
      assert k + t == t;
    } else {
      assert (k + t)[1..] == k[1..] + t;
      KeyLength(k[1..], t);
    }
  }

  lemma PlainStep(c: char, s: string)
    requires c != '"' && c != '\\'
    ensures ValueLength([c] + s) == Plus(1, ValueLength(s))
  {
  }

  lemma EscapedStep(c: char, s: string)
    requires c != '\n'
    ensures ValueLength(['\\', c] + s) == Plus(2, ValueLength(s))
  {
  }

  /** A printed value contains no quote that closes it early. */
  lemma {:induction false} ClosingQuote(value: string, tail: string)
    ensures ValueLength(Tokens(value, 0) + ("\"" + tail)) == Some(|Tokens(value, 0)|)
  {
    var t := "\"" + tail;
    if value == [] {
      assert Tokens(value, 0) + t == t;
    } else {
      var c, rest := value[0], value[1..];
      ClosingQuote(rest, tail);
      ConcatAssoc(Token(c, 0), Tokens(rest, 0), t);
      if c == '\\' || c == '"' || c == '\n' {
        EscapedStep(Token(c, 0)[1], Tokens(rest, 0) + t);
      } else {
        PlainStep(c, Tokens(rest, 0) + t);
      }
    }
  }

  function Raw(p: Pair): Pair {
    p.(value := Escape(p.value))
  }

  lemma CutAfter(a: string, b: string)
    ensures (a + b)[..|a|] == a && (a + b)[|a|..] == b
  {
  }

  /** The label pattern matches a printed label exactly. */
  lemma MatchesPart(p: Pair, tail: string)
    requires IsKey(p.key)
    ensures MatchLabel(Part(p) + tail) == Some(Match(Raw(p), tail))
  {
    var v := Escape(p.value);
    var after := v + ("\"" + tail);
    var t := "=\"" + after;
    PartSplits(p, tail);
    KeyLength(p.key, t);
    CutAfter(p.key, t);
    CutAfter("=\"", after);
    assert (p.key + t)[|p.key| + 2..] == t[2..];
    EscapeTokens(p.value);
    ClosingQuote(p.value, tail);
    CutAfter(v, "\"" + tail);
    assert after[|v| + 1..] == ("\"" + tail)[1..] == tail;
  }

  lemma PartSplits(p: Pair, tail: string)
    ensures Part(p) + tail == p.key + ("=\"" + (Escape(p.value) + ("\"" + tail)))
  {
  }

  function Raws(labels: seq<Pair>): seq<Pair> {
    if labels == [] then [] else [Raw(labels[0])] + Raws(labels[1..])
  }

  lemma SkipChar(c: char, s: string)
    requires !IdentStart(c)
    ensures FindAll([c] + s) == FindAll(s)
  {
  }

  lemma {:induction false} FindsJoined(labels: seq<Pair>)
    requires labels != [] && forall p | p in labels :: IsKey(p.key)
    ensures FindAll(JoinParts(Parts(labels)) + "}") == Raws(labels)
  {
    var p, rest := labels[0], labels[1..];
    assert Parts(labels)[0] == Part(p) && Parts(labels)[1..] == Parts(rest);
    var tail := if rest == [] then "}" else [','] + (JoinParts(Parts(rest)) + "}");
    if rest == [] {
      SkipChar('}', []);
      assert ['}'] + [] == "}";
    } else {
      FindsJoined(rest);
      SkipChar(',', JoinParts(Parts(rest)) + "}");
      ConcatAssoc([','], JoinParts(Parts(rest)), "}");
      ConcatAssoc(Part(p), [','] + JoinParts(Parts(rest)), "}");
    }
    MatchesPart(p, tail);
    FindsFirst(p, tail);
  }

  lemma FindsFirst(p: Pair, tail: string)
    requires MatchLabel(Part(p) + tail) == Some(Match(Raw(p), tail))
    ensures FindAll(Part(p) + tail) == [Raw(p)] + FindAll(tail)
  {
  }

  lemma {:induction false} RawAt(labels: seq<Pair>, i: nat)
    requires i < |labels|
    ensures |Raws(labels)| == |labels| && Raws(labels)[i] == Raw(labels[i])
  {
    if |labels| > 1 { RawAt(labels[1..], if i == 0 then 0 else i - 1); }
  }

  /** Every label comes back, in order, with its value or what UnescapeOfEscape says of it; commas, braces,
      quotes and newlines in values make no difference. */
  lemma ParseOfPrint(labels: seq<Pair>)
    requires forall p | p in labels :: IsKey(p.key)
    ensures |ParseLabels(Printed(labels))| == |labels|
    ensures forall i | 0 <= i < |labels| ::
              ParseLabels(Printed(labels))[i] == Pair(labels[i].key, ReplacePair(labels[i].value, '\\', 'n', '\n'))
  {
    if labels != [] {
      FindsJoined(labels);
      SkipChar('{', JoinParts(Parts(labels)) + "}");
      RawAt(labels, 0);
      forall i | 0 <= i < |labels|
        ensures ParseLabels(Printed(labels))[i] == Pair(labels[i].key, ReplacePair(labels[i].value, '\\', 'n', '\n'))
      {
        RawAt(labels, i);
        UnescapeOfEscape(labels[i].value);
      }
    }
  }

  /** The round trip is exact if and only if no value has a backslash directly before an n. */
  lemma LabelsRoundTripIff(labels: seq<Pair>)
    requires forall p | p in labels :: IsKey(p.key)
    ensures ParseLabels(Printed(labels)) == labels <==> forall p | p in labels :: !BackslashN(p.value)
  {
    ParseOfPrint(labels);
    forall i | 0 <= i < |labels|
      ensures ParseLabels(Printed(labels))[i] == labels[i] <==> !BackslashN(labels[i].value)
    {
      UnchangedIff(labels[i].value);
    }
  }
}
