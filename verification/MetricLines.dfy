/** app/metrics.py and app/metrics_summary.py: a sample printed as one line of the metrics text, and the text
    read back line by line. */
module MetricLines {
  import opened Results
  import opened Sequences
  import opened Text
  import opened Labels

  /** A sample, its value as text; the conversion of the value to a float is a parameter of the reader. */
  datatype Sample = Sample(name: string, labels: seq<Pair>, value: string)

  /** What the reader takes as given: the digits of the pattern's \d and the texts that float() accepts. */
  datatype Syntax = Syntax(digit: char -> bool, number: string -> bool)

  // ---------- printing ----------

  function PrintLine(r: Sample): string {
    r.name + (Printed(r.labels) + ([' '] + r.value))
  }

  /** "\n".join(lines) + "\n". */
  function Document(rows: seq<Sample>): string {
    if rows == [] then [] else PrintLine(rows[0]) + (['\n'] + Document(rows[1..]))
  }

  // ---------- str.splitlines ----------

  /** The characters at which str.splitlines breaks. */
  predicate Break(c: char) {
    var n := c as int;
    10 <= n <= 13 || 28 <= n <= 30 || n == 0x85 || n == 0x2028 || n == 0x2029
  }

  predicate NotBreak(c: char) {
    !Break(c)
  }

  /** The length of the longest run of characters with a property. */
  function RunLength(s: string, p: char -> bool): (n: nat)
    ensures n <= |s|
  {
    if s != [] && p(s[0]) then 1 + RunLength(s[1..], p) else 0
  }

  /** What follows the break at position i; a carriage return and a newline are one break. */
  function AfterBreak(s: string, i: nat): string
    requires i < |s|
  {
    if s[i] == '\r' && i + 1 < |s| && s[i + 1] == '\n' then s[i + 2..] else s[i + 1..]
  }

  function SplitLines(s: string): seq<string>
    decreases |s|
  {
    if s == [] then []
    else
      var i := RunLength(s, NotBreak);
      if i == |s| then [s] else [s[..i]] + SplitLines(AfterBreak(s, i))
  }

  // ---------- the line pattern ----------

  predicate NameStart(c: char) {
    IdentStart(c) || c == ':'
  }

  predicate NameChar(c: char) {
    IdentChar(c) || c == ':'
  }

  predicate IsName(name: string) {
    name != [] && NameStart(name[0]) && forall c | c in name :: NameChar(c)
  }

  predicate NotSpace(c: char) {
    !IsSpace(c)
  }

  /** \s+([^\s]+)(?:\s+\d+)?$: the value, if what follows the labels matches. */
  function Tail(syntax: Syntax, s: string): Option<string> {
    var a := RunLength(s, IsSpace);
    var b := RunLength(s[a..], NotSpace);
    var rest := s[a + b..];
    var c := RunLength(rest, IsSpace);
    var d := RunLength(rest[c..], syntax.digit);
    if a == 0 || b == 0 then None
    else if rest == [] || (c > 0 && d > 0 && c + d == |rest|) then Some(s[a..a + b])
    else None
  }

  /** The last closing brace among the first n characters after which the rest matches; the dot matches
      everything in a line. */
  function CloseBrace(tail: string -> Option<string>, s: string, n: nat): (p: Option<nat>)
    requires n <= |s|
    ensures p.Some? ==> p.value < n && tail(s[p.value + 1..]).Some?
  {
    if n == 0 then None
    else if s[n - 1] == '}' && tail(s[n..]).Some? then Some(n - 1)
    else CloseBrace(tail, s, n - 1)
  }

  /** What follows the name: labels in braces, or none, and the value. */
  function LabelsAndValue(tail: string -> Option<string>, s: string): Option<(string, string)> {
    if s != [] && s[0] == '{' then
      match CloseBrace(tail, s, |s|)
      case None => None
      case Some(p) => Some((s[..p + 1], tail(s[p + 1..]).value))
    else
      match tail(s)
      case None => None
      case Some(value) => Some(([], value))
  }

  /** A stripped line: comments, lines that do not match and values that are no numbers give no row. */
  function RowOfLine(tail: string -> Option<string>, number: string -> bool, line: string): Option<Sample> {
    if line == [] || line[0] == '#' || !NameStart(line[0]) then None
    else
      var n := RunLength(line, NameChar);
      match LabelsAndValue(tail, line[n..])
      case None => None
      case Some((labels, value)) =>
        if number(value) then Some(Sample(line[..n], ParseLabels(labels), value)) else None
  }

  /** The body of the loop. */
  function RowOf(syntax: Syntax, rawLine: string): Option<Sample> {
    RowOfLine(rest => Tail(syntax, rest), syntax.number, Strip(rawLine, IsSpace))
  }

  function Listed(row: Option<Sample>): seq<Sample> {
    if row.Some? then [row.value] else []
  }

  function RowsOf(rowOf: string -> Option<Sample>, lines: seq<string>): seq<Sample> {
    if lines == [] then [] else RowsOf(rowOf, Init(lines)) + Listed(rowOf(Last(lines)))
  }

  function Reader(syntax: Syntax): string -> Option<Sample> {
    line => RowOf(syntax, line)
  }

  function Rows(syntax: Syntax, text: string): seq<Sample> {
    RowsOf(Reader(syntax), SplitLines(text))
  }

  /** parse_prometheus_metrics. */
  method ParseMetrics(syntax: Syntax, text: string) returns (rows: seq<Sample>)
    ensures rows == Rows(syntax, text)
  {
    var lines := SplitLines(text);
    rows := [];
    for i := 0 to |lines|
      invariant rows == RowsOf(Reader(syntax), lines[..i])
    {
      assert Init(lines[..i + 1]) == lines[..i] && Last(lines[..i + 1]) == lines[i];
      var row := RowOf(syntax, lines[i]);
      if row.Some? {
        rows := rows + [row.value];
      }
    }
    assert lines[..|lines|] == lines;
  }

  // ---------- what can come back at all ----------

  ghost predicate NoBreak(s: string) {
    forall c | c in s :: NotBreak(c)
  }

  /** No line break but the newline, which the printer escapes. */
  ghost predicate Unbroken(s: string) {
    forall c | c in s :: Break(c) ==> c == '\n'
  }

  /** A label value that survives: no other line break, and no backslash directly before an n. */
  ghost predicate Survives(value: string) {
    Unbroken(value) && !BackslashN(value)
  }

  ghost predicate Fit(r: Sample) {
    forall p | p in r.labels :: Survives(p.value)
  }

  lemma {:induction false} RunHas(s: string, p: char -> bool)
    ensures forall c | c in s[..RunLength(s, p)] :: p(c)
  {
    if s != [] && p(s[0]) {
      RunHas(s[1..], p);
      assert s[..RunLength(s, p)] == [s[0]] + s[1..][..RunLength(s[1..], p)];
    }
  }

  lemma {:induction false} LinesHaveNoBreak(s: string)
    ensures forall line | line in SplitLines(s) :: NoBreak(line)
    decreases |s|
  {
    if s != [] {
      var i := RunLength(s, NotBreak);
      RunHas(s, NotBreak);
      if i < |s| { LinesHaveNoBreak(AfterBreak(s, i)); }
    }
  }

  lemma {:induction false} StripLeftPart(s: string, drop: char -> bool)
    ensures forall c | c in StripLeft(s, drop) :: c in s
  {
    if s != [] && drop(s[0]) { StripLeftPart(s[1..], drop); }
  }

  lemma {:induction false} StripRightPart(s: string, drop: char -> bool)
    ensures forall c | c in StripRight(s, drop) :: c in s
  {
    if s != [] && drop(s[|s| - 1]) { StripRightPart(s[..|s| - 1], drop); }
  }

  lemma {:induction false} FoundInText(s: string, p: Pair)
    requires NoBreak(s) && p in FindAll(s)
    ensures NoBreak(p.value)
    decreases |s|
  {
    if s != [] {
      match MatchLabel(s)
      case None => FoundInText(s[1..], p);
      case Some(m) =>
        if p != m.pair { FoundInText(m.rest, p); }
    }
  }

  lemma {:induction false} ReplacedChars(s: string, a: char, b: char, image: char, c: char)
    requires c in ReplacePair(s, a, b, image)
    ensures c in s || c == image
    decreases |s|
  {
    if s != [] {
      if |s| > 1 && s[0] == a && s[1] == b {
        if c != image { ReplacedChars(s[2..], a, b, image, c); }
      } else if c != s[0] {
        ReplacedChars(s[1..], a, b, image, c);
      }
    }
  }

  lemma {:induction false} NoPairLeft(s: string)
    ensures !BackslashN(ReplacePair(s, '\\', 'n', '\n'))
    decreases |s|
  {
    if s != [] {
      var r := ReplacePair(s, '\\', 'n', '\n');
      if |s| > 1 && s[0] == '\\' && s[1] == 'n' {
        NoPairLeft(s[2..]);
        assert r[1..] == ReplacePair(s[2..], '\\', 'n', '\n');
      } else {
        NoPairLeft(s[1..]);
        assert r[1..] == ReplacePair(s[1..], '\\', 'n', '\n');
      }
      assert !BackslashNAt(r, 0);
      BackslashNLater(r);
    }
  }

  lemma UnescapedSurvives(raw: string)
    requires NoBreak(raw)
    ensures Survives(Unescape(raw))
  {
    var once := ReplacePair(raw, '\\', '\\', '\\');
    var twice := ReplacePair(once, '\\', '"', '"');
    forall c | c in Unescape(raw) ensures Break(c) ==> c == '\n' {
      ReplacedChars(twice, '\\', 'n', '\n', c);
      if c in twice {
        ReplacedChars(once, '\\', '"', '"', c);
        if c in once { ReplacedChars(raw, '\\', '\\', '\\', c); }
      }
    }
    NoPairLeft(twice);
  }

  lemma {:induction false} LineIsFit(tail: string -> Option<string>, number: string -> bool, line: string)
    requires NoBreak(line)
    ensures RowOfLine(tail, number, line).Some? ==> Fit(RowOfLine(tail, number, line).value)
  {
    if RowOfLine(tail, number, line).Some? {
      var n := RunLength(line, NameChar);
      var (labels, value) := LabelsAndValue(tail, line[n..]).value;
      assert NoBreak(labels);
      ParsedLabelsSurvive(labels);
    }
  }

  lemma RowIsFit(syntax: Syntax, line: string)
    requires NoBreak(line)
    ensures RowOf(syntax, line).Some? ==> Fit(RowOf(syntax, line).value)
  {
    StripLeftPart(line, IsSpace);
    StripRightPart(StripLeft(line, IsSpace), IsSpace);
    LineIsFit(rest => Tail(syntax, rest), syntax.number, Strip(line, IsSpace));
  }

  lemma ParsedLabelsSurvive(labels: string)
    requires NoBreak(labels)
    ensures forall p | p in ParseLabels(labels) :: Survives(p.value)
  {
    var found := FindAll(labels);
    forall i | 0 <= i < |found| ensures Survives(ParseLabels(labels)[i].value) {
      FoundInText(labels, found[i]);
      UnescapedSurvives(found[i].value);
    }
  }

  lemma {:induction false} RowsOfAreFit(syntax: Syntax, lines: seq<string>)
    requires forall line | line in lines :: NoBreak(line)
    ensures forall r | r in RowsOf(Reader(syntax), lines) :: Fit(r)
  {
    if lines != [] {
      RowsOfAreFit(syntax, Init(lines));
      if RowOf(syntax, Last(lines)).Some? { RowIsFit(syntax, Last(lines)); }
    }
  }

  /** Whatever the text: no row that comes back has another line break in a label value, or a backslash directly
      before an n. */
  lemma RowsAreFit(syntax: Syntax, text: string)
    ensures forall r | r in Rows(syntax, text) :: Fit(r)
  {
    LinesHaveNoBreak(text);
    RowsOfAreFit(syntax, SplitLines(text));
  }

  // ---------- a printed line ----------

  /** A sample as the service prints it: a metric name, identifiers as keys, and a number as value. */
  ghost predicate WellFormed(syntax: Syntax, r: Sample) {
    && IsName(r.name)
    && (forall p | p in r.labels :: IsKey(p.key))
    && r.value != [] && syntax.number(r.value)
    && forall c | c in r.value :: NotSpace(c) && c != '}'
  }

  lemma {:induction false} TokensPlain(value: string)
    requires Unbroken(value)
    ensures NoBreak(Tokens(value, 0))
  {
    if value != [] { TokensPlain(value[1..]); }
  }

  lemma PartPlain(p: Pair)
    requires IsKey(p.key) && Unbroken(p.value)
    ensures NoBreak(Part(p))
  {
    EscapeTokens(p.value);
    TokensPlain(p.value);
  }

  lemma {:induction false} JoinPlain(parts: seq<string>)
    requires forall p | p in parts :: NoBreak(p)
    ensures NoBreak(JoinParts(parts))
  {
    if |parts| == 1 {
      assert parts[0] in parts;
    } else if |parts| > 1 {
      JoinPlain(parts[1..]);
      assert parts[0] in parts;
    }
  }

  lemma PrintedPlain(labels: seq<Pair>)
    requires forall p | p in labels :: IsKey(p.key) && Unbroken(p.value)
    ensures NoBreak(Printed(labels))
  {
    forall i | 0 <= i < |labels| ensures NoBreak(Parts(labels)[i]) { PartPlain(labels[i]); }
    JoinPlain(Parts(labels));
  }

  lemma LinePlain(syntax: Syntax, r: Sample)
    requires WellFormed(syntax, r) && Fit(r)
    ensures NoBreak(PrintLine(r))
  {
    PrintedPlain(r.labels);
  }

  lemma {:induction false} RunOf(s: string, t: string, p: char -> bool)
    requires (forall c | c in s :: p(c)) && (t == [] || !p(t[0]))
    ensures RunLength(s + t, p) == |s|
  {
    if s == [] {
      assert s + t == t;
    } else {
      assert (s + t)[1..] == s[1..] + t;
      RunOf(s[1..], t, p);
    }
  }

  lemma TailOfValue(syntax: Syntax, value: string)
    requires value != [] && forall c | c in value :: NotSpace(c)
    ensures Tail(syntax, [' '] + value) == Some(value)
  {
    var s := [' '] + value;
    assert value[0] in value;
    RunOf([' '], value, IsSpace);
    RunOf(value, [], NotSpace);
    assert value + [] == value && s[1..] == value;
    assert s[1..1 + |value|] == value && s[1 + |value|..] == [];
  }

  /** The last brace closes the labels: none follows it. */
  lemma {:induction false} LastBrace(tail: string -> Option<string>, s: string, p: nat, n: nat)
    requires p < n <= |s| && s[p] == '}' && tail(s[p + 1..]).Some?
    requires forall j | p < j < n :: s[j] != '}'
    ensures CloseBrace(tail, s, n) == Some(p)
  {
    if n - 1 > p { LastBrace(tail, s, p, n - 1); }
  }

  lemma LabelsThenValue(tail: string -> Option<string>, labels: string, rest: string)
    requires labels == [] || (labels[0] == '{' && Last(labels) == '}')
    requires tail(rest).Some? && '}' !in rest && (rest == [] || rest[0] != '{')
    ensures LabelsAndValue(tail, labels + rest) == Some((labels, tail(rest).value))
  {
    var s := labels + rest;
    CutAfter(labels, rest);
    if labels == [] {
      assert s == rest;
    } else {
      forall j | |labels| - 1 < j < |s| ensures s[j] != '}' {
        assert s[j] == rest[j - |labels|];
      }
      LastBrace(tail, s, |labels| - 1, |s|);
    }
  }

  lemma StripKeeps(s: string)
    requires s != [] && !IsSpace(s[0]) && !IsSpace(s[|s| - 1])
    ensures Strip(s, IsSpace) == s
  {
  }

  lemma LineStripped(syntax: Syntax, r: Sample)
    requires WellFormed(syntax, r)
    ensures var line := PrintLine(r);
            line != [] && NameStart(line[0]) && line[0] != '#' && Strip(line, IsSpace) == line
  {
    var line := PrintLine(r);
    assert line[0] == r.name[0] && line[|line| - 1] == Last(r.value) && Last(r.value) in r.value;
    StripKeeps(line);
  }

  lemma {:induction false} LineMatches(syntax: Syntax, r: Sample)
    requires WellFormed(syntax, r)
    ensures var line, n := PrintLine(r), |r.name|;
            && RunLength(line, NameChar) == n && line[..n] == r.name
            && LabelsAndValue(rest => Tail(syntax, rest), line[n..]) == Some((Printed(r.labels), r.value))
  {
    var rest := Printed(r.labels) + ([' '] + r.value);
    RunOf(r.name, rest, NameChar);
    CutAfter(r.name, rest);
    TailOfValue(syntax, r.value);
    LabelsThenValue(rest => Tail(syntax, rest), Printed(r.labels), [' '] + r.value);
  }

  /** A printed line is read back with its name, its value and its labels as the label pattern finds them. */
  lemma LineRow(syntax: Syntax, r: Sample)
    requires WellFormed(syntax, r)
    ensures RowOf(syntax, PrintLine(r)) == Some(r.(labels := ParseLabels(Printed(r.labels))))
  {
    LineStripped(syntax, r);
    LineMatches(syntax, r);
  }

  lemma {:induction false} FitLineRow(syntax: Syntax, r: Sample)
    requires WellFormed(syntax, r) && Fit(r)
    ensures RowOf(syntax, PrintLine(r)) == Some(r)
  {
    LineRow(syntax, r);
    LabelsRoundTripIff(r.labels);
  }

  // ---------- the whole text ----------

  lemma {:induction false} FirstLine(line: string, c: char, rest: string)
    requires NoBreak(line) && Break(c) && (c == '\r' && rest != [] ==> rest[0] != '\n')
    ensures SplitLines(line + ([c] + rest)) == [line] + SplitLines(rest)
  {
    var s := line + ([c] + rest);
    RunOf(line, [c] + rest, NotBreak);
    CutAfter(line, [c] + rest);
    assert s[|line|] == c && AfterBreak(s, |line|) == rest;
  }

  lemma {:induction false} RowsOfCons(rowOf: string -> Option<Sample>, line: string, lines: seq<string>)
    ensures RowsOf(rowOf, [line] + lines) == Listed(rowOf(line)) + RowsOf(rowOf, lines)
  {
    var all := [line] + lines;
    if lines == [] {
      assert all == [line] && Init(all) == [];
    } else {
      RowsOfCons(rowOf, line, Init(lines));
      assert Init(all) == [line] + Init(lines) && Last(all) == Last(lines);
      ConcatAssoc(Listed(rowOf(line)), RowsOf(rowOf, Init(lines)), Listed(rowOf(Last(lines))));
    }
  }

  lemma {:induction false} FitRowsComeBack(syntax: Syntax, rows: seq<Sample>)
    requires forall r | r in rows :: WellFormed(syntax, r) && Fit(r)
    ensures Rows(syntax, Document(rows)) == rows
  {
    if rows != [] {
      var r, rest := rows[0], rows[1..];
      FitRowsComeBack(syntax, rest);
      LinePlain(syntax, r);
      FirstLine(PrintLine(r), '\n', Document(rest));
      RowsOfCons(Reader(syntax), PrintLine(r), SplitLines(Document(rest)));
      FitLineRow(syntax, r);
    }
  }

  /** The whole text: what is printed comes back, row by row, if and only if no label value has a backslash
      directly before an n or a line break other than the newline. */
  lemma {:induction false} DocumentRoundTripIff(syntax: Syntax, rows: seq<Sample>)
    requires forall r | r in rows :: WellFormed(syntax, r)
    ensures Rows(syntax, Document(rows)) == rows <==> forall r | r in rows :: Fit(r)
  {
    RowsAreFit(syntax, Document(rows));
    if forall r | r in rows :: Fit(r) { FitRowsComeBack(syntax, rows); }
  }

  // ---------- a label value with carriage returns ----------

  /** A sample whose one label value is the line of another sample, without labels, between carriage returns. */
  function Wrapped(name: string, key: string, inner: Sample, value: string): Sample {
    Sample(name, [Pair(key, ['\r'] + (PrintLine(inner) + ['\r']))], value)
  }

  ghost predicate Bare(syntax: Syntax, r: Sample) {
    WellFormed(syntax, r) && r.labels == [] && '\\' !in r.value && '"' !in r.value
  }

  function Before(name: string, key: string): string {
    name + ("{" + (key + "=\""))
  }

  function After(value: string): string {
    "\"}" + ([' '] + value)
  }

  lemma EscapeKeeps(s: string)
    requires '\\' !in s && '\n' !in s && '"' !in s
    ensures Escape(s) == s
  {
    ReplaceNone(s, '\\', "\\\\");
    ReplaceNone(s, '\n', "\\n");
    ReplaceNone(s, '"', "\\\"");
  }

  lemma BareLine(syntax: Syntax, inner: Sample)
    requires Bare(syntax, inner)
    ensures var line := PrintLine(inner);
            line == inner.name + ([' '] + inner.value) && NoBreak(line) && '\\' !in line && '"' !in line
  {
    LinePlain(syntax, inner);
    assert [] + ([' '] + inner.value) == [' '] + inner.value;
  }

  lemma OneLabel(key: string, value: string)
    ensures Printed([Pair(key, value)]) == "{" + (key + ("=\"" + (Escape(value) + "\""))) + "}"
  {
    assert Parts([Pair(key, value)]) == [Part(Pair(key, value))];
  }

  lemma Around(name: string, key: string, line: string, value: string)
    ensures name + ("{" + (key + ("=\"" + (['\r'] + (line + ['\r']) + "\""))) + "}" + ([' '] + value))
         == Before(name, key) + (['\r'] + (line + (['\r'] + After(value))))
  {
  }

  lemma WrappedLine(syntax: Syntax, name: string, key: string, inner: Sample, value: string)
    requires Bare(syntax, inner)
    ensures PrintLine(Wrapped(name, key, inner, value))
         == Before(name, key) + (['\r'] + (PrintLine(inner) + (['\r'] + After(value))))
  {
    var line := PrintLine(inner);
    BareLine(syntax, inner);
    assert '\n' !in line by { assert Break('\n'); }
    EscapeKeeps(['\r'] + (line + ['\r']));
    OneLabel(key, ['\r'] + (line + ['\r']));
    Around(name, key, line, value);
  }

  lemma {:induction false} NoBrace(tail: string -> Option<string>, s: string, n: nat)
    requires n <= |s| && '}' !in s
    ensures CloseBrace(tail, s, n).None?
  {
    if n > 0 {
      assert s[n - 1] in s;
      NoBrace(tail, s, n - 1);
    }
  }

  lemma BeforePlain(name: string, key: string)
    requires IsName(name) && IsKey(key)
    ensures NoBreak(Before(name, key))
  {
    assert NoBreak(name) && NoBreak(key) && NoBreak("{") && NoBreak("=\"");
  }

  lemma {:induction false} BeforeIsNoRow(syntax: Syntax, name: string, key: string)
    requires IsName(name) && IsKey(key)
    ensures RowOf(syntax, Before(name, key)).None?
  {
    var line, rest := Before(name, key), "{" + (key + "=\"");
    assert line[0] == name[0] && line[|line| - 1] == '"';
    StripKeeps(line);
    RunOf(name, rest, NameChar);
    CutAfter(name, rest);
    NoBrace(s => Tail(syntax, s), rest, |rest|);
  }

  lemma AfterPlain(value: string)
    requires forall c | c in value :: NotSpace(c)
    ensures NoBreak(After(value))
  {
    assert NoBreak(value) && NoBreak("\"}") && NoBreak([' ']);
  }

  lemma AfterIsNoRow(syntax: Syntax, value: string)
    requires value != [] && NotSpace(Last(value))
    ensures RowOf(syntax, After(value)).None?
  {
    var line := After(value);
    assert line[0] == '"' && line[|line| - 1] == Last(value);
    StripKeeps(line);
  }

  /** A label value can be read back as a row of its own: a sample between carriage returns comes back, and the
      one that was printed does not. */
  lemma CarriageReturnsMakeARow(syntax: Syntax, name: string, key: string, inner: Sample, value: string)
    requires Bare(syntax, inner) && IsKey(key) && WellFormed(syntax, Sample(name, [], value))
    ensures Rows(syntax, Document([Wrapped(name, key, inner, value)])) == [inner]
  {
    var outer := Wrapped(name, key, inner, value);
    var a, b, c := Before(name, key), PrintLine(inner), After(value);
    WrappedLine(syntax, name, key, inner, value);
    BeforePlain(name, key);
    BeforeIsNoRow(syntax, name, key);
    BareLine(syntax, inner);
    assert Last(value) in value;
    AfterPlain(value);
    AfterIsNoRow(syntax, value);
    OneLine(outer);
    Reassociate(a, b, c);
    ThreeLines(a, b, c);
    FitLineRow(syntax, inner);
    MiddleRow(Reader(syntax), a, b, c, inner);
  }

  lemma OneLine(r: Sample)
    ensures Document([r]) == PrintLine(r) + ['\n']
  {
  }

  lemma Reassociate(a: string, b: string, c: string)
    ensures a + (['\r'] + (b + (['\r'] + c))) + ['\n'] == a + (['\r'] + (b + (['\r'] + (c + ['\n']))))
  {
  }

  lemma MiddleRow(rowOf: string -> Option<Sample>, a: string, b: string, c: string, r: Sample)
    requires rowOf(a).None? && rowOf(b) == Some(r) && rowOf(c).None?
    ensures RowsOf(rowOf, [a] + ([b] + ([c] + []))) == [r]
  {
    RowsOfCons(rowOf, a, [b] + ([c] + []));
    RowsOfCons(rowOf, b, [c] + []);
    RowsOfCons(rowOf, c, []);
    assert RowsOf(rowOf, []) == [];
  }

  lemma ThreeLines(a: string, b: string, c: string)
    requires NoBreak(a) && NoBreak(b) && NoBreak(c) && b != [] && c != []
    ensures SplitLines(a + (['\r'] + (b + (['\r'] + (c + ['\n']))))) == [a] + ([b] + ([c] + []))
  {
    var rest := c + ['\n'];
    var more := b + (['\r'] + rest);
    assert more[0] in b && rest[0] in c && Break('\n');
    FirstLine(a, '\r', more);
    FirstLine(b, '\r', rest);
    FirstLine(c, '\n', []);
    assert ['\n'] + [] == ['\n'];
  }
}
