/** app/pipeline/s1_classify.py: regenerating classify_framework.sh from its template around the
    function body that the Worker wrote. */
module ClassifyFramework {
  import opened Results
  import opened Text

  // ---------- str.find ----------

  /** s[i:i + len(pat)] == pat. */
  predicate At(s: string, pat: string, i: int) {
    0 <= i && i + |pat| <= |s| && forall m | 0 <= m < |pat| :: s[i + m] == pat[m]
  }

  ghost predicate FirstAt(s: string, pat: string, i: int) {
    At(s, pat, i) && forall j | 0 <= j < i :: !At(s, pat, j)
  }

  ghost predicate Absent(s: string, pat: string) {
    forall j :: !At(s, pat, j)
  }

  function FindFrom(s: string, pat: string, i: nat): (r: int)
    requires i <= |s|
    ensures r == -1 || (i <= r && r + |pat| <= |s|)
    decreases |s| - i
  {
    if At(s, pat, i) then i
    else if i == |s| then -1
    else FindFrom(s, pat, i + 1)
  }

  /** str.find: the first position of the pattern, or -1. */
  function Find(s: string, pat: string): (r: int)
    ensures r == -1 || (0 <= r && r + |pat| <= |s|)
  {
    FindFrom(s, pat, 0)
  }

  lemma {:induction false} FindFromSpec(s: string, pat: string, i: nat)
    requires i <= |s|
    ensures var r := FindFrom(s, pat, i);
            && (r == -1 || At(s, pat, r))
            && forall j | i <= j && (r == -1 || j < r) :: !At(s, pat, j)
    decreases |s| - i
  {
    if !At(s, pat, i) && i < |s| { FindFromSpec(s, pat, i + 1); }
  }

  lemma FindSpec(s: string, pat: string)
    ensures if Find(s, pat) == -1 then Absent(s, pat) else FirstAt(s, pat, Find(s, pat))
  {
    FindFromSpec(s, pat, 0);
  }

  lemma FindIs(s: string, pat: string, i: nat)
    requires FirstAt(s, pat, i)
    ensures Find(s, pat) == i
  {
    FindFromSpec(s, pat, 0);
  }

  predicate IsNewline(c: char) {
    c == '\n'
  }

  // ---------- extracting and writing ----------

  /** The markers around the body and the body of an unfilled file. */
  datatype Slot = Slot(start: string, end: string, placeholder: string, unfilled: string -> bool)

  predicate MarkersInOrder(slot: Slot, content: string) {
    var s, e := Find(content, slot.start), Find(content, slot.end);
    s != -1 && e != -1 && e > s
  }

  /** content[i:j] of Python, which is empty when j < i. */
  function Slice(content: string, i: nat, j: nat): string
    requires j <= |content|
  {
    if i <= j then content[i..j] else []
  }

  /** _extract_classify_body, on a file that may be missing. */
  function Extract(slot: Slot, file: Option<string>): Option<string> {
    if file.None? || !MarkersInOrder(slot, file.value) then None
    else
      var content := file.value;
      var body := Strip(Slice(content, Find(content, slot.start) + |slot.start|, Find(content, slot.end)), IsNewline);
      if body == [] || slot.unfilled(body) then None else Some(body)
  }

  function Composed(prefix: string, body: string, suffix: string): string {
    prefix + (['\n', '\n'] + (body + (['\n', '\n'] + suffix)))
  }

  function Prefix(slot: Slot, template: string): string
    requires MarkersInOrder(slot, template)
  {
    template[..Find(template, slot.start) + |slot.start|]
  }

  function Suffix(slot: Slot, template: string): string
    requires MarkersInOrder(slot, template)
  {
    template[Find(template, slot.end)..]
  }

  /** _write_classify_framework: the file's new content. */
  function Write(slot: Slot, template: string, file: Option<string>): string {
    if MarkersInOrder(slot, template) then
      Composed(Prefix(slot, template), Extract(slot, file).GetOr(slot.placeholder), Suffix(slot, template))
    else template
  }

  // ---------- the slot ----------

  ghost predicate OneLine(s: string) {
    forall m | 0 <= m < |s| :: s[m] != '\n'
  }

  /** The end marker is one line and cannot begin inside the start marker; the placeholder fits between
      the markers and counts as unfilled. */
  ghost predicate GoodSlot(slot: Slot) {
    && slot.end != [] && OneLine(slot.end)
    && (forall k | 0 < k < |slot.start| :: Clashes(slot, k))
    && Fits(slot, slot.placeholder) && slot.unfilled(slot.placeholder)
  }

  ghost predicate Clashes(slot: Slot, k: int) {
    exists m :: Clash(slot, k, m)
  }

  /** With the end marker laid over the start marker at offset k, the two differ in its character m. */
  ghost predicate Clash(slot: Slot, k: int, m: int) {
    0 <= k && 0 <= m < |slot.end| && k + m < |slot.start| && slot.start[k + m] != slot.end[m]
  }

  /** A body that sits between the markers as it is: one trimmed block without an end marker. */
  ghost predicate Fits(slot: Slot, body: string) {
    body != [] && body[0] != '\n' && body[|body| - 1] != '\n' && Absent(body, slot.end)
  }

  /** A file whose first start marker ends the prefix and whose first end marker begins the suffix. */
  ghost predicate Frame(slot: Slot, prefix: string, suffix: string) {
    && |prefix| >= |slot.start| && FirstAt(prefix, slot.start, |prefix| - |slot.start|)
    && Absent(prefix, slot.end) && At(suffix, slot.end, 0)
  }

  lemma MarkersDoNotOverlap(slot: Slot, s: string, i: int, j: int)
    requires GoodSlot(slot) && At(s, slot.start, i) && At(s, slot.end, j) && j > i
    ensures j >= i + |slot.start|
  {
    assert j - i < |slot.start| ==> Clashes(slot, j - i);
  }

  // ---------- what a write leaves behind ----------

  lemma AtPrefix(a: string, b: string, pat: string, i: int)
    requires i + |pat| <= |a|
    ensures At(a + b, pat, i) <==> At(a, pat, i)
  {
  }

  lemma AtSuffix(a: string, b: string, pat: string, i: int)
    requires i >= |a|
    ensures At(a + b, pat, i) <==> At(b, pat, i - |a|)
  {
  }

  /** A pattern of one line does not run across a newline. */
  lemma AvoidsNewline(s: string, pat: string, i: int, n: nat)
    requires OneLine(pat) && At(s, pat, i) && n < |s| && s[n] == '\n'
    ensures n < i || i + |pat| <= n
  {
    forall x | i <= x < i + |pat| ensures s[x] != '\n' {
      assert s[i + (x - i)] == pat[x - i];
    }
  }

  lemma ComposedStart(slot: Slot, prefix: string, body: string, suffix: string)
    requires Frame(slot, prefix, suffix)
    ensures FirstAt(Composed(prefix, body, suffix), slot.start, |prefix| - |slot.start|)
  {
    var rest := ['\n', '\n'] + (body + (['\n', '\n'] + suffix));
    forall i | i <= |prefix| - |slot.start| ensures At(prefix + rest, slot.start, i) <==> At(prefix, slot.start, i) {
      AtPrefix(prefix, rest, slot.start, i);
    }
  }

  /** Between a frame and a fitting body no earlier end marker can arise. */
  lemma ComposedEnd(slot: Slot, prefix: string, body: string, suffix: string)
    requires GoodSlot(slot) && Frame(slot, prefix, suffix) && Fits(slot, body)
    ensures FirstAt(Composed(prefix, body, suffix), slot.end, |prefix| + |body| + 4)
  {
    var gap := ['\n', '\n'];
    var tail := gap + suffix;
    var inner := body + tail;
    var rest := gap + inner;
    var c := prefix + rest;
    var p := |prefix|;
    var q := p + 2 + |body|;
    assert c[p] == rest[0] == '\n' && c[p + 1] == rest[1] == '\n';
    assert c[q] == rest[2 + |body|] == inner[|body|] == tail[0] == '\n';
    assert c[q + 1] == rest[3 + |body|] == inner[|body| + 1] == tail[1] == '\n';
    AtSuffix(prefix, rest, slot.end, q + 2);
    AtSuffix(gap, inner, slot.end, |body| + 4);
    AtSuffix(body, tail, slot.end, |body| + 2);
    AtSuffix(gap, suffix, slot.end, 2);
    forall i | 0 <= i < q + 2 ensures !At(c, slot.end, i) {
      if At(c, slot.end, i) {
        AvoidsNewline(c, slot.end, i, p);
        AvoidsNewline(c, slot.end, i, p + 1);
        AvoidsNewline(c, slot.end, i, q);
        AvoidsNewline(c, slot.end, i, q + 1);
        if i < p {
          AtPrefix(prefix, rest, slot.end, i);
        } else {
          AtSuffix(prefix, rest, slot.end, i);
          AtSuffix(gap, inner, slot.end, i - p);
          AtPrefix(body, tail, slot.end, i - p - 2);
        }
      }
    }
  }

  lemma StripGaps(body: string)
    requires body != [] && body[0] != '\n' && body[|body| - 1] != '\n'
    ensures Strip(['\n', '\n'] + (body + ['\n', '\n']), IsNewline) == body
  {
    var gap := ['\n', '\n'];
    var tail := body + gap;
    assert gap + tail == ['\n'] + (['\n'] + tail);
    SkipLeft('\n', ['\n'] + tail, IsNewline);
    SkipLeft('\n', tail, IsNewline);
    assert tail[0] == body[0];
    assert tail == (body + ['\n']) + ['\n'];
    SkipRight(body + ['\n'], '\n', IsNewline);
    SkipRight(body, '\n', IsNewline);
  }

  lemma MarkersOfComposed(slot: Slot, prefix: string, body: string, suffix: string)
    requires GoodSlot(slot) && Frame(slot, prefix, suffix) && Fits(slot, body)
    ensures var c := Composed(prefix, body, suffix);
            Find(c, slot.start) == |prefix| - |slot.start| && Find(c, slot.end) == |prefix| + |body| + 4
  {
    var c := Composed(prefix, body, suffix);
    ComposedStart(slot, prefix, body, suffix);
    FindIs(c, slot.start, |prefix| - |slot.start|);
    ComposedEnd(slot, prefix, body, suffix);
    FindIs(c, slot.end, |prefix| + |body| + 4);
  }

  /** A regenerated file has its template's frame around the body, and the body is what is extracted. */
  lemma ExtractComposed(slot: Slot, prefix: string, body: string, suffix: string)
    requires GoodSlot(slot) && Frame(slot, prefix, suffix) && Fits(slot, body)
    ensures var c := Composed(prefix, body, suffix);
            && MarkersInOrder(slot, c)
            && Find(c, slot.start) == |prefix| - |slot.start| && Find(c, slot.end) == |prefix| + |body| + 4
            && Extract(slot, Some(c)) == if slot.unfilled(body) then None else Some(body)
  {
    var c := Composed(prefix, body, suffix);
    MarkersOfComposed(slot, prefix, body, suffix);
    InnerOfComposed(prefix, body, suffix);
    StripGaps(body);
    assert Strip(Slice(c, |prefix|, |prefix| + |body| + 4), IsNewline) == body;
  }

  lemma InnerOfComposed(prefix: string, body: string, suffix: string)
    ensures |Composed(prefix, body, suffix)| >= |prefix| + |body| + 4
    ensures Composed(prefix, body, suffix)[|prefix|..|prefix| + |body| + 4] == ['\n', '\n'] + (body + ['\n', '\n'])
  {
  }

  /** A template with both markers in order is a frame. */
  lemma TemplateIsFrame(slot: Slot, template: string)
    requires GoodSlot(slot) && MarkersInOrder(slot, template)
    ensures Frame(slot, Prefix(slot, template), Suffix(slot, template))
  {
    var s, e := Find(template, slot.start), Find(template, slot.end);
    FindSpec(template, slot.start);
    FindSpec(template, slot.end);
    MarkersDoNotOverlap(slot, template, s, e);
    var prefix, rest := Prefix(slot, template), template[s + |slot.start|..];
    assert template == prefix + rest;
    forall i | i <= s ensures At(template, slot.start, i) <==> At(prefix, slot.start, i) {
      AtPrefix(prefix, rest, slot.start, i);
    }
    forall i ensures !At(prefix, slot.end, i) {
      if i + |slot.end| <= |prefix| { AtPrefix(prefix, rest, slot.end, i); }
    }
    DropAt(template, slot.end, e);
  }

  lemma DropAt(s: string, pat: string, i: nat)
    requires At(s, pat, i)
    ensures At(s[i..], pat, 0)
  {
  }

  /** Part of what stands before the first end marker holds no end marker. */
  lemma PartHasNoEnd(content: string, pat: string, e: int, from: nat, part: string)
    requires FirstAt(content, pat, e) && from + |part| <= e && At(content, part, from)
    requires pat != []
    ensures Absent(part, pat)
  {
    forall j ensures !At(part, pat, j) {
      if At(part, pat, j) {
        forall m | 0 <= m < |pat| ensures content[from + j + m] == pat[m] {
          assert content[from + (j + m)] == part[j + m];
        }
        assert At(content, pat, from + j);
      }
    }
  }

  /** A stripped part is a part, trimmed at both ends. */
  lemma StripIsPart(s: string) returns (k: nat)
    ensures var body := Strip(s, IsNewline); At(s, body, k) && (body != [] ==> Trimmed(body))
  {
    var left := StripLeft(s, IsNewline);
    k := |s| - |left|;
    TrimmedLeft(s);
    TrimmedRight(left);
    TrimmedPart(s, left, Strip(s, IsNewline));
  }

  predicate Trimmed(body: string)
    requires body != []
  {
    body[0] != '\n' && body[|body| - 1] != '\n'
  }

  lemma TrimmedPart(s: string, left: string, body: string)
    requires |left| <= |s| && s[|s| - |left|..] == left && (left != [] ==> left[0] != '\n')
    requires |body| <= |left| && left[..|body|] == body && (body != [] ==> body[|body| - 1] != '\n')
    ensures At(s, body, |s| - |left|) && (body != [] ==> Trimmed(body))
  {
    forall m | 0 <= m < |body| ensures s[|s| - |left| + m] == body[m] {
      assert left[m] == s[|s| - |left|..][m];
    }
  }

  /** Stripping on the left leaves an end of the text that does not begin with a newline. */
  lemma {:induction false} TrimmedLeft(s: string)
    ensures var r := StripLeft(s, IsNewline);
            s[|s| - |r|..] == r && (r != [] ==> r[0] != '\n')
  {
    if s != [] && IsNewline(s[0]) {
      TrimmedLeft(s[1..]);
    }
  }

  lemma {:induction false} TrimmedRight(s: string)
    ensures var r := StripRight(s, IsNewline);
            s[..|r|] == r && (r != [] ==> r[|r| - 1] != '\n')
  {
    if s != [] && IsNewline(s[|s| - 1]) {
      TrimmedRight(s[..|s| - 1]);
    }
  }

  lemma PartOfPart(s: string, part: string, i: nat, inner: string, j: nat)
    requires At(s, part, i) && At(part, inner, j)
    ensures At(s, inner, i + j)
  {
  }

  /** An extracted body fits between markers. */
  lemma ExtractedFits(slot: Slot, file: Option<string>)
    requires GoodSlot(slot) && Extract(slot, file).Some?
    ensures Fits(slot, Extract(slot, file).value) && !slot.unfilled(Extract(slot, file).value)
  {
    var content := file.value;
    var s, e := Find(content, slot.start), Find(content, slot.end);
    FindSpec(content, slot.start);
    FindSpec(content, slot.end);
    MarkersDoNotOverlap(slot, content, s, e);
    var from := s + |slot.start|;
    var k := StripIsPart(content[from..e]);
    BetweenFits(slot, content, from, e, k, Strip(content[from..e], IsNewline));
  }

  /** A trimmed part of what stands before the first end marker fits. */
  lemma BetweenFits(slot: Slot, content: string, from: nat, e: nat, k: nat, body: string)
    requires slot.end != [] && from <= e <= |content| && FirstAt(content, slot.end, e)
    requires At(content[from..e], body, k) && body != [] && Trimmed(body)
    ensures Fits(slot, body)
  {
    PartOfPart(content, content[from..e], from, body, k);
    PartHasNoEnd(content, slot.end, e, from + k, body);
  }

  // ---------- the regeneration laws ----------

  lemma WriteComposes(slot: Slot, template: string, file: Option<string>)
    requires GoodSlot(slot) && MarkersInOrder(slot, template)
    ensures var body := Extract(slot, file).GetOr(slot.placeholder);
            && Frame(slot, Prefix(slot, template), Suffix(slot, template)) && Fits(slot, body)
            && (slot.unfilled(body) <==> Extract(slot, file).None?)
  {
    TemplateIsFrame(slot, template);
    if Extract(slot, file).Some? { ExtractedFits(slot, file); }
  }

  /** Extracting after writing gives back what was extracted before - the Worker's body, or nothing -
      exactly when the template has both markers in order or there was no body to keep. */
  lemma BodySurvives(slot: Slot, template: string, file: Option<string>)
    requires GoodSlot(slot)
    ensures Extract(slot, Some(Write(slot, template, file))) == Extract(slot, file)
       <==> MarkersInOrder(slot, template) || Extract(slot, file).None?
  {
    if MarkersInOrder(slot, template) {
      WriteComposes(slot, template, file);
      ExtractComposed(slot, Prefix(slot, template), Extract(slot, file).GetOr(slot.placeholder),
                      Suffix(slot, template));
    }
  }

  lemma FrameOfComposed(slot: Slot, prefix: string, body: string, suffix: string)
    requires GoodSlot(slot) && Frame(slot, prefix, suffix) && Fits(slot, body)
    ensures var c := Composed(prefix, body, suffix);
            MarkersInOrder(slot, c) && Prefix(slot, c) == prefix && Suffix(slot, c) == suffix
  {
    MarkersOfComposed(slot, prefix, body, suffix);
    EndsOfComposed(prefix, body, suffix);
  }

  /** The text outside the markers is the template's, whatever the Worker did to the file. */
  lemma FrameIsTheTemplates(slot: Slot, template: string, file: Option<string>)
    requires GoodSlot(slot) && MarkersInOrder(slot, template)
    ensures var c := Write(slot, template, file);
            && MarkersInOrder(slot, c)
            && Prefix(slot, c) == Prefix(slot, template) && Suffix(slot, c) == Suffix(slot, template)
  {
    WriteComposes(slot, template, file);
    FrameOfComposed(slot, Prefix(slot, template), Extract(slot, file).GetOr(slot.placeholder), Suffix(slot, template));
  }

  lemma EndsOfComposed(prefix: string, body: string, suffix: string)
    ensures var c := Composed(prefix, body, suffix);
            |c| == |prefix| + |body| + 4 + |suffix| && c[..|prefix|] == prefix && c[|prefix| + |body| + 4..] == suffix
  {
  }

  /** The file after n attempts whose Workers leave it alone. */
  function Attempts(slot: Slot, template: string, file: Option<string>, n: nat): Option<string> {
    if n == 0 then file else Some(Write(slot, template, Attempts(slot, template, file, n - 1)))
  }

  /** Regeneration is idempotent: from the first attempt on, any number of them gives one file, with the
      body that the Worker wrote before. */
  lemma {:induction false} AttemptsKeepBody(slot: Slot, template: string, file: Option<string>, n: nat)
    requires GoodSlot(slot) && MarkersInOrder(slot, template) && n > 0
    ensures Attempts(slot, template, file, n) == Some(Write(slot, template, file))
    ensures Extract(slot, Attempts(slot, template, file, n)) == Extract(slot, file)
  {
    BodySurvives(slot, template, file);
    if n > 1 { AttemptsKeepBody(slot, template, file, n - 1); }
  }

  // ---------- the slot of the source ----------

  const START := "    # ↓↓↓ 在此填写分类逻辑（仅改此函数体）↓↓↓"
  const END := "    # ↑↑↑ 在此填写分类逻辑 ↑↑↑"
  const PLACEHOLDER := "    echo \"other\""

  predicate Unfilled(body: string) {
    Strip(body, IsSpace) == "echo \"other\"" || Strip(body, IsSpace) == "echo 'other'"
  }

  const CLASSIFY_SLOT := Slot(START, END, PLACEHOLDER, Unfilled)

  lemma SkipIndent(text: string)
    requires text != [] && !IsSpace(text[0]) && !IsSpace(text[|text| - 1])
    ensures Strip([' '] + ([' '] + ([' '] + ([' '] + text))), IsSpace) == text
  {
    SkipLeft(' ', [' '] + ([' '] + ([' '] + text)), IsSpace);
    SkipLeft(' ', [' '] + ([' '] + text), IsSpace);
    SkipLeft(' ', [' '] + text, IsSpace);
    SkipLeft(' ', text, IsSpace);
  }

  lemma PlaceholderIsUnfilled()
    ensures Unfilled(PLACEHOLDER)
  {
    var text := "echo \"other\"";
    assert PLACEHOLDER == [' '] + ([' '] + ([' '] + ([' '] + text)));
    SkipIndent(text);
  }

  lemma MarkersClash(k: nat)
    requires 0 < k < |START|
    ensures Clashes(CLASSIFY_SLOT, k)
  {
    var m := if k < 4 then 4 - k else if START[k] != ' ' then 0 else 1;
    assert k + m < |START| && START[k + m] != END[m];
    assert Clash(CLASSIFY_SLOT, k, m);
  }

  lemma PlaceholderFits()
    ensures Fits(CLASSIFY_SLOT, PLACEHOLDER)
  {
  }

  lemma EndIsOneLine()
    ensures OneLine(END)
  {
  }

  /** The markers and the placeholder of s1_classify.py satisfy what the laws ask of them. */
  lemma ClassifySlotIsGood()
    ensures GoodSlot(CLASSIFY_SLOT)
  {
    PlaceholderIsUnfilled();
    PlaceholderFits();
    EndIsOneLine();
    forall k | 0 < k < |START| ensures Clashes(CLASSIFY_SLOT, k) {
      MarkersClash(k);
    }
  }
}
