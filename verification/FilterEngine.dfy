/** app/pipeline/filter_engine.py: greedy packing of tree nodes into prompt batches, and the
    validation of the agent's module assignment. */
module FilterEngine {
  import opened Results
  import opened Sequences

  /** A node of the scanned tree, reduced to its prompt line. */
  datatype TreeNode = TreeNode(line: string)

  function AsciiCount(text: string): nat {
    if text == [] then 0 else AsciiCount(Init(text)) + (if Last(text) < 128 as char then 1 else 0)
  }

  lemma AsciiBound(text: string)
    ensures AsciiCount(text) <= |text|
  {
  }

  /** estimate_tokens: four ASCII characters a token, every other character one token. */
  function EstimateTokens(text: string): nat {
    AsciiBound(text);
    if text == [] then 0
    else
      var ascii := AsciiCount(text);
      var n := (if ascii % 4 == 0 then ascii / 4 else ascii / 4 + 1) + (|text| - ascii);
      if n < 1 then 1 else n
  }

  function LineTokens(node: TreeNode): nat {
    EstimateTokens(node.line) + 8
  }

  function Cost(batch: seq<TreeNode>): nat {
    if batch == [] then 0 else Cost(Init(batch)) + LineTokens(Last(batch))
  }

  function Flatten<T>(batches: seq<seq<T>>): seq<T> {
    if batches == [] then [] else Flatten(batches[..|batches| - 1]) + batches[|batches| - 1]
  }

  /** A batch may exceed the limit only by being one node. */
  predicate Fits(batch: seq<TreeNode>, limit: int) {
    batch != [] && (Cost(batch) <= limit || |batch| == 1)
  }

  ghost predicate IsPartition(batches: seq<seq<TreeNode>>, nodes: seq<TreeNode>, limit: int) {
    Flatten(batches) == nodes && forall b | b in batches :: Fits(b, limit)
  }

  // ---------- the estimate and the batches, on the inputs alone ----------

  ghost function AsciiIndices(text: string): set<nat> {
    set i: nat | i < |text| && text[i] < 128 as char
  }

  ghost function OtherIndices(text: string): set<nat> {
    set i: nat | i < |text| && text[i] >= 128 as char
  }

  lemma {:induction false} CountsIndices(text: string)
    ensures |AsciiIndices(text)| == AsciiCount(text) && |OtherIndices(text)| == |text| - AsciiCount(text)
  {
    if text == [] {
      assert AsciiIndices(text) == {} && OtherIndices(text) == {};
    } else {
      CountsIndices(Init(text));
      var i: nat := |text| - 1;
      OneIndexMore(AsciiIndices(Init(text)), AsciiIndices(text), i, text[i] < 128 as char);
      OneIndexMore(OtherIndices(Init(text)), OtherIndices(text), i, text[i] >= 128 as char);
    }
  }

  /** No text costs nothing; any other text costs the least positive number of tokens of which one stands for each
      character above 127 and each of the rest for at most four of the others. */
  ghost predicate Estimates(text: string, n: int) {
    if text == [] then n == 0
    else
      var ascii, other := |AsciiIndices(text)|, |OtherIndices(text)|;
      n > 0 && Enough(n, ascii, other) && forall m | 0 < m < n :: !Enough(m, ascii, other)
  }

  predicate Enough(n: int, ascii: nat, other: nat) {
    4 * (n - other) >= ascii
  }

  lemma EstimateIs(text: string, n: int)
    ensures Estimates(text, n) <==> n == EstimateTokens(text)
  {
    CountsIndices(text);
    if text != [] { LeastIs(AsciiCount(text), |text| - AsciiCount(text), n); }
  }

  lemma LeastIs(ascii: nat, other: nat, n: int)
    requires ascii + other > 0
    ensures n == (if ascii % 4 == 0 then ascii / 4 else ascii / 4 + 1) + other
       <==> n > 0 && Enough(n, ascii, other) && forall m | 0 < m < n :: !Enough(m, ascii, other)
  {
    var least := (if ascii % 4 == 0 then ascii / 4 else ascii / 4 + 1) + other;
    assert least > 0 && Enough(least, ascii, other);
    assert forall m | m < least :: !Enough(m, ascii, other);
  }

  /** The tokens before each line of the batch and after the last: a line costs its estimate and 8 more. */
  ghost predicate Running(batch: seq<TreeNode>, sums: seq<int>) {
    && |sums| == |batch| + 1 && sums[0] == 0
    && forall i, j {:trigger sums[j], batch[i]} | 0 <= i < |batch| && j == i + 1 ::
         Estimates(batch[i].line, sums[j] - sums[i] - 8)
  }

  ghost predicate Costs(batch: seq<TreeNode>, n: int) {
    exists sums :: Running(batch, sums) && Last(sums) == n
  }

  lemma {:induction false} RunningIsCost(batch: seq<TreeNode>, sums: seq<int>)
    requires Running(batch, sums)
    ensures Last(sums) == Cost(batch)
  {
    if batch != [] {
      var k := |batch| - 1;
      RunningIsCost(Init(batch), Init(sums));
      assert Estimates(batch[k].line, sums[k + 1] - sums[k] - 8);
      EstimateIs(batch[k].line, sums[k + 1] - sums[k] - 8);
    }
  }

  lemma {:induction false} CostIsRunning(batch: seq<TreeNode>) returns (sums: seq<int>)
    ensures Running(batch, sums) && Last(sums) == Cost(batch)
  {
    sums := [0];
    if batch != [] {
      var before := CostIsRunning(Init(batch));
      sums := before + [Cost(batch)];
      var k := |batch| - 1;
      EstimateIs(batch[k].line, LineTokens(batch[k]) - 8);
      forall i, j | 0 <= i < |batch| && j == i + 1 ensures Estimates(batch[i].line, sums[j] - sums[i] - 8) {
        if i < k { assert Estimates(Init(batch)[i].line, before[j] - before[i] - 8); }
      }
    }
  }

  lemma CostsIff(batch: seq<TreeNode>, n: int)
    ensures Costs(batch, n) <==> n == Cost(batch)
  {
    if sums :| Running(batch, sums) && Last(sums) == n { RunningIsCost(batch, sums); }
    var sums := CostIsRunning(batch);
  }

  /** The batch takes more than the limit. */
  ghost predicate Over(batch: seq<TreeNode>, limit: int) {
    exists n :: Costs(batch, n) && n > limit
  }

  lemma OverIff(batch: seq<TreeNode>, limit: int)
    ensures Over(batch, limit) <==> Cost(batch) > limit
  {
    CostsIff(batch, Cost(batch));
    if n :| Costs(batch, n) && n > limit { CostsIff(batch, n); }
  }

  /** The batches are the nodes, cut at these places. */
  ghost predicate CutAt(nodes: seq<TreeNode>, batches: seq<seq<TreeNode>>, cuts: seq<nat>) {
    && |cuts| == |batches| + 1 && cuts[0] == 0 && Last(cuts) == |nodes|
    && forall i, j {:trigger cuts[j], batches[i]} | 0 <= i < |batches| && j == i + 1 ::
         Piece(nodes, batches[i], cuts[i], cuts[j])
  }

  ghost predicate Piece(nodes: seq<TreeNode>, batch: seq<TreeNode>, lo: nat, hi: nat) {
    lo <= hi <= |nodes| && batch == nodes[lo..hi]
  }

  /** A way to cut the nodes into batches, none empty, that exceed the limit only as single nodes. */
  ghost predicate CutUp(nodes: seq<TreeNode>, batches: seq<seq<TreeNode>>, limit: int) {
    && (exists cuts :: CutAt(nodes, batches, cuts))
    && forall b | b in batches :: b != [] && (|b| == 1 || !Over(b, limit))
  }

  lemma {:induction false} CutsFlatten(nodes: seq<TreeNode>, batches: seq<seq<TreeNode>>, cuts: seq<nat>)
    requires CutAt(nodes, batches, cuts)
    ensures Flatten(batches) == nodes
    decreases |batches|
  {
    if batches != [] {
      var k := |batches| - 1;
      assert Piece(nodes, batches[k], cuts[k], cuts[k + 1]);
      var before := nodes[..cuts[k]];
      forall i, j | 0 <= i < |Init(batches)| && j == i + 1 ensures Piece(before, Init(batches)[i], cuts[i], cuts[j]) {
        CutsGrow(nodes, batches, cuts, j, k);
        assert Piece(nodes, batches[i], cuts[i], cuts[j]);
      }
      CutsFlatten(before, Init(batches), Init(cuts));
      assert nodes == before + nodes[cuts[k]..];
    }
  }

  lemma {:induction false} CutsGrow(nodes: seq<TreeNode>, batches: seq<seq<TreeNode>>, cuts: seq<nat>, i: nat, j: nat)
    requires CutAt(nodes, batches, cuts) && i <= j <= |batches|
    ensures cuts[i] <= cuts[j]
    decreases j
  {
    if i < j {
      CutsGrow(nodes, batches, cuts, i, j - 1);
      assert Piece(nodes, batches[j - 1], cuts[j - 1], cuts[j]);
    }
  }

  lemma {:induction false} CutsSnoc(nodes: seq<TreeNode>, batches: seq<seq<TreeNode>>, cuts: seq<nat>,
                                    b: seq<TreeNode>)
    requires CutAt(nodes, batches, cuts)
    ensures CutAt(nodes + b, batches + [b], cuts + [|nodes + b|])
  {
    var n, k := |nodes + b|, |batches|;
    forall i, j | 0 <= i < k + 1 && j == i + 1
      ensures Piece(nodes + b, (batches + [b])[i], (cuts + [n])[i], (cuts + [n])[j])
    {
      if i < k { assert Piece(nodes, batches[i], cuts[i], cuts[j]); }
    }
  }

  lemma {:induction false} FlattenCuts(batches: seq<seq<TreeNode>>) returns (cuts: seq<nat>)
    ensures CutAt(Flatten(batches), batches, cuts)
  {
    if batches == [] {
      cuts := [0];
    } else {
      var before := FlattenCuts(Init(batches));
      CutsSnoc(Flatten(Init(batches)), Init(batches), before, Last(batches));
      InitLast(batches);
      cuts := before + [|Flatten(batches)|];
    }
  }

  lemma CutUpIff(nodes: seq<TreeNode>, batches: seq<seq<TreeNode>>, limit: int)
    ensures CutUp(nodes, batches, limit) <==> IsPartition(batches, nodes, limit)
  {
    if cuts :| CutAt(nodes, batches, cuts) { CutsFlatten(nodes, batches, cuts); }
    var cuts := FlattenCuts(batches);
    forall b ensures Over(b, limit) <==> Cost(b) > limit { OverIff(b, limit); }
  }

  /** Each batch would exceed the limit with the first node of the next. */
  ghost predicate Full(batches: seq<seq<TreeNode>>, limit: int) {
    forall i, j {:trigger batches[i], batches[j]} | 0 <= i < j < |batches| && j == i + 1 ::
      FullBefore(batches[i], batches[j], limit)
  }

  ghost predicate FullBefore(batch: seq<TreeNode>, next: seq<TreeNode>, limit: int) {
    next != [] && Over(batch + [next[0]], limit)
  }

  lemma FullWithLonger(groups: seq<seq<TreeNode>>, node: TreeNode, limit: int)
    requires groups != [] && Last(groups) != [] && Full(groups, limit)
    ensures Full(Init(groups) + [Last(groups) + [node]], limit)
  {
    var next := Init(groups) + [Last(groups) + [node]];
    forall i, j | 0 <= i < j < |next| && j == i + 1 ensures FullBefore(next[i], next[j], limit) {
      assert FullBefore(groups[i], groups[j], limit);
    }
  }

  lemma FullWithNew(groups: seq<seq<TreeNode>>, node: TreeNode, limit: int)
    requires Full(groups, limit) && (groups != [] ==> Cost(Last(groups) + [node]) > limit)
    ensures Full(groups + [[node]], limit)
  {
    var next := groups + [[node]];
    forall i, j | 0 <= i < j < |next| && j == i + 1 ensures FullBefore(next[i], next[j], limit) {
      if j < |groups| {
        assert FullBefore(groups[i], groups[j], limit);
      } else {
        OverIff(Last(groups) + [node], limit);
      }
    }
  }

  lemma {:induction false} CostOfPrefix(batch: seq<TreeNode>, k: nat)
    requires k <= |batch|
    ensures Cost(batch[..k]) <= Cost(batch)
  {
    if k < |batch| {
      CostOfPrefix(Init(batch), k);
      assert Init(batch)[..k] == batch[..k];
    } else {
      assert batch[..k] == batch;
    }
  }

  /** Of two ways to cut from the same place, a full one does not stop before one that fits. */
  lemma NotShorter(nodes: seq<TreeNode>, p: seq<seq<TreeNode>>, cp: seq<nat>, q: seq<seq<TreeNode>>, cq: seq<nat>,
                   k: nat, limit: int)
    requires CutAt(nodes, p, cp) && CutAt(nodes, q, cq) && Full(p, limit) && CutUp(nodes, q, limit)
    requires k < |p| && k < |q| && cp[k] == cq[k] && p[k] != []
    ensures cp[k + 1] >= cq[k + 1]
  {
    assert Piece(nodes, p[k], cp[k], cp[k + 1]) && Piece(nodes, q[k], cq[k], cq[k + 1]);
    if cp[k + 1] < cq[k + 1] {
      assert k + 1 < |p|;
      assert FullBefore(p[k], p[k + 1], limit) && Piece(nodes, p[k + 1], cp[k + 1], cp[k + 2]);
      var longer := p[k] + [p[k + 1][0]];
      assert longer == q[k][..|longer|];
      CostOfPrefix(q[k], |longer|);
      OverIff(longer, limit);
      OverIff(q[k], limit);
    }
  }

  lemma {:induction false} SameCuts(nodes: seq<TreeNode>, p: seq<seq<TreeNode>>, cp: seq<nat>,
                                    q: seq<seq<TreeNode>>, cq: seq<nat>, k: nat, limit: int)
    requires CutAt(nodes, p, cp) && CutAt(nodes, q, cq) && Full(p, limit) && Full(q, limit)
    requires CutUp(nodes, p, limit) && CutUp(nodes, q, limit) && k <= |p| && k <= |q|
    ensures cp[k] == cq[k]
  {
    if k > 0 {
      SameCuts(nodes, p, cp, q, cq, k - 1, limit);
      assert p[k - 1] in p && q[k - 1] in q;
      NotShorter(nodes, p, cp, q, cq, k - 1, limit);
      NotShorter(nodes, q, cq, p, cp, k - 1, limit);
    }
  }

  /** There is only one way to cut the nodes up with each batch as full as it can be. */
  lemma OneBatching(nodes: seq<TreeNode>, p: seq<seq<TreeNode>>, q: seq<seq<TreeNode>>, limit: int)
    requires CutUp(nodes, p, limit) && Full(p, limit) && CutUp(nodes, q, limit) && Full(q, limit)
    ensures p == q
  {
    var cp :| CutAt(nodes, p, cp);
    var cq :| CutAt(nodes, q, cq);
    forall k: nat | k <= |p| && k <= |q| ensures cp[k] == cq[k] { SameCuts(nodes, p, cp, q, cq, k, limit); }
    NotFewer(nodes, p, cp, q, cq, limit);
    NotFewer(nodes, q, cq, p, cp, limit);
    forall k | 0 <= k < |p| ensures p[k] == q[k] {
      assert Piece(nodes, p[k], cp[k], cp[k + 1]) && Piece(nodes, q[k], cq[k], cq[k + 1]);
    }
  }

  lemma NotFewer(nodes: seq<TreeNode>, p: seq<seq<TreeNode>>, cp: seq<nat>, q: seq<seq<TreeNode>>, cq: seq<nat>,
                 limit: int)
    requires CutAt(nodes, p, cp) && CutAt(nodes, q, cq) && CutUp(nodes, q, limit)
    requires |p| < |q| ==> cp[|p|] == cq[|p|]
    ensures |p| >= |q|
  {
    assert |p| < |q| ==> q[|p|] in q && Piece(nodes, q[|p|], cq[|p|], cq[|p| + 1]);
  }

  // ---------- greedy packing ----------

  /** The greedy groups use no more batches than any partition of the same nodes, and against one with
      equally many their last group starts no earlier. */
  ghost predicate StaysAhead(groups: seq<seq<TreeNode>>, nodes: seq<TreeNode>, limit: int) {
    forall p {:trigger IsPartition(p, nodes, limit)} | IsPartition(p, nodes, limit) ::
      |groups| <= |p| && (groups != [] && |p| == |groups| ==> |Last(groups)| <= |Last(p)|)
  }

  lemma SuffixOfInit<T>(s: seq<T>, k: nat)
    requires k < |s|
    ensures Init(s[k..]) == Init(s)[k..] && Last(s[k..]) == Last(s)
  {
  }

  lemma {:induction false} CostOfSuffix(batch: seq<TreeNode>, k: nat)
    requires k <= |batch|
    ensures Cost(batch[k..]) <= Cost(batch)
  {
    if k < |batch| {
      SuffixOfInit(batch, k);
      CostOfSuffix(Init(batch), k);
    }
  }

  lemma FlattenSnoc<T>(batches: seq<seq<T>>, b: seq<T>)
    ensures Flatten(batches + [b]) == Flatten(batches) + b
  {
  }

  /** A partition without its last node. */
  ghost function Trim(p: seq<seq<TreeNode>>): seq<seq<TreeNode>>
    requires p != [] && Last(p) != []
  {
    if |Last(p)| == 1 then Init(p) else Init(p) + [Init(Last(p))]
  }

  lemma TrimPartition(p: seq<seq<TreeNode>>, nodes: seq<TreeNode>, limit: int)
    requires nodes != [] && IsPartition(p, nodes, limit)
    ensures p != [] && Last(p) != [] && IsPartition(Trim(p), Init(nodes), limit)
  {
    assert p != [];
    var b := Last(p);
    assert b in p && Fits(b, limit);
    assert nodes == Flatten(Init(p)) + b;
    assert Init(nodes) == Flatten(Init(p)) + Init(b);
    if |b| > 1 {
      FlattenSnoc(Init(p), Init(b));
    } else {
      assert Init(b) == [];
    }
  }

  /** The last batch of a partition is a suffix of the nodes. */
  lemma LastIsSuffix(p: seq<seq<TreeNode>>, nodes: seq<TreeNode>, limit: int)
    requires p != [] && IsPartition(p, nodes, limit)
    ensures |Last(p)| <= |nodes| && Last(p) == nodes[|nodes| - |Last(p)|..]
  {
  }

  lemma ExtendLastGroup(groups: seq<seq<TreeNode>>, nodes: seq<TreeNode>, node: TreeNode, limit: int)
    requires groups != [] && StaysAhead(groups, nodes, limit)
    ensures StaysAhead(Init(groups) + [Last(groups) + [node]], nodes + [node], limit)
  {
    forall p | IsPartition(p, nodes + [node], limit)
      ensures |groups| <= |p| && (|p| == |groups| ==> |Last(groups)| + 1 <= |Last(p)|)
    {
      TrimPartition(p, nodes + [node], limit);
      assert Init(nodes + [node]) == nodes;
    }
  }

  lemma {:induction false} OpenNewGroup(groups: seq<seq<TreeNode>>, nodes: seq<TreeNode>, node: TreeNode, limit: int)
    requires StaysAhead(groups, nodes, limit)
    requires Flatten(groups) == nodes && (forall b | b in groups :: b != [])
    requires groups != [] ==> Cost(Last(groups) + [node]) > limit
    ensures StaysAhead(groups + [[node]], nodes + [node], limit)
  {
    forall p | IsPartition(p, nodes + [node], limit)
      ensures |groups| + 1 <= |p| && |Last(p)| >= 1
    {
      NeedsOneMore(groups, nodes, node, p, limit);
    }
  }

  lemma {:induction false} NeedsOneMore(groups: seq<seq<TreeNode>>, nodes: seq<TreeNode>, node: TreeNode,
                                        p: seq<seq<TreeNode>>, limit: int)
    requires StaysAhead(groups, nodes, limit)
    requires Flatten(groups) == nodes && (forall b | b in groups :: b != [])
    requires groups != [] ==> Cost(Last(groups) + [node]) > limit
    requires IsPartition(p, nodes + [node], limit)
    ensures p != [] && |groups| + 1 <= |p| && |Last(p)| >= 1
  {
    TrimPartition(p, nodes + [node], limit);
    assert Init(nodes + [node]) == nodes;
    var q := Trim(p);
    assert |groups| <= |q| <= |p|;
    if |p| == |groups| {
      assert Last(groups) in groups;
      assert |Last(groups)| <= |Last(q)| < |Last(p)|;
      LastGroupOverflows(groups, nodes, node, p, limit);
    }
  }

  lemma TailOfSuffix<T>(x: seq<T>, t: seq<T>, k: nat)
    requires k <= |x|
    ensures (x + t)[k..][|x| - k..] == t
  {
  }

  /** A batch reaching back past the last group and over the new node exceeds the limit. */
  lemma LastGroupOverflows(groups: seq<seq<TreeNode>>, nodes: seq<TreeNode>, node: TreeNode,
                           p: seq<seq<TreeNode>>, limit: int)
    requires groups != [] && Flatten(groups) == nodes && Last(groups) != []
    requires Cost(Last(groups) + [node]) > limit
    requires p != [] && IsPartition(p, nodes + [node], limit)
    ensures |Last(p)| <= |Last(groups)|
  {
    var b, g := Last(p), Last(groups);
    assert b in p && Fits(b, limit);
    if |b| > |g| {
      LastIsSuffix(p, nodes + [node], limit);
      var x, t := Flatten(Init(groups)), g + [node];
      ConcatAssoc(x, g, [node]);
      TailOfSuffix(x, t, |x| + |t| - |b|);
      CostOfSuffix(b, |b| - |g| - 1);
    }
  }

  ghost function Groups(batches: seq<seq<TreeNode>>, current: seq<TreeNode>): seq<seq<TreeNode>> {
    if current == [] then batches else batches + [current]
  }

  lemma CostSnoc(batch: seq<TreeNode>, node: TreeNode)
    ensures Cost(batch + [node]) == Cost(batch) + LineTokens(node)
  {
  }

  /** One node more: it joins the last group when that stays within the limit, else opens a group. */
  lemma AddNode(groups: seq<seq<TreeNode>>, nodes: seq<TreeNode>, node: TreeNode, limit: int)
    requires IsPartition(groups, nodes, limit) && StaysAhead(groups, nodes, limit) && Full(groups, limit)
    ensures var next := if groups != [] && Cost(Last(groups) + [node]) <= limit
                        then Init(groups) + [Last(groups) + [node]] else groups + [[node]];
            IsPartition(next, nodes + [node], limit) && StaysAhead(next, nodes + [node], limit) && Full(next, limit)
  {
    if groups != [] && Cost(Last(groups) + [node]) <= limit {
      assert Last(groups) in groups;
      FullWithLonger(groups, node, limit);
      ExtendLastGroup(groups, nodes, node, limit);
      FlattenSnoc(Init(groups), Last(groups) + [node]);
    } else {
      FullWithNew(groups, node, limit);
      OpenNewGroup(groups, nodes, node, limit);
      FlattenSnoc(groups, [node]);
    }
  }

  /** What the loop knows after the nodes in `done`: an optimal packing, with `current` open. */
  ghost predicate Packed(batches: seq<seq<TreeNode>>, current: seq<TreeNode>, done: seq<TreeNode>, limit: int) {
    && IsPartition(Groups(batches, current), done, limit)
    && StaysAhead(Groups(batches, current), done, limit)
    && Full(Groups(batches, current), limit)
    && (current != [] ==> Cost(current) <= limit)
    && (current == [] && batches != [] ==> Cost(Last(batches)) > limit)
  }

  lemma {:induction false} PackIntoCurrent(batches: seq<seq<TreeNode>>, current: seq<TreeNode>, done: seq<TreeNode>,
                                           node: TreeNode, limit: int)
    requires Packed(batches, current, done, limit)
    requires if current == [] then LineTokens(node) <= limit else Cost(current + [node]) <= limit
    ensures Packed(batches, current + [node], done + [node], limit)
  {
    var groups := Groups(batches, current);
    AddNode(groups, done, node, limit);
    CostSnoc([], node);
    assert [] + [node] == [node];
    if current != [] {
      assert Init(groups) == batches && Last(groups) == current;
    } else if batches != [] {
      CostSnoc(Last(batches), node);
    }
  }

  lemma {:induction false} PackAfterFlush(batches: seq<seq<TreeNode>>, current: seq<TreeNode>, done: seq<TreeNode>,
                                          node: TreeNode, limit: int)
    requires Packed(batches, current, done, limit)
    requires current != [] && Cost(current + [node]) > limit
    ensures if LineTokens(node) > limit then Packed(batches + [current] + [[node]], [], done + [node], limit)
            else Packed(batches + [current], [node], done + [node], limit)
  {
    AddNode(Groups(batches, current), done, node, limit);
    CostSnoc([], node);
    assert [] + [node] == [node];
  }

  lemma PackOversized(batches: seq<seq<TreeNode>>, done: seq<TreeNode>, node: TreeNode, limit: int)
    requires Packed(batches, [], done, limit) && LineTokens(node) > limit
    ensures Packed(batches + [[node]], [], done + [node], limit)
  {
    AddNode(batches, done, node, limit);
    CostSnoc([], node);
    assert [] + [node] == [node];
    if batches != [] { CostSnoc(Last(batches), node); }
  }

  datatype Packing = Packing(batches: seq<seq<TreeNode>>, current: seq<TreeNode>, tokens: nat)

  /** One turn of the loop, given the tokens of the open batch and of the node. */
  function TurnTokens(p: Packing, node: TreeNode, lineTokens: nat, limit: int): Packing {
    if p.current != [] && p.tokens + lineTokens <= limit then
      Packing(p.batches, p.current + [node], p.tokens + lineTokens)
    else
      var flushed := if p.current == [] then p.batches else p.batches + [p.current];
      if lineTokens <= limit then Packing(flushed, [node], lineTokens) else Packing(flushed + [[node]], [], 0)
  }

  /** The batches and the open batch after one turn of the loop. */
  function Turn(batches: seq<seq<TreeNode>>, current: seq<TreeNode>, node: TreeNode, limit: int)
    : (seq<seq<TreeNode>>, seq<TreeNode>)
  {
    var p := TurnTokens(Packing(batches, current, Cost(current)), node, LineTokens(node), limit);
    (p.batches, p.current)
  }

  /** The running count stays the cost of the open batch. */
  lemma TurnCost(batches: seq<seq<TreeNode>>, current: seq<TreeNode>, node: TreeNode, limit: int)
    ensures TurnTokens(Packing(batches, current, Cost(current)), node, LineTokens(node), limit).tokens
         == Cost(Turn(batches, current, node, limit).1)
  {
    CostSnoc(current, node);
    CostSnoc([], node);
    assert [] + [node] == [node];
  }

  /** One turn keeps the packing optimal. */
  lemma {:induction false} TurnKeepsPacked(batches: seq<seq<TreeNode>>, current: seq<TreeNode>, done: seq<TreeNode>,
                                           node: TreeNode, limit: int)
    requires Packed(batches, current, done, limit)
    ensures var (b, c) := Turn(batches, current, node, limit); Packed(b, c, done + [node], limit)
  {
    CostSnoc(current, node);
    CostSnoc([], node);
    assert [] + [node] == [node];
    if current != [] && Cost(current) + LineTokens(node) > limit {
      PackAfterFlush(batches, current, done, node, limit);
    } else if LineTokens(node) > limit && current == [] {
      PackOversized(batches, done, node, limit);
    } else {
      PackIntoCurrent(batches, current, done, node, limit);
    }
  }

  method PackTokens(p: Packing, node: TreeNode, lineTokens: nat, limit: int) returns (r: Packing)
    requires p.current == [] ==> p.tokens == 0
    ensures r == TurnTokens(p, node, lineTokens, limit)
  {
    r := p;
    if r.current != [] && r.tokens + lineTokens > limit {
      r := Packing(r.batches + [r.current], [], 0);
    }
    if lineTokens > limit && r.current == [] {
      r := r.(batches := r.batches + [[node]]);
      return;
    }
    r := r.(current := r.current + [node], tokens := r.tokens + lineTokens);
  }

  /** The body of the loop. */
  method PackNode(batches: seq<seq<TreeNode>>, current: seq<TreeNode>, currentTokens: nat, node: TreeNode, limit: int)
    returns (newBatches: seq<seq<TreeNode>>, newCurrent: seq<TreeNode>, newTokens: nat)
    requires currentTokens == Cost(current)
    ensures (newBatches, newCurrent) == Turn(batches, current, node, limit)
    ensures newTokens == Cost(newCurrent)
  {
    var p := PackTokens(Packing(batches, current, currentTokens), node, LineTokens(node), limit);
    TurnCost(batches, current, node, limit);
    return p.batches, p.current, p.tokens;
  }

  /** The nodes are cut up, each batch as full as it can be, and no way to cut them up has fewer batches. */
  ghost predicate Optimal(batches: seq<seq<TreeNode>>, nodes: seq<TreeNode>, limit: int) {
    && CutUp(nodes, batches, limit) && Full(batches, limit)
    && forall p {:trigger CutUp(nodes, p, limit)} | CutUp(nodes, p, limit) :: |batches| <= |p|
  }

  lemma PackedIsOptimal(batches: seq<seq<TreeNode>>, current: seq<TreeNode>, nodes: seq<TreeNode>, limit: int)
    requires Packed(batches, current, nodes, limit)
    ensures Optimal(Groups(batches, current), nodes, limit)
  {
    forall p ensures CutUp(nodes, p, limit) <==> IsPartition(p, nodes, limit) { CutUpIff(nodes, p, limit); }
  }

  /** The batches and the open batch after all nodes. */
  function Pack(nodes: seq<TreeNode>, limit: int): (seq<seq<TreeNode>>, seq<TreeNode>) {
    if nodes == [] then ([], [])
    else
      var (batches, current) := Pack(Init(nodes), limit);
      Turn(batches, current, Last(nodes), limit)
  }

  lemma {:induction false} PackIsPacked(nodes: seq<TreeNode>, limit: int)
    ensures var (batches, current) := Pack(nodes, limit); Packed(batches, current, nodes, limit)
  {
    if nodes != [] {
      var (batches, current) := Pack(Init(nodes), limit);
      PackIsPacked(Init(nodes), limit);
      TurnKeepsPacked(batches, current, Init(nodes), Last(nodes), limit);
      InitLast(nodes);
    }
  }

  /** The loop of batch_tree_nodes. */
  method PackAll(nodes: seq<TreeNode>, limit: int) returns (batches: seq<seq<TreeNode>>, current: seq<TreeNode>)
    ensures (batches, current) == Pack(nodes, limit)
  {
    batches, current := [], [];
    var currentTokens := 0;
    for i := 0 to |nodes|
      invariant currentTokens == Cost(current)
      invariant (batches, current) == Pack(nodes[..i], limit)
    {
      assert Init(nodes[..i + 1]) == nodes[..i] && Last(nodes[..i + 1]) == nodes[i];
      batches, current, currentTokens := PackNode(batches, current, currentTokens, nodes[i], limit);
    }
    assert nodes[..|nodes|] == nodes;
  }

  /** batch_tree_nodes. No nodes give one empty batch. */
  method BatchTreeNodes(nodes: seq<TreeNode>, limit: int) returns (batches: seq<seq<TreeNode>>)
    ensures if nodes == [] then batches == [[]] else Optimal(batches, nodes, limit)
  {
    if nodes == [] {
      return [[]];
    }
    var current;
    batches, current := PackAll(nodes, limit);
    PackIsPacked(nodes, limit);
    PackedIsOptimal(batches, current, nodes, limit);
    if current != [] {
      batches := batches + [current];
    }
  }

  // ---------- validate_filter_outputs ----------

  datatype FilterError =
    | EmptyFiltered
    | EmptyName
    | DuplicateName(name: string)
    | EmptyModule(name: string)
    | UnknownFile(name: string, file: string)
    | TwoOwners(file: string, first: string, second: string)

  /** One entry of the agent's module map: a raw name and its files. */
  datatype Assignment = Assignment(rawName: string, files: seq<string>)

  function FilteredSet(filtered: seq<string>): set<string> {
    set f | f in filtered && f != ""
  }

  ghost predicate ValidAssignment(filtered: seq<string>, modules: seq<Assignment>, sanitize: string -> string) {
    && (exists f :: IsFiltered(filtered, f))
    && (forall i | 0 <= i < |modules| ::
          sanitize(modules[i].rawName) != "" && modules[i].files != [] && DrawnFrom(modules[i].files, filtered))
    && (forall i, j | 0 <= i < j < |modules| ::
          sanitize(modules[i].rawName) != sanitize(modules[j].rawName) && Disjoint(modules[i].files, modules[j].files))
  }

  ghost predicate DrawnFrom(files: seq<string>, filtered: seq<string>) {
    forall f | f in files :: IsFiltered(filtered, f)
  }

  /** One of the filtered files; empty names do not count. */
  predicate IsFiltered(filtered: seq<string>, f: string) {
    f in filtered && f != ""
  }

  ghost predicate Disjoint(a: seq<string>, b: seq<string>) {
    forall f | f in a :: f !in b
  }

  /** Module number i has this clean name and lists this file. */
  predicate Lists(modules: seq<Assignment>, i: nat, sanitize: string -> string, name: string, file: string)
    requires i < |modules|
  {
    sanitize(modules[i].rawName) == name && file in modules[i].files
  }

  /** The owner table of the given modules: each of their files, under the name of a module listing it. */
  ghost predicate Owners(seen: map<string, string>, modules: seq<Assignment>, sanitize: string -> string) {
    && (forall f | f in seen ::
          seen[f] != "" && exists i :: 0 <= i < |modules| && Lists(modules, i, sanitize, seen[f], f))
    && (forall i, f | 0 <= i < |modules| && f in modules[i].files :: f in seen)
  }

  /** What each error says is so. */
  ghost predicate Explains(filtered: seq<string>, modules: seq<Assignment>,
                           sanitize: string -> string, e: FilterError) {
    match e
    case EmptyFiltered => !exists f :: IsFiltered(filtered, f)
    case EmptyName => exists i :: 0 <= i < |modules| && sanitize(modules[i].rawName) == ""
    case DuplicateName(name) =>
      exists i, j :: 0 <= i < j < |modules| && sanitize(modules[i].rawName) == name == sanitize(modules[j].rawName)
    case EmptyModule(name) =>
      exists i :: 0 <= i < |modules| && sanitize(modules[i].rawName) == name && modules[i].files == []
    case UnknownFile(name, f) =>
      !IsFiltered(filtered, f) && exists i :: 0 <= i < |modules| && Lists(modules, i, sanitize, name, f)
    case TwoOwners(f, first, second) =>
      exists i, j ::
        0 <= i < j < |modules| && Lists(modules, i, sanitize, first, f) && Lists(modules, j, sanitize, second, f)
  }

  ghost predicate ClaimError(name: string, files: seq<string>, filteredSet: set<string>, seen: map<string, string>,
                             e: FilterError) {
    match e
    case UnknownFile(n, f) => n == name && f in files && f !in filteredSet
    case TwoOwners(f, first, second) => second == name && f in files && f in seen && seen[f] == first
    case _ => false
  }

  /** The owner table with these files under this name. */
  function Claim(seen: map<string, string>, files: seq<string>, name: string): map<string, string> {
    seen + map f | f in files :: name
  }

  lemma ClaimOneMore(seen: map<string, string>, files: seq<string>, f: string, name: string)
    ensures Claim(seen, files + [f], name) == Claim(seen, files, name)[f := name]
  {
  }

  method ClaimFiles(name: string, files: seq<string>, filteredSet: set<string>, seen: map<string, string>)
    returns (r: Result<map<string, string>, FilterError>)
    requires forall f | f in seen :: seen[f] != "" && seen[f] != name
    ensures r.Ok? <==> forall f | f in files :: f in filteredSet && f !in seen
    ensures r.Ok? ==> r.value == Claim(seen, files, name)
    ensures r.Err? ==> ClaimError(name, files, filteredSet, seen, r.error)
  {
    var owners := seen;
    for k := 0 to |files|
      invariant forall f | f in files[..k] :: f in filteredSet && f !in seen
      invariant owners == Claim(seen, files[..k], name)
    {
      var f := files[k];
      assert files[..k + 1] == files[..k] + [f];
      ClaimOneMore(seen, files[..k], f, name);
      if f !in filteredSet {
        return Err(UnknownFile(name, f));
      }
      if f in owners && owners[f] != "" && owners[f] != name {
        return Err(TwoOwners(f, owners[f], name));
      }
      owners := owners[f := name];
    }
    assert files[..|files|] == files;
    return Ok(owners);
  }

  lemma OwnersSnoc(seen: map<string, string>, before: seq<Assignment>, next: Assignment, sanitize: string -> string)
    requires Owners(seen, before, sanitize) && sanitize(next.rawName) != ""
    ensures Owners(Claim(seen, next.files, sanitize(next.rawName)), before + [next], sanitize)
  {
    var all, name := before + [next], sanitize(next.rawName);
    var after := Claim(seen, next.files, name);
    assert forall f :: f in after <==> f in seen || f in next.files;
    forall f | f in after ensures after[f] != "" && exists i :: 0 <= i < |all| && Lists(all, i, sanitize, after[f], f) {
      if f in next.files {
        assert Lists(all, |before|, sanitize, name, f);
      } else {
        var i :| 0 <= i < |before| && Lists(before, i, sanitize, seen[f], f);
        assert Lists(all, i, sanitize, seen[f], f);
      }
    }
    forall i, f | 0 <= i < |all| && f in all[i].files ensures f in after {
      if i < |before| { assert f in before[i].files; }
    }
  }

  ghost function CleanNames(modules: seq<Assignment>, n: nat, sanitize: string -> string): set<string>
    requires n <= |modules|
  {
    set j | 0 <= j < n :: sanitize(modules[j].rawName)
  }

  /** What the loop checks of its next module. */
  ghost predicate Checked(filteredSet: set<string>, seen: map<string, string>, names: set<string>, files: seq<string>,
                          name: string) {
    name != "" && name !in names && files != [] && forall f | f in files :: f in filteredSet && f !in seen
  }

  lemma CheckedIff(filtered: seq<string>, modules: seq<Assignment>, i: nat, seen: map<string, string>,
                   sanitize: string -> string)
    requires i < |modules| && ValidAssignment(filtered, modules[..i], sanitize)
    requires Owners(seen, modules[..i], sanitize)
    ensures var ok := Checked(FilteredSet(filtered), seen, CleanNames(modules, i, sanitize), modules[i].files,
                              sanitize(modules[i].rawName));
            && (ok ==> ValidAssignment(filtered, modules[..i + 1], sanitize))
            && (!ok ==> !ValidAssignment(filtered, modules, sanitize))
  {
  }

  ghost predicate ModuleError(name: string, files: seq<string>, filteredSet: set<string>, seen: map<string, string>,
                              names: set<string>, e: FilterError) {
    match e
    case EmptyName => name == ""
    case DuplicateName(n) => n == name && name in names
    case EmptyModule(n) => n == name && files == []
    case _ => ClaimError(name, files, filteredSet, seen, e)
  }

  /** The body of the loop. */
  method CheckModule(name: string, files: seq<string>, filteredSet: set<string>, seen: map<string, string>,
                     names: set<string>) returns (r: Result<map<string, string>, FilterError>)
    requires forall f | f in seen :: seen[f] in names && seen[f] != ""
    ensures r.Ok? <==> Checked(filteredSet, seen, names, files, name)
    ensures r.Ok? ==> r.value == Claim(seen, files, name)
    ensures r.Err? ==> ModuleError(name, files, filteredSet, seen, names, r.error)
  {
    if name == "" {
      return Err(EmptyName);
    }
    if name in names {
      return Err(DuplicateName(name));
    }
    if files == [] {
      return Err(EmptyModule(name));
    }
    r := ClaimFiles(name, files, filteredSet, seen);
  }

  lemma ClaimExplains(filtered: seq<string>, modules: seq<Assignment>, i: nat, seen: map<string, string>,
                      sanitize: string -> string, e: FilterError)
    requires i < |modules| && Owners(seen, modules[..i], sanitize)
    requires ClaimError(sanitize(modules[i].rawName), modules[i].files, FilteredSet(filtered), seen, e)
    ensures Explains(filtered, modules, sanitize, e)
  {
    match e
    case UnknownFile(name, f) => assert Lists(modules, i, sanitize, name, f);
    case TwoOwners(f, first, second) =>
      var k :| 0 <= k < |modules[..i]| && Lists(modules[..i], k, sanitize, first, f);
      assert Lists(modules, k, sanitize, first, f) && Lists(modules, i, sanitize, second, f);
  }

  lemma ErrorExplains(filtered: seq<string>, modules: seq<Assignment>, i: nat, seen: map<string, string>,
                      sanitize: string -> string, e: FilterError)
    requires i < |modules| && Owners(seen, modules[..i], sanitize)
    requires ModuleError(sanitize(modules[i].rawName), modules[i].files, FilteredSet(filtered), seen,
                         CleanNames(modules, i, sanitize), e)
    ensures Explains(filtered, modules, sanitize, e)
  {
    if e.UnknownFile? || e.TwoOwners? { ClaimExplains(filtered, modules, i, seen, sanitize, e); }
  }

  /** The first i modules are valid, and the tables hold their names and files. */
  ghost predicate Seen(filtered: seq<string>, modules: seq<Assignment>, i: nat, seen: map<string, string>,
                       names: set<string>, sanitize: string -> string) {
    && i <= |modules| && ValidAssignment(filtered, modules[..i], sanitize)
    && names == CleanNames(modules, i, sanitize)
    && Owners(seen, modules[..i], sanitize)
  }

  lemma SeenOneMore(filtered: seq<string>, modules: seq<Assignment>, i: nat, seen: map<string, string>,
                    names: set<string>, sanitize: string -> string)
    requires i < |modules| && Seen(filtered, modules, i, seen, names, sanitize)
    requires Checked(FilteredSet(filtered), seen, names, modules[i].files, sanitize(modules[i].rawName))
    ensures var name := sanitize(modules[i].rawName);
            Seen(filtered, modules, i + 1, Claim(seen, modules[i].files, name), names + {name}, sanitize)
  {
    CheckedIff(filtered, modules, i, seen, sanitize);
    assert modules[..i + 1] == modules[..i] + [modules[i]];
    OwnersSnoc(seen, modules[..i], modules[i], sanitize);
    assert CleanNames(modules, i + 1, sanitize) == names + {sanitize(modules[i].rawName)};
  }

  lemma OwnersAreSeen(modules: seq<Assignment>, i: nat, seen: map<string, string>, sanitize: string -> string)
    requires i <= |modules| && Owners(seen, modules[..i], sanitize)
    ensures forall f | f in seen :: seen[f] in CleanNames(modules, i, sanitize) && seen[f] != ""
  {
    forall f | f in seen ensures seen[f] in CleanNames(modules, i, sanitize) {
      var k :| 0 <= k < |modules[..i]| && Lists(modules[..i], k, sanitize, seen[f], f);
    }
  }

  lemma Refused(filtered: seq<string>, modules: seq<Assignment>, i: nat, seen: map<string, string>,
                names: set<string>, sanitize: string -> string, e: FilterError)
    requires i < |modules| && Seen(filtered, modules, i, seen, names, sanitize)
    requires !Checked(FilteredSet(filtered), seen, names, modules[i].files, sanitize(modules[i].rawName))
    requires ModuleError(sanitize(modules[i].rawName), modules[i].files, FilteredSet(filtered), seen, names, e)
    ensures !ValidAssignment(filtered, modules, sanitize) && Explains(filtered, modules, sanitize, e)
  {
    CheckedIff(filtered, modules, i, seen, sanitize);
    ErrorExplains(filtered, modules, i, seen, sanitize, e);
  }

  /** Accepts exactly the assignments in which the cleaned names are non-empty and distinct and every
      module is a non-empty selection of filtered files, no file in two modules. */
  method ValidateFilterOutputs(filtered: seq<string>, modules: seq<Assignment>, sanitize: string -> string)
    returns (r: Result<(), FilterError>)
    ensures r.Ok? <==> ValidAssignment(filtered, modules, sanitize)
    ensures r.Err? ==> Explains(filtered, modules, sanitize, r.error)
  {
    var filteredSet := FilteredSet(filtered);
    assert forall f :: f in filteredSet <==> IsFiltered(filtered, f);
    if filteredSet == {} {
      return Err(EmptyFiltered);
    }
    var seenFiles: map<string, string> := map[];
    var seenModules: set<string> := {};
    for i := 0 to |modules|
      invariant Seen(filtered, modules, i, seenFiles, seenModules, sanitize)
    {
      var module_ := modules[i];
      var name := sanitize(module_.rawName);
      OwnersAreSeen(modules, i, seenFiles, sanitize);
      var checked := CheckModule(name, module_.files, filteredSet, seenFiles, seenModules);
      if checked.Err? {
        Refused(filtered, modules, i, seenFiles, seenModules, sanitize, checked.error);
        return Err(checked.error);
      }
      SeenOneMore(filtered, modules, i, seenFiles, seenModules, sanitize);
      seenFiles := checked.value;
      seenModules := seenModules + {name};
    }
    assert modules[..|modules|] == modules;
    return Ok(());
  }
}
