/** app/pipeline/evaluation.py: the round recorder, its files on disk, and resuming from them after a
    crash at any point of a write. */
module Evaluation {
  import opened Results
  import opened Sequences

  /** The module name that a record stores; `keyOf` below is safe_module_key on such names. */
  function StoredName(name: Option<string>): string {
    if name.None? || name.value == "" then "__task__" else name.value
  }

  /** A reloaded record falls under the same key as the call that wrote it. */
  lemma StoredNameStable(name: Option<string>)
    ensures StoredName(Some(StoredName(name))) == StoredName(name)
  {
  }

  // ---------- records ----------

  /** token_usage_to_dict. */
  datatype Usage = Usage(input: int, output: int, cacheRead: int, cacheWrite: int, cost: real)

  const NO_USAGE := Usage(0, 0, 0, 0, 0.0)

  function Plus(a: Usage, b: Usage): Usage {
    Usage(a.input + b.input, a.output + b.output, a.cacheRead + b.cacheRead, a.cacheWrite + b.cacheWrite,
          a.cost + b.cost)
  }

  function Sum(items: seq<Usage>): Usage {
    if items == [] then NO_USAGE else Plus(Sum(Init(items)), Last(items))
  }

  predicate Spends(before: Usage, usage: Usage, after: Usage) {
    && after.input == before.input + usage.input
    && after.output == before.output + usage.output
    && after.cacheRead == before.cacheRead + usage.cacheRead
    && after.cacheWrite == before.cacheWrite + usage.cacheWrite
    && after.cost == before.cost + usage.cost
  }

  /** The totals before each item and after the last. */
  ghost predicate Running(start: Usage, items: seq<Usage>, sums: seq<Usage>) {
    && |sums| == |items| + 1 && sums[0] == start
    && forall i, j {:trigger items[i], sums[j]} | 0 <= i < |items| && j == i + 1 :: Spends(sums[i], items[i], sums[j])
  }

  /** Every field of every item is added once. */
  ghost predicate Adds(start: Usage, items: seq<Usage>, total: Usage) {
    exists sums :: Running(start, items, sums) && Last(sums) == total
  }

  lemma {:induction false} RunningIsSum(start: Usage, items: seq<Usage>, sums: seq<Usage>)
    requires Running(start, items, sums)
    ensures Last(sums) == Plus(start, Sum(items))
  {
    if items != [] {
      var k := |items| - 1;
      RunningIsSum(start, Init(items), Init(sums));
      assert Spends(sums[k], items[k], sums[k + 1]);
    }
  }

  lemma {:induction false} SumIsRunning(start: Usage, items: seq<Usage>) returns (sums: seq<Usage>)
    ensures Running(start, items, sums) && Last(sums) == Plus(start, Sum(items))
  {
    sums := [start];
    if items != [] {
      var before := SumIsRunning(start, Init(items));
      sums := before + [Plus(start, Sum(items))];
      forall i, j | 0 <= i < |items| && j == i + 1 ensures Spends(sums[i], items[i], sums[j]) {
        if j < |items| { assert Spends(before[i], Init(items)[i], before[j]); }
      }
    }
  }

  lemma AddsIff(start: Usage, items: seq<Usage>, total: Usage)
    ensures Adds(start, items, total) <==> total == Plus(start, Sum(items))
  {
    if sums :| Running(start, items, sums) && Last(sums) == total { RunningIsSum(start, items, sums); }
    var sums := SumIsRunning(start, items);
  }

  /** merge_token_usage. */
  method MergeTokenUsage(items: seq<Usage>) returns (total: Usage)
    ensures total == Sum(items) && Adds(Usage(0, 0, 0, 0, 0.0), items, total)
  {
    total := NO_USAGE;
    for i := 0 to |items|
      invariant total == Sum(items[..i])
    {
      assert Init(items[..i + 1]) == items[..i] && Last(items[..i + 1]) == items[i];
      var usage := items[i];
      total := Usage(total.input + usage.input, total.output + usage.output, total.cacheRead + usage.cacheRead,
                     total.cacheWrite + usage.cacheWrite, total.cost + usage.cost);
    }
    assert items[..|items|] == items;
    AddsIff(Usage(0, 0, 0, 0, 0.0), items, total);
  }

  /** token_count. */
  function TokenCount(usage: Usage): int {
    usage.input + usage.output + usage.cacheRead + usage.cacheWrite
  }

  datatype Judge = Judge(score: int, passed: bool, usage: Usage)
  datatype Scores = Scores(avg: real, passRate: real)

  /** One call of record_round; `details` stands for the fields that are only carried into the record: times,
      status, models, feedback, artifact paths. */
  datatype Call = Call(
    moduleName: Option<string>, stage: string, stageRound: int, worker: Usage, judges: seq<Judge>, details: string)

  datatype Record = Record(
    round: nat, moduleName: string, stage: string, stageRound: int, scores: Scores,
    scoreDelta: Option<real>, passRateDelta: Option<real>, usage: Usage, tokens: int, tokensPerScorePoint: Option<real>,
    details: string)

  type Key = (string, string)

  function Total(judges: seq<Judge>): int {
    if judges == [] then 0 else Total(Init(judges)) + Last(judges).score
  }

  function Passes(judges: seq<Judge>): nat {
    if judges == [] then 0 else Passes(Init(judges)) + if Last(judges).passed then 1 else 0
  }

  function ScoresOf(judges: seq<Judge>): Scores {
    if judges == [] then Scores(0.0, 0.0)
    else Scores(Total(judges) as real / |judges| as real, Passes(judges) as real / |judges| as real)
  }

  /** The usage of the worker and then of each judge. */
  function Usages(c: Call): seq<Usage> {
    [c.worker] + seq(|c.judges|, i requires 0 <= i < |c.judges| => c.judges[i].usage)
  }

  function PerScorePoint(tokens: int, avg: real): Option<real> {
    if avg > 0.0 then Some(tokens as real / avg) else None
  }

  /** The recorder's memory: the last round number, the records, the latest scores by module and stage. */
  datatype Memory = Memory(round: nat, records: seq<Record>, previous: map<Key, Scores>)

  function CallKey(c: Call, keyOf: string -> string): Key {
    (keyOf(StoredName(c.moduleName)), c.stage)
  }

  function RecordKey(r: Record, keyOf: string -> string): Key {
    (keyOf(StoredName(Some(r.moduleName))), r.stage)
  }

  function RecordWith(mem: Memory, c: Call, usage: Usage, keyOf: string -> string): Record {
    var scores, key := ScoresOf(c.judges), CallKey(c, keyOf);
    var known := key in mem.previous;
    Record(mem.round + 1, StoredName(c.moduleName), c.stage, c.stageRound, scores,
           if known then Some(scores.avg - mem.previous[key].avg) else None,
           if known then Some(scores.passRate - mem.previous[key].passRate) else None,
           usage, TokenCount(usage), PerScorePoint(TokenCount(usage), scores.avg), c.details)
  }

  function NewRecord(mem: Memory, c: Call, keyOf: string -> string): Record {
    RecordWith(mem, c, Sum(Usages(c)), keyOf)
  }

  function Recorded(mem: Memory, c: Call, keyOf: string -> string): Memory {
    var r := NewRecord(mem, c, keyOf);
    Memory(mem.round + 1, mem.records + [r], mem.previous[CallKey(c, keyOf) := r.scores])
  }

  function LatestScores(records: seq<Record>, keyOf: string -> string): map<Key, Scores> {
    if records == [] then map[]
    else LatestScores(Init(records), keyOf)[RecordKey(Last(records), keyOf) := Last(records).scores]
  }

  // ---------- what a record says, on the inputs alone ----------

  ghost function PassingJudges(judges: seq<Judge>): set<nat> {
    set i: nat | i < |judges| && judges[i].passed
  }

  lemma {:induction false} PassesCount(judges: seq<Judge>)
    ensures Passes(judges) == |PassingJudges(judges)|
  {
    if judges == [] {
      assert PassingJudges(judges) == {};
    } else {
      var k: nat := |judges| - 1;
      PassesCount(Init(judges));
      assert PassingJudges(judges) == PassingJudges(Init(judges)) + (if judges[k].passed then {k} else {});
    }
  }

  ghost predicate RunningScore(judges: seq<Judge>, sums: seq<int>) {
    && |sums| == |judges| + 1 && sums[0] == 0
    && forall i, j {:trigger judges[i], sums[j]} | 0 <= i < |judges| && j == i + 1 ::
         sums[j] == sums[i] + judges[i].score
  }

  ghost predicate ScoresTo(judges: seq<Judge>, total: int) {
    exists sums :: RunningScore(judges, sums) && Last(sums) == total
  }

  lemma {:induction false} TotalIsRunning(judges: seq<Judge>) returns (sums: seq<int>)
    ensures RunningScore(judges, sums) && Last(sums) == Total(judges)
  {
    sums := [0];
    if judges != [] {
      var before := TotalIsRunning(Init(judges));
      sums := before + [Total(judges)];
      forall i, j | 0 <= i < |judges| && j == i + 1 ensures sums[j] == sums[i] + judges[i].score {
        if j < |judges| { assert before[j] == before[i] + Init(judges)[i].score; }
      }
    }
  }

  /** The average times the number of judges is the sum of their scores, the pass rate times it the number of
      judges that pass; without judges both are 0. */
  ghost predicate Averages(scores: Scores, judges: seq<Judge>) {
    if judges == [] then scores == Scores(0.0, 0.0)
    else
      && (exists total {:trigger ScoresTo(judges, total)} ::
            ScoresTo(judges, total) && scores.avg * |judges| as real == total as real)
      && scores.passRate * |judges| as real == |PassingJudges(judges)| as real
  }

  lemma Times(a: real, n: real)
    requires n != 0.0
    ensures a / n * n == a
  {
  }

  lemma ScoresTimes(judges: seq<Judge>)
    requires judges != []
    ensures ScoresOf(judges).avg * |judges| as real == Total(judges) as real
    ensures ScoresOf(judges).passRate * |judges| as real == Passes(judges) as real
  {
    Times(Total(judges) as real, |judges| as real);
    Times(Passes(judges) as real, |judges| as real);
  }

  lemma ScoresAverage(judges: seq<Judge>)
    ensures Averages(ScoresOf(judges), judges)
  {
    if judges != [] {
      PassesCount(judges);
      ScoresTimes(judges);
      var sums := TotalIsRunning(judges);
      AveragesWith(ScoresOf(judges), judges, Total(judges));
    }
  }

  lemma AveragesWith(scores: Scores, judges: seq<Judge>, total: int)
    requires judges != [] && ScoresTo(judges, total) && scores.avg * |judges| as real == total as real
    requires scores.passRate * |judges| as real == |PassingJudges(judges)| as real
    ensures Averages(scores, judges)
  {
  }

  ghost predicate LatestAt(records: seq<Record>, i: nat, key: Key, keyOf: string -> string) {
    && i < |records| && RecordKey(records[i], keyOf) == key
    && forall j | i < j < |records| :: RecordKey(records[j], keyOf) != key
  }

  /** The table has the keys of the records, each with the scores of its latest record. */
  lemma {:induction false} LatestScoresOf(records: seq<Record>, key: Key, keyOf: string -> string)
    ensures key in LatestScores(records, keyOf) <==> exists r :: r in records && RecordKey(r, keyOf) == key
    ensures forall i: nat | LatestAt(records, i, key, keyOf) ::
              key in LatestScores(records, keyOf) && LatestScores(records, keyOf)[key] == records[i].scores
  {
    if records != [] {
      var k := |records| - 1;
      LatestScoresOf(Init(records), key, keyOf);
      InitLast(records);
      if RecordKey(records[k], keyOf) == key {
        assert records[k] in records;
      } else {
        forall i: nat | LatestAt(records, i, key, keyOf) ensures LatestAt(Init(records), i, key, keyOf) {}
      }
    }
  }

  /** A delta is there exactly when an earlier record has the key, and leads from the latest one's value to this
      record's. */
  ghost predicate Compares(r: Record, records: seq<Record>, key: Key, keyOf: string -> string) {
    && (r.scoreDelta.Some? <==> exists e :: e in records && RecordKey(e, keyOf) == key)
    && (r.passRateDelta.Some? <==> exists e :: e in records && RecordKey(e, keyOf) == key)
    && forall i: nat | LatestAt(records, i, key, keyOf) :: Advances(records[i].scores, r)
  }

  ghost predicate Advances(before: Scores, r: Record) {
    && r.scoreDelta.Some? && before.avg + r.scoreDelta.value == r.scores.avg
    && r.passRateDelta.Some? && before.passRate + r.passRateDelta.value == r.scores.passRate
  }

  ghost function JudgeUsages(judges: seq<Judge>): seq<Usage> {
    seq(|judges|, i requires 0 <= i < |judges| => judges[i].usage)
  }

  /** The usage is the worker's and the judges' together, the tokens are its four counts, and there are tokens per
      score point only for a positive average. */
  ghost predicate Accounts(r: Record, c: Call) {
    && Adds(c.worker, JudgeUsages(c.judges), r.usage)
    && r.tokens == r.usage.input + r.usage.output + r.usage.cacheRead + r.usage.cacheWrite
    && (r.tokensPerScorePoint.Some? <==> r.scores.avg > 0.0)
    && (r.scores.avg > 0.0 ==> r.tokensPerScorePoint.value * r.scores.avg == r.tokens as real)
  }

  /** What the record of call c says when these records came before it. */
  ghost predicate Describes(r: Record, c: Call, round: nat, records: seq<Record>, keyOf: string -> string) {
    && r.round == round + 1
    && r.moduleName == (if c.moduleName.GetOr("") == "" then "__task__" else c.moduleName.value)
    && r.stage == c.stage && r.stageRound == c.stageRound && r.details == c.details
    && Averages(r.scores, c.judges)
    && Compares(r, records, (keyOf(r.moduleName), r.stage), keyOf)
    && Accounts(r, c)
  }

  lemma SumOfCall(c: Call)
    ensures Sum(Usages(c)) == Plus(c.worker, Sum(JudgeUsages(c.judges)))
  {
    assert Usages(c) == [c.worker] + JudgeUsages(c.judges);
    SumConcat([c.worker], JudgeUsages(c.judges));
    assert Init([c.worker]) == [] && Last([c.worker]) == c.worker;
  }

  lemma PerScorePointIs(tokens: int, avg: real)
    ensures PerScorePoint(tokens, avg).Some? <==> avg > 0.0
    ensures avg > 0.0 ==> PerScorePoint(tokens, avg).value * avg == tokens as real
  {
    if avg > 0.0 { Times(tokens as real, avg); }
  }

  lemma NewRecordAccounts(mem: Memory, c: Call, keyOf: string -> string)
    ensures Accounts(NewRecord(mem, c, keyOf), c)
  {
    var usage := Sum(Usages(c));
    SumOfCall(c);
    AddsIff(c.worker, JudgeUsages(c.judges), usage);
    AccountsWith(mem, c, usage, keyOf);
  }

  lemma AccountsWith(mem: Memory, c: Call, usage: Usage, keyOf: string -> string)
    requires Adds(c.worker, JudgeUsages(c.judges), usage)
    ensures Accounts(RecordWith(mem, c, usage, keyOf), c)
  {
    PerScorePointIs(TokenCount(usage), ScoresOf(c.judges).avg);
  }

  lemma NewRecordCompares(mem: Memory, c: Call, keyOf: string -> string)
    requires mem.previous == LatestScores(mem.records, keyOf)
    ensures Compares(NewRecord(mem, c, keyOf), mem.records, CallKey(c, keyOf), keyOf)
  {
    LatestScoresOf(mem.records, CallKey(c, keyOf), keyOf);
  }

  lemma {:induction false} RecordDescribes(mem: Memory, c: Call, keyOf: string -> string)
    requires mem.previous == LatestScores(mem.records, keyOf)
    ensures Describes(NewRecord(mem, c, keyOf), c, mem.round, mem.records, keyOf)
  {
    var r := NewRecord(mem, c, keyOf);
    ScoresAverage(c.judges);
    NewRecordCompares(mem, c, keyOf);
    NewRecordAccounts(mem, c, keyOf);
    StoredNameStable(c.moduleName);
    assert (keyOf(r.moduleName), r.stage) == CallKey(c, keyOf);
  }

  // ---------- the disk ----------

  /** A JSON file: a record of this run, or one that loading skips, being unreadable or another run's. */
  datatype Stored = Kept(record: Record) | Skipped

  /** round_<n>/: its JSON files and leftover temporary files. */
  datatype RoundDir = RoundDir(json: map<string, Stored>, tmp: set<string>)

  type Disk = map<nat, RoundDir>

  /** Where the process dies: before or after creating the directory, after writing the temporary file,
      after the atomic replace, or not at all. */
  datatype CrashPoint = BeforeMkdir | AfterMkdir | AfterTmp | AfterReplace | NoCrash

  function FileName(c: Call, keyOf: string -> string): string {
    keyOf(StoredName(c.moduleName)) + "." + keyOf(StoredName(Some(c.stage))) + ".json"
  }

  /** The round directory after mkdir (which accepts an existing one), the temporary file and the replace. */
  function WrittenDir(dir: RoundDir, file: string, r: Record, crash: CrashPoint): RoundDir {
    if crash.AfterMkdir? then dir
    else if crash.AfterTmp? then dir.(tmp := dir.tmp + {file})
    else RoundDir(dir.json[file := Kept(r)], dir.tmp - {file})
  }

  const EMPTY_DIR := RoundDir(map[], {})

  function Written(disk: Disk, n: nat, file: string, r: Record, crash: CrashPoint): Disk {
    if crash.BeforeMkdir? then disk
    else disk[n := WrittenDir(if n in disk then disk[n] else EMPTY_DIR, file, r, crash)]
  }

  ghost function RecordsIn(files: map<string, Stored>): set<Record> {
    set f | f in files && files[f].Kept? :: files[f].record
  }

  ghost function AllRecords(disk: Disk): set<Record> {
    set n, r | n in disk && r in RecordsIn(disk[n].json) :: r
  }

  /** At most one record, with this round number; any number of skipped files. */
  ghost predicate OneRecord(files: map<string, Stored>, n: nat) {
    && (forall f, g | f in files && g in files && files[f].Kept? && files[g].Kept? :: f == g)
    && (forall f | f in files && files[f].Kept? :: files[f].record.round == n)
  }

  /** What the recorder itself leaves on disk: positive round numbers, at most one record each, with that number;
      skipped files may lie beside it. */
  ghost predicate OwnDisk(disk: Disk) {
    forall n | n in disk :: n > 0 && OneRecord(disk[n].json, n)
  }

  /** The highest round number, 0 for an empty directory. */
  ghost predicate IsHighest(n: nat, numbers: set<nat>) {
    (n == 0 || n in numbers) && forall m | m in numbers :: m <= n
  }

  ghost predicate ByRound(records: seq<Record>) {
    forall i, j | 0 <= i < j < |records| :: records[i].round <= records[j].round
  }

  ghost predicate StrictlyByRound(records: seq<Record>) {
    forall i, j | 0 <= i < j < |records| :: records[i].round < records[j].round
  }

  /** Memory and disk agree: the memory holds exactly the durable records, in round order, the scores they
      imply, and the highest round number ever given a directory. */
  ghost predicate Agrees(mem: Memory, disk: Disk, keyOf: string -> string) {
    HoldsAll(mem.round, mem.records, disk) && mem.previous == LatestScores(mem.records, keyOf)
  }

  ghost predicate HoldsAll(round: nat, records: seq<Record>, disk: Disk) {
    && OwnDisk(disk)
    && IsHighest(round, disk.Keys)
    && StrictlyByRound(records) && Elems(records) == AllRecords(disk)
  }

  lemma {:induction false} StrictOrderUnique(a: seq<Record>, b: seq<Record>)
    requires StrictlyByRound(a) && StrictlyByRound(b) && Elems(a) == Elems(b)
    ensures a == b
    decreases |a|
  {
    assert a != [] ==> Last(a) in Elems(a);
    assert b != [] ==> Last(b) in Elems(b);
    if a != [] {
      LastIsHighest(a, Last(b));
      LastIsHighest(b, Last(a));
      InitElems(a);
      InitElems(b);
      assert Elems(Init(a)) == Elems(Init(b));
      StrictOrderUnique(Init(a), Init(b));
      assert a == Init(a) + [Last(a)] && b == Init(b) + [Last(b)];
    }
  }

  lemma LastIsHighest(a: seq<Record>, r: Record)
    requires StrictlyByRound(a) && r in a
    ensures r.round <= Last(a).round && (r.round == Last(a).round ==> r == Last(a))
  {
  }

  lemma InitElems(a: seq<Record>)
    requires StrictlyByRound(a) && a != []
    ensures Elems(Init(a)) == Elems(a) - {Last(a)}
  {
  }

  /** Memory is a function of the disk: two memories that agree with one disk are equal. */
  lemma AgreementUnique(a: Memory, b: Memory, disk: Disk, keyOf: string -> string)
    requires Agrees(a, disk, keyOf) && Agrees(b, disk, keyOf)
    ensures a == b
  {
    StrictOrderUnique(a.records, b.records);
  }

  // ---------- one call, and whole runs with crashes ----------

  predicate Durable(crash: CrashPoint) {
    crash.AfterReplace? || crash.NoCrash?
  }

  /** The memory that a call leaves to the next process, or keeps when it does not crash. */
  function Survivor(mem: Memory, c: Call, crash: CrashPoint, keyOf: string -> string): Memory {
    if Durable(crash) then Recorded(mem, c, keyOf)
    else if crash.BeforeMkdir? then mem
    else mem.(round := mem.round + 1)
  }

  function CallDisk(disk: Disk, mem: Memory, c: Call, crash: CrashPoint, keyOf: string -> string): Disk {
    Written(disk, mem.round + 1, FileName(c, keyOf), NewRecord(mem, c, keyOf), crash)
  }

  /** A new round directory with the given files adds exactly their records. */
  lemma NewDirRecords(disk: Disk, n: nat, dir: RoundDir)
    requires n !in disk
    ensures AllRecords(disk[n := dir]) == AllRecords(disk) + RecordsIn(dir.json)
  {
    var after := disk[n := dir];
    forall x | x in AllRecords(disk) ensures x in AllRecords(after) {
      var m :| m in disk && x in RecordsIn(disk[m].json);
      assert after[m] == disk[m];
    }
    forall x | x in RecordsIn(dir.json) ensures x in AllRecords(after) {
      assert after[n] == dir;
    }
  }

  lemma AddRecord(round: nat, records: seq<Record>, disk: Disk, file: string, r: Record)
    requires HoldsAll(round, records, disk) && r.round == round + 1
    ensures HoldsAll(round + 1, records + [r], disk[round + 1 := RoundDir(map[file := Kept(r)], {})])
  {
    var dir := RoundDir(map[file := Kept(r)], {});
    NewDirRecords(disk, round + 1, dir);
    assert file in dir.json && dir.json[file] == Kept(r);
    assert RecordsIn(dir.json) == {r};
    ElemsConcat(records, [r]);
    RecordsBelow(round, records, disk);
  }

  lemma AddEmptyDir(round: nat, records: seq<Record>, disk: Disk, tmp: set<string>)
    requires HoldsAll(round, records, disk)
    ensures HoldsAll(round + 1, records, disk[round + 1 := RoundDir(map[], tmp)])
  {
    NewDirRecords(disk, round + 1, RoundDir(map[], tmp));
  }

  lemma FreshDir(file: string, r: Record, crash: CrashPoint)
    ensures WrittenDir(EMPTY_DIR, file, r, crash)
         == if crash.AfterMkdir? then EMPTY_DIR
            else if crash.AfterTmp? then RoundDir(map[], {file})
            else RoundDir(map[file := Kept(r)], {})
  {
  }

  /** Writing record r at a crash point: it becomes durable, or only its number is used up, or nothing happens. */
  lemma WriteHolds(round: nat, records: seq<Record>, disk: Disk, r: Record, file: string, crash: CrashPoint)
    requires HoldsAll(round, records, disk) && r.round == round + 1
    ensures HoldsAll(if crash.BeforeMkdir? then round else round + 1,
                     if Durable(crash) then records + [r] else records,
                     Written(disk, round + 1, file, r, crash))
  {
    assert round + 1 !in disk;
    FreshDir(file, r, crash);
    match crash
    case BeforeMkdir =>
    case AfterMkdir => AddEmptyDir(round, records, disk, {});
    case AfterTmp => AddEmptyDir(round, records, disk, {file});
    case _ => AddRecord(round, records, disk, file, r);
  }

  lemma LatestOneMore(records: seq<Record>, r: Record, keyOf: string -> string)
    ensures LatestScores(records + [r], keyOf) == LatestScores(records, keyOf)[RecordKey(r, keyOf) := r.scores]
  {
    assert Init(records + [r]) == records;
  }

  /** A record falls under the key of its call. */
  lemma KeyOfRecord(mem: Memory, c: Call, keyOf: string -> string)
    ensures RecordKey(NewRecord(mem, c, keyOf), keyOf) == CallKey(c, keyOf)
    ensures NewRecord(mem, c, keyOf).round == mem.round + 1
  {
    StoredNameStable(c.moduleName);
  }

  /** Whatever the crash point, the surviving memory is the one that agrees with the disk left behind. */
  lemma {:induction false} CallAgrees(mem: Memory, disk: Disk, c: Call, crash: CrashPoint, keyOf: string -> string)
    requires Agrees(mem, disk, keyOf)
    ensures Agrees(Survivor(mem, c, crash, keyOf), CallDisk(disk, mem, c, crash, keyOf), keyOf)
  {
    var r := NewRecord(mem, c, keyOf);
    KeyOfRecord(mem, c, keyOf);
    SurvivorAgrees(mem, disk, r, CallKey(c, keyOf), FileName(c, keyOf), crash, keyOf);
  }

  lemma {:induction false} SurvivorAgrees(mem: Memory, disk: Disk, r: Record, key: Key, file: string, crash: CrashPoint,
                       keyOf: string -> string)
    requires Agrees(mem, disk, keyOf) && r.round == mem.round + 1 && RecordKey(r, keyOf) == key
    ensures var z := if Durable(crash) then Memory(mem.round + 1, mem.records + [r], mem.previous[key := r.scores])
                     else if crash.BeforeMkdir? then mem else mem.(round := mem.round + 1);
            Agrees(z, Written(disk, mem.round + 1, file, r, crash), keyOf)
  {
    WriteHolds(mem.round, mem.records, disk, r, file, crash);
    LatestOneMore(mem.records, r, keyOf);
  }

  lemma RecordsBelow(round: nat, records: seq<Record>, disk: Disk)
    requires HoldsAll(round, records, disk)
    ensures forall r | r in records :: r.round <= round
  {
    forall r | r in records ensures r.round <= round {
      assert r in Elems(records);
    }
  }

  /** The system over time: the recorder's memory and the disk. */
  datatype Sys = Sys(mem: Memory, disk: Disk)

  datatype Op = Op(c: Call, crash: CrashPoint)

  /** A process that crashed is restarted with any memory that agrees with the disk it finds. */
  ghost predicate Follows(y: Sys, op: Op, z: Sys, keyOf: string -> string) {
    && z.disk == CallDisk(y.disk, y.mem, op.c, op.crash, keyOf)
    && if op.crash.NoCrash? then z.mem == Recorded(y.mem, op.c, keyOf) else Agrees(z.mem, z.disk, keyOf)
  }

  ghost predicate Follow(trace: seq<Sys>, ops: seq<Op>, keyOf: string -> string) {
    && |trace| == |ops| + 1
    && forall i | 0 <= i < |ops| :: Follows(trace[i], ops[i], trace[i + 1], keyOf)
  }

  /** The recorder without a disk: a call that crashed before its replace only uses up its number. */
  function Ideal(mem: Memory, ops: seq<Op>, keyOf: string -> string): Memory {
    if ops == [] then mem else Survivor(Ideal(mem, Init(ops), keyOf), Last(ops).c, Last(ops).crash, keyOf)
  }

  /** Crash-resume refinement: over any calls with any crashes, resumed recorders hold exactly what the
      ideal recorder holds - the durable records in round order, the same previous scores, the same
      round counter - so every later record, its deltas included, is the same too. */
  lemma {:induction false} ResumeRefines(trace: seq<Sys>, ops: seq<Op>, keyOf: string -> string)
    requires Follow(trace, ops, keyOf) && Agrees(trace[0].mem, trace[0].disk, keyOf)
    ensures Last(trace).mem == Ideal(trace[0].mem, ops, keyOf)
    ensures Agrees(Last(trace).mem, Last(trace).disk, keyOf)
    decreases |ops|
  {
    if ops != [] {
      ResumeRefines(Init(trace), Init(ops), keyOf);
      var y, z, op := trace[|ops| - 1], Last(trace), Last(ops);
      assert Follows(y, op, z, keyOf) && Last(Init(trace)) == y;
      CallAgrees(y.mem, y.disk, op.c, op.crash, keyOf);
      if !op.crash.NoCrash? {
        AgreementUnique(z.mem, Survivor(y.mem, op.c, op.crash, keyOf), z.disk, keyOf);
      }
    }
  }

  /** No round number is reused: a call after the start writes a number that no directory had, and all
      durable records have different numbers. */
  lemma {:induction false} RoundsAreFresh(trace: seq<Sys>, ops: seq<Op>, i: nat, keyOf: string -> string)
    requires Follow(trace, ops, keyOf) && Agrees(trace[0].mem, trace[0].disk, keyOf) && i < |ops|
    ensures NewRecord(trace[i].mem, ops[i].c, keyOf).round !in trace[i].disk
    ensures trace[i].disk.Keys <= trace[i + 1].disk.Keys
    ensures StrictlyByRound(trace[i].mem.records)
  {
    assert Follow(trace[..i + 1], ops[..i], keyOf);
    ResumeRefines(trace[..i + 1], ops[..i], keyOf);
    assert Follows(trace[i], ops[i], trace[i + 1], keyOf);
    assert Last(trace[..i + 1]) == trace[i];
  }

  lemma {:induction false} CallRecords(mem: Memory, disk: Disk, c: Call, crash: CrashPoint, keyOf: string -> string)
    requires Agrees(mem, disk, keyOf)
    ensures AllRecords(CallDisk(disk, mem, c, crash, keyOf))
         == AllRecords(disk) + (if Durable(crash) then {NewRecord(mem, c, keyOf)} else {})
  {
    var r := NewRecord(mem, c, keyOf);
    CallAgrees(mem, disk, c, crash, keyOf);
    SurvivorRecords(mem, c, crash, keyOf);
    ElemsConcat(mem.records, [r]);
    assert Elems([r]) == {r};
  }

  /** Over any calls with any crashes and resumes, a durable call adds one record to the disk, which says of the call
      and of the records on the disk before it what it should; any other call adds none. */
  lemma {:induction false} ResumedRecords(trace: seq<Sys>, ops: seq<Op>, i: nat, keyOf: string -> string)
    requires Follow(trace, ops, keyOf) && Agrees(trace[0].mem, trace[0].disk, keyOf) && i < |ops|
    ensures var before, r := trace[i].mem.records, NewRecord(trace[i].mem, ops[i].c, keyOf);
            && HoldsAll(trace[i].mem.round, before, trace[i].disk)
            && AllRecords(trace[i + 1].disk) == AllRecords(trace[i].disk) + (if Durable(ops[i].crash) then {r} else {})
            && Describes(r, ops[i].c, trace[i].mem.round, before, keyOf)
  {
    var y, op := trace[i], ops[i];
    assert Follow(trace[..i + 1], ops[..i], keyOf);
    ResumeRefines(trace[..i + 1], ops[..i], keyOf);
    assert Last(trace[..i + 1]) == y;
    assert Follows(y, op, trace[i + 1], keyOf);
    RecordDescribes(y.mem, op.c, keyOf);
    CallRecords(y.mem, y.disk, op.c, op.crash, keyOf);
  }

  // ---------- loading ----------

  ghost predicate Distinct(records: seq<Record>) {
    forall i, j | 0 <= i < j < |records| :: records[i].round != records[j].round
  }

  ghost function Rounds(records: seq<Record>): set<nat> {
    set r | r in records :: r.round
  }

  lemma SnocOrder(s: seq<Record>, r: Record)
    requires ByRound(s) && forall x | x in s :: x.round <= r.round
    ensures ByRound(s + [r])
    ensures Distinct(s) && r.round !in Rounds(s) ==> Distinct(s + [r])
  {
  }

  /** Putting the highest record back behind the others keeps order and contents. */
  lemma InsertBelow(records: seq<Record>, r: Record, s: seq<Record>)
    requires records != [] && ByRound(records) && r.round < Last(records).round
    requires ByRound(s) && Elems(s) == Elems(Init(records)) + {r}
    requires Distinct(records) && r.round !in Rounds(records) ==> Distinct(s)
    ensures ByRound(s + [Last(records)]) && Elems(s + [Last(records)]) == Elems(records) + {r}
    ensures Distinct(records) && r.round !in Rounds(records) ==> Distinct(s + [Last(records)])
  {
    var last := Last(records);
    InitLast(records);
    ElemsConcat(Init(records), [last]);
    ElemsConcat(s, [last]);
    forall x | x in s ensures x.round <= last.round {
      assert x in Elems(s);
    }
    if Distinct(records) {
      forall x | x in s ensures x.round != last.round {
        assert x in Elems(s);
      }
    }
    SnocOrder(s, last);
  }

  function InsertByRound(records: seq<Record>, r: Record): (s: seq<Record>)
    requires ByRound(records)
    ensures ByRound(s) && Elems(s) == Elems(records) + {r}
    ensures Distinct(records) && r.round !in Rounds(records) ==> Distinct(s)
  {
    if records == [] || Last(records).round <= r.round then
      ElemsConcat(records, [r]);
      SnocOrder(records, r);
      records + [r]
    else
      var s := InsertByRound(Init(records), r);
      InsertBelow(records, r, s);
      s + [Last(records)]
  }

  lemma SortStep(records: seq<Record>, s: seq<Record>)
    requires records != [] && Elems(s) == Elems(Init(records))
    ensures Elems(records) == Elems(s) + {Last(records)}
    ensures Distinct(records) ==> Distinct(Init(records)) && Last(records).round !in Rounds(s)
  {
    InitLast(records);
    ElemsConcat(Init(records), [Last(records)]);
    forall x | x in s ensures x in Init(records) {
      assert x in Elems(s);
    }
  }

  /** records.sort(key=round): by round number, equal numbers in their old order. */
  function SortByRound(records: seq<Record>): (s: seq<Record>)
    ensures ByRound(s) && Elems(s) == Elems(records)
    ensures Distinct(records) ==> StrictlyByRound(s)
  {
    if records == [] then []
    else
      var s := SortByRound(Init(records));
      SortStep(records, s);
      InsertByRound(s, Last(records))
  }

  lemma {:induction false} InsertedOnce(records: seq<Record>, r: Record)
    requires ByRound(records)
    ensures multiset(InsertByRound(records, r)) == multiset(records) + multiset{r}
  {
    if records == [] || Last(records).round <= r.round {
      BagSnoc(records, r);
    } else {
      InsertedOnce(Init(records), r);
      BagSnoc(InsertByRound(Init(records), r), Last(records));
      BagSnoc(Init(records), Last(records));
      InitLast(records);
    }
  }

  lemma {:induction false} PermutationStep(records: seq<Record>, s: seq<Record>)
    requires records != [] && ByRound(s) && multiset(s) == multiset(Init(records))
    ensures multiset(InsertByRound(s, Last(records))) == multiset(records)
  {
    InsertedOnce(s, Last(records));
    assert records == Init(records) + [Last(records)];
  }

  /** Sorting neither drops nor repeats a record. */
  lemma {:induction false} SortedIsPermutation(records: seq<Record>)
    ensures multiset(SortByRound(records)) == multiset(records)
  {
    if records != [] {
      SortedIsPermutation(Init(records));
      PermutationStep(records, SortByRound(Init(records)));
    }
  }

  /** A directory round_* that no recorder names so: without a number, or with one of fewer digits. */
  datatype OtherDir = OtherDir(number: Option<nat>, json: map<string, Stored>)

  ghost function OtherRecords(others: seq<OtherDir>): set<Record> {
    set d, r | d in others && r in RecordsIn(d.json) :: r
  }

  ghost function OtherNumbers(others: seq<OtherDir>): set<nat> {
    set d | d in others && d.number.Some? :: d.number.value
  }

  /** The run directory on disk, which outlives any recorder. */
  class RunDirectory {
    var disk: Disk
    const others: seq<OtherDir>

    constructor (disk: Disk, others: seq<OtherDir>)
      ensures this.disk == disk && this.others == others
    {
      this.disk, this.others := disk, others;
    }
  }

  class EvaluationRecorder {
    const dir: RunDirectory
    const keyOf: string -> string
    var round: nat
    var records: seq<Record>
    var previous: map<Key, Scores>

    ghost function View(): Memory
      reads this
    {
      Memory(round, records, previous)
    }

    /** _load_existing_records, with the directories and files met in any order. */
    constructor (dir: RunDirectory, keyOf: string -> string)
      ensures this.dir == dir && this.keyOf == keyOf
      ensures ByRound(records) && Elems(records) == AllRecords(dir.disk) + OtherRecords(dir.others)
      ensures previous == LatestScores(records, keyOf)
      ensures IsHighest(round, dir.disk.Keys + OtherNumbers(dir.others) + Rounds(records))
      ensures OwnDisk(dir.disk) && dir.others == [] ==> Agrees(View(), dir.disk, keyOf)
    {
      this.dir, this.keyOf := dir, keyOf;
      round, records, previous := 0, [], map[];
      new;
      var own, ownHighest := ReadAllRounds(dir.disk);
      var found, highest := ReadOthers(dir.others, own, ownHighest, dir.disk.Keys);
      records := SortByRound(found);
      round, previous := Replay(records, dir.disk.Keys + OtherNumbers(dir.others), highest, keyOf);
      if OwnDisk(dir.disk) && dir.others == [] {
        assert OtherNumbers(dir.others) == {} && OtherRecords(dir.others) == {};
        OwnRounds(records, dir.disk, round);
      }
    }

    /** _atomic_write_json inside its round directory: mkdir, temporary file, replace. */
    method AtomicWriteJson(n: nat, file: string, r: Record, crash: CrashPoint)
      requires !crash.BeforeMkdir?
      modifies dir
      ensures dir.disk == Written(old(dir.disk), n, file, r, crash)
    {
      if n !in dir.disk {
        dir.disk := dir.disk[n := EMPTY_DIR];
      }
      if crash.AfterMkdir? {
        return;
      }
      var d := dir.disk[n];
      dir.disk := dir.disk[n := d.(tmp := d.tmp + {file})];
      if crash.AfterTmp? {
        return;
      }
      dir.disk := dir.disk[n := RoundDir(d.json[file := Kept(r)], d.tmp - {file})];
    }

    /** record_round, dying at the given point; without a crash the memory goes on with the new record. */
    method RecordRound(c: Call, crash: CrashPoint) returns (r: Record)
      modifies this, dir
      ensures r == NewRecord(old(View()), c, keyOf)
      ensures old(previous) == LatestScores(old(records), keyOf) ==> Describes(r, c, old(round), old(records), keyOf)
      ensures dir.disk == CallDisk(old(dir.disk), old(View()), c, crash, keyOf)
      ensures crash.NoCrash? ==> View() == Recorded(old(View()), c, keyOf)
    {
      var mem := Memory(round, records, previous);
      ghost var disk := dir.disk;
      var usage := MergeTokenUsage(Usages(c));
      r := RecordWith(mem, c, usage, keyOf);
      if mem.previous == LatestScores(mem.records, keyOf) { RecordDescribes(mem, c, keyOf); }
      assert r.round == mem.round + 1;
      round := round + 1;
      if crash.BeforeMkdir? {
        assert CallDisk(disk, mem, c, crash, keyOf) == disk;
        return;
      }
      var file := FileName(c, keyOf);
      AtomicWriteJson(round, file, r, crash);
      assert dir.disk == CallDisk(disk, mem, c, crash, keyOf);
      if !crash.NoCrash? {
        return;
      }
      records := records + [r];
      previous := previous[CallKey(c, keyOf) := r.scores];
    }

    /** The usage total of write_summary: the sum over the records' own totals. */
    method TotalUsage() returns (total: Usage, tokens: int)
      ensures total == Sum(RecordUsages(records)) && tokens == TokenCount(total)
    {
      total := MergeTokenUsage(RecordUsages(records));
      tokens := TokenCount(total);
    }
  }

  function RecordUsages(records: seq<Record>): seq<Usage> {
    seq(|records|, i requires 0 <= i < |records| => records[i].usage)
  }

  /** The usages of the workers and judges of the calls that became durable, call by call. */
  function DurableUsages(ops: seq<Op>): seq<Usage> {
    if ops == [] then []
    else DurableUsages(Init(ops)) + DurableUsage(Last(ops))
  }

  lemma PlusAssoc(a: Usage, b: Usage, c: Usage)
    ensures Plus(a, Plus(b, c)) == Plus(Plus(a, b), c)
  {
  }

  lemma {:induction false} SumConcat(a: seq<Usage>, b: seq<Usage>)
    ensures Sum(a + b) == Plus(Sum(a), Sum(b))
  {
    if b == [] {
      assert a + b == a;
    } else {
      assert Init(a + b) == a + Init(b) && Last(a + b) == Last(b);
      SumConcat(a, Init(b));
      PlusAssoc(Sum(a), Sum(Init(b)), Last(b));
    }
  }

  lemma SumSnoc(records: seq<Record>, r: Record)
    ensures Sum(RecordUsages(records + [r])) == Plus(Sum(RecordUsages(records)), r.usage)
  {
    assert Init(RecordUsages(records + [r])) == RecordUsages(records);
  }

  function DurableUsage(op: Op): seq<Usage> {
    if Durable(op.crash) then Usages(op.c) else []
  }

  lemma SurvivorRecords(mem: Memory, c: Call, crash: CrashPoint, keyOf: string -> string)
    ensures Survivor(mem, c, crash, keyOf).records
         == if Durable(crash) then mem.records + [NewRecord(mem, c, keyOf)] else mem.records
  {
  }

  lemma NewRecordUsage(mem: Memory, c: Call, keyOf: string -> string)
    ensures NewRecord(mem, c, keyOf).usage == Sum(Usages(c))
  {
  }

  lemma PlusNone(a: Usage)
    ensures Plus(a, Sum([])) == a
  {
  }

  lemma {:induction false} CallTotals(mem: Memory, op: Op, keyOf: string -> string)
    ensures Sum(RecordUsages(Survivor(mem, op.c, op.crash, keyOf).records))
         == Plus(Sum(RecordUsages(mem.records)), Sum(DurableUsage(op)))
  {
    SurvivorRecords(mem, op.c, op.crash, keyOf);
    NewRecordUsage(mem, op.c, keyOf);
    SumSnoc(mem.records, NewRecord(mem, op.c, keyOf));
    PlusNone(Sum(RecordUsages(mem.records)));
  }

  /** No token is lost or counted twice: the total over the records is the sum over every worker and judge of the
      durable calls. */
  lemma {:induction false} TotalsAdd(mem: Memory, ops: seq<Op>, keyOf: string -> string)
    ensures Sum(RecordUsages(Ideal(mem, ops, keyOf).records))
         == Plus(Sum(RecordUsages(mem.records)), Sum(DurableUsages(ops)))
  {
    if ops != [] {
      var first, rest := Sum(RecordUsages(mem.records)), DurableUsages(Init(ops));
      TotalsAdd(mem, Init(ops), keyOf);
      CallTotals(Ideal(mem, Init(ops), keyOf), Last(ops), keyOf);
      SumConcat(rest, DurableUsage(Last(ops)));
      PlusAssoc(first, Sum(rest), Sum(DurableUsage(Last(ops))));
    }
  }

  /** The same for recorders that crash and resume from disk. */
  lemma {:induction false} ResumedTotals(trace: seq<Sys>, ops: seq<Op>, keyOf: string -> string)
    requires Follow(trace, ops, keyOf) && Agrees(trace[0].mem, trace[0].disk, keyOf)
    ensures Sum(RecordUsages(Last(trace).mem.records))
         == Plus(Sum(RecordUsages(trace[0].mem.records)), Sum(DurableUsages(ops)))
  {
    ResumeRefines(trace, ops, keyOf);
    TotalsAdd(trace[0].mem, ops, keyOf);
  }

  method ReadAllRounds(disk: Disk) returns (found: seq<Record>, highest: nat)
    ensures Elems(found) == AllRecords(disk) && IsHighest(highest, disk.Keys)
    ensures OwnDisk(disk) ==> Distinct(found)
  {
    found, highest := [], 0;
    var todo := disk.Keys;
    while todo != {}
      invariant todo <= disk.Keys
      invariant Elems(found) == AllRecords(disk - todo)
      invariant IsHighest(highest, disk.Keys - todo)
      invariant OwnDisk(disk) ==> Distinct(found)
      decreases |todo|
    {
      var n :| n in todo;
      HighestOf(highest, disk.Keys - todo, n);
      assert disk.Keys - todo + {n} == disk.Keys - (todo - {n});
      highest := if n > highest then n else highest;
      if OwnDisk(disk) { OtherRounds(disk, todo, n, found); }
      found := ReadRound(found, disk[n].json);
      OneRoundMore(disk, todo, n);
      todo := todo - {n};
    }
    assert disk - todo == disk;
  }

  method ReadOthers(others: seq<OtherDir>, found: seq<Record>, highest: nat, ghost numbers: set<nat>)
    returns (all: seq<Record>, most: nat)
    requires IsHighest(highest, numbers)
    ensures Elems(all) == Elems(found) + OtherRecords(others)
    ensures IsHighest(most, numbers + OtherNumbers(others))
    ensures others == [] ==> all == found
  {
    all, most := found, highest;
    for i := 0 to |others|
      invariant Elems(all) == Elems(found) + OtherRecords(others[..i])
      invariant IsHighest(most, numbers + OtherNumbers(others[..i]))
      invariant i == 0 ==> all == found
    {
      var d := others[i];
      OtherOneMore(others, i);
      if d.number.Some? {
        HighestOf(most, numbers + OtherNumbers(others[..i]), d.number.value);
        assert numbers + OtherNumbers(others[..i]) + {d.number.value} == numbers + OtherNumbers(others[..i + 1]);
        most := if d.number.value > most then d.number.value else most;
      }
      all := ReadRound(all, d.json);
    }
    assert others[..|others|] == others;
  }

  lemma OtherOneMore(others: seq<OtherDir>, i: nat)
    requires i < |others|
    ensures OtherRecords(others[..i + 1]) == OtherRecords(others[..i]) + RecordsIn(others[i].json)
    ensures OtherNumbers(others[..i + 1])
         == OtherNumbers(others[..i]) + (if others[i].number.Some? then {others[i].number.value} else {})
  {
    var before, after := others[..i], others[..i + 1];
    assert after == before + [others[i]];
    assert others[i] in after;
    forall d ensures d in after <==> d in before || d == others[i] {}
  }

  lemma OtherRounds(disk: Disk, todo: set<nat>, n: nat, found: seq<Record>)
    requires OwnDisk(disk) && n in todo && todo <= disk.Keys && Elems(found) == AllRecords(disk - todo)
    ensures NewRounds(found, disk[n].json)
  {
    forall r | r in found ensures r.round != n {
      assert r in Elems(found);
      var m :| m in disk - todo && r in RecordsIn((disk - todo)[m].json);
      assert OneRecord(disk[m].json, m);
    }
    assert OneRecord(disk[n].json, n);
  }

  /** The second loop: the highest number and the latest scores of the sorted records. */
  method Replay(records: seq<Record>, ghost numbers: set<nat>, start: nat, keyOf: string -> string)
    returns (highest: nat, previous: map<Key, Scores>)
    requires IsHighest(start, numbers)
    ensures IsHighest(highest, numbers + Rounds(records)) && previous == LatestScores(records, keyOf)
  {
    highest, previous := start, map[];
    for i := 0 to |records|
      invariant previous == LatestScores(records[..i], keyOf)
      invariant IsHighest(highest, numbers + Rounds(records[..i]))
    {
      var r := records[i];
      OneRecordMore(records, i, keyOf);
      HighestOf(highest, numbers + Rounds(records[..i]), r.round);
      assert numbers + Rounds(records[..i]) + {r.round} == numbers + Rounds(records[..i + 1]);
      highest := if r.round > highest then r.round else highest;
      previous := previous[RecordKey(r, keyOf) := r.scores];
    }
    assert records[..|records|] == records;
  }

  lemma OneRecordMore(records: seq<Record>, i: nat, keyOf: string -> string)
    requires i < |records|
    ensures Rounds(records[..i + 1]) == Rounds(records[..i]) + {records[i].round}
    ensures LatestScores(records[..i + 1], keyOf)
         == LatestScores(records[..i], keyOf)[RecordKey(records[i], keyOf) := records[i].scores]
  {
    assert records[..i + 1] == records[..i] + [records[i]];
    assert Init(records[..i + 1]) == records[..i] && Last(records[..i + 1]) == records[i];
  }

  lemma OwnRounds(records: seq<Record>, disk: Disk, highest: nat)
    requires OwnDisk(disk) && Elems(records) == AllRecords(disk) && IsHighest(highest, disk.Keys + Rounds(records))
    ensures IsHighest(highest, disk.Keys)
  {
    forall r | r in records ensures r.round in disk.Keys {
      assert r in Elems(records);
    }
  }

  lemma HighestOf(highest: nat, numbers: set<nat>, n: nat)
    requires IsHighest(highest, numbers)
    ensures IsHighest(if n > highest then n else highest, numbers + {n})
  {
  }

  lemma OneRoundMore(disk: Disk, todo: set<nat>, n: nat)
    requires n in disk && n in todo
    ensures AllRecords(disk - (todo - {n})) == AllRecords(disk - todo) + RecordsIn(disk[n].json)
  {
    var fewer := disk - todo;
    assert disk - (todo - {n}) == fewer[n := disk[n]];
    NewDirRecords(fewer, n, disk[n]);
  }

  ghost predicate NewRounds(found: seq<Record>, files: map<string, Stored>) {
    && (forall f, g | f in files && g in files && files[f].Kept? && files[g].Kept? :: f == g)
    && (forall f | f in files && files[f].Kept? :: files[f].record.round !in Rounds(found))
  }

  ghost function RecordsAmong(files: map<string, Stored>, names: set<string>): set<Record> {
    set f | f in names && f in files && files[f].Kept? :: files[f].record
  }

  /** The files in `done` are read; a single record of a new round keeps the rounds distinct. */
  ghost predicate ReadSoFar(found: seq<Record>, all: seq<Record>, files: map<string, Stored>, done: set<string>) {
    && Elems(all) == Elems(found) + RecordsAmong(files, done)
    && (Distinct(found) && NewRounds(found, files) ==>
          Distinct(all) && (RecordsAmong(files, done) == {} ==> all == found))
  }

  lemma ReadOneFile(found: seq<Record>, all: seq<Record>, files: map<string, Stored>, done: set<string>, f: string)
    requires ReadSoFar(found, all, files, done) && f in files && f !in done
    ensures ReadSoFar(found, if files[f].Kept? then all + [files[f].record] else all, files, done + {f})
  {
    OneFileMore(files, done, f);
    if files[f].Kept? {
      AddElem(all, Elems(found), RecordsAmong(files, done), files[f].record);
      if Distinct(found) && NewRounds(found, files) { OnlyRecord(found, files, done, f); }
    }
  }

  /** The JSON files of one round directory, met in any order. */
  method ReadRound(found: seq<Record>, files: map<string, Stored>) returns (all: seq<Record>)
    ensures Elems(all) == Elems(found) + RecordsIn(files)
    ensures Distinct(found) && NewRounds(found, files) ==> Distinct(all)
  {
    all := found;
    var todo := files.Keys;
    ghost var done: set<string> := {};
    assert RecordsAmong(files, done) == {};
    while todo != {}
      invariant done + todo == files.Keys && done !! todo
      invariant ReadSoFar(found, all, files, done)
      decreases |todo|
    {
      var f :| f in todo;
      MoveOne(done, todo, files.Keys, f);
      ReadOneFile(found, all, files, done, f);
      if files[f].Kept? {
        all := all + [files[f].record];
      }
      done := done + {f};
      todo := todo - {f};
    }
    AmongAll(files);
  }

  lemma AddElem(all: seq<Record>, a: set<Record>, b: set<Record>, r: Record)
    requires Elems(all) == a + b
    ensures Elems(all + [r]) == a + (b + {r})
  {
    ElemsConcat(all, [r]);
  }

  lemma AmongAll(files: map<string, Stored>)
    ensures RecordsAmong(files, files.Keys) == RecordsIn(files)
  {
  }

  /** The one record of a directory comes first, and its round is new. */
  lemma OnlyRecord(found: seq<Record>, files: map<string, Stored>, done: set<string>, f: string)
    requires Distinct(found) && NewRounds(found, files) && f in files && files[f].Kept? && f !in done
    ensures RecordsAmong(files, done) == {} && Distinct(found + [files[f].record])
  {
    assert forall x | x in found :: x.round in Rounds(found);
  }

  lemma OneFileMore(files: map<string, Stored>, done: set<string>, f: string)
    requires f in files
    ensures RecordsAmong(files, done + {f})
         == RecordsAmong(files, done) + if files[f].Kept? then {files[f].record} else {}
  {
  }
}
