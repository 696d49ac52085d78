/** app/dispatcher.py: startup reset, the database-to-queue pump and the stale scan, as atomic steps between
    arbitrary steps of workers and users. */
module Dispatcher {
  import opened Results
  import opened Sequences

  const STALE_HEARTBEAT_SECONDS := 120.0

  datatype Status = Pending | Running | Other(name: string)

  /** The columns of AppSaTask that the dispatcher reads or writes. */
  datatype Row = Row(taskId: string, status: Status, deleted: bool, createdAt: real, celeryId: Option<string>,
                     owner: Option<string>, leaseUntil: Option<real>, dispatch: Option<string>,
                     heartbeat: Option<real>)

  /** The committed task rows, and every message ever published with the row id it was published for. */
  datatype State = State(rows: seq<Row>, published: set<(string, string)>)

  // ---------- what a step does to one row ----------

  predicate Unfinished(row: Row) {
    !row.deleted && (row.status.Pending? || row.status.Running?)
  }

  /** The filter of the pump. */
  predicate Eligible(row: Row) {
    row.status.Pending? && !row.deleted && row.celeryId.None?
  }

  function Released(row: Row): Row {
    row.(celeryId := None, owner := None, leaseUntil := None, dispatch := None)
  }

  function StartupRow(row: Row): Row {
    if row.deleted then row
    else if row.status.Running? then Released(row).(status := Pending)
    else if row.status.Pending? && row.celeryId.Some? then Released(row)
    else row
  }

  /** Reported active, with a heartbeat no older than the threshold. */
  predicate Alive(row: Row, active: set<string>, now: real) {
    && row.celeryId.Some? && row.celeryId.value in active
    && row.heartbeat.Some? && now - row.heartbeat.value <= STALE_HEARTBEAT_SECONDS
  }

  predicate Orphan(row: Row, active: set<string>, now: real) {
    row.status.Running? && !row.deleted && !Alive(row, active, now)
  }

  function StaleRow(row: Row, active: set<string>, now: real): Row {
    if Orphan(row, active, now) then Released(row).(status := Pending) else row
  }

  // ---------- the pump's query and its outcome ----------

  /** An answer of the pump's query: the oldest eligible rows, at most `limit`, oldest first; rows of the same
      age come in any order. */
  ghost predicate Answer(rows: seq<Row>, picked: seq<nat>, limit: nat) {
    && (forall k | 0 <= k < |picked| :: picked[k] < |rows| && Eligible(rows[picked[k]]))
    && Distinct(picked)
    && (forall j, k | 0 <= j < k < |picked| :: rows[picked[j]].createdAt <= rows[picked[k]].createdAt)
    && |picked| <= limit
    && (forall i, k | 0 <= i < |rows| && Eligible(rows[i]) && i !in picked && 0 <= k < |picked| ::
          rows[picked[k]].createdAt <= rows[i].createdAt)
    && ((exists i :: 0 <= i < |rows| && Eligible(rows[i]) && i !in picked) ==> |picked| == limit)
  }

  /** How publishing one row ends: the broker refuses, the commit after it fails, or both succeed. */
  datatype Attempt = Refused | NotCommitted(id: string) | Committed(id: string)

  /** The attempts up to and without the first failure. */
  function Successes(attempts: seq<Attempt>): (n: nat)
    ensures n <= |attempts|
    ensures forall k | 0 <= k < n :: attempts[k].Committed?
    ensures n < |attempts| ==> !attempts[n].Committed?
  {
    if attempts == [] || !attempts[0].Committed? then 0 else 1 + Successes(attempts[1..])
  }

  /** The first n picked rows carry their message ids and every other row is as before. */
  ghost predicate IdsStored(before: seq<Row>, after: seq<Row>, picked: seq<nat>, attempts: seq<Attempt>, n: nat)
    requires n <= |picked| == |attempts|
    requires forall k | 0 <= k < n :: attempts[k].Committed?
    requires Within(picked, |before|)
  {
    && |after| == |before|
    && (forall k | 0 <= k < n :: after[picked[k]] == before[picked[k]].(celeryId := Some(attempts[k].id)))
    && (forall i | 0 <= i < |before| && i !in picked[..n] :: after[i] == before[i])
  }

  /** The messages of the first n attempts. */
  ghost function Sent(rows: seq<Row>, picked: seq<nat>, attempts: seq<Attempt>, n: nat): set<(string, string)>
    requires n <= |picked| == |attempts|
    requires Within(picked, |rows|)
  {
    set k: nat | k < n && !attempts[k].Refused? :: (attempts[k].id, rows[picked[k]].taskId)
  }

  ghost predicate Distinct(picked: seq<nat>) {
    forall j, k | 0 <= j < k < |picked| :: picked[j] != picked[k]
  }

  ghost predicate Within(picked: seq<nat>, n: nat) {
    forall k | 0 <= k < |picked| :: picked[k] < n
  }

  /** The rows and messages after the attempts: they stop at the first failure, whose message may be out without
      being stored. */
  ghost predicate Publishes(s: State, t: State, picked: seq<nat>, attempts: seq<Attempt>)
    requires Within(picked, |s.rows|) && |attempts| == |picked|
  {
    var n := Successes(attempts);
    && IdsStored(s.rows, t.rows, picked, attempts, n)
    && t.published == s.published + Sent(s.rows, picked, attempts, if n < |attempts| then n + 1 else n)
  }

  /** One round of the pump. */
  ghost predicate Pumps(s: State, t: State, picked: seq<nat>, attempts: seq<Attempt>, limit: nat) {
    && Answer(s.rows, picked, limit)
    && |attempts| == |picked|
    && Publishes(s, t, picked, attempts)
  }

  // ---------- the dispatcher ----------

  class Process {
    var rows: seq<Row>
    var published: set<(string, string)>

    ghost function View(): State
      reads this
    {
      State(rows, published)
    }

    constructor (rows: seq<Row>, published: set<(string, string)>)
      ensures View() == State(rows, published)
    {
      this.rows, this.published := rows, published;
    }

    /** _startup_reset: two bulk updates and one commit. */
    method StartupReset(commits: bool) returns (started: bool)
      modifies this
      ensures started == commits
      ensures View() == if commits then Startup(old(View())) else old(View())
    {
      var draft := seq(|rows|, i requires 0 <= i < |rows| reads this =>
        if rows[i].status.Running? && !rows[i].deleted
        then rows[i].(status := Pending, celeryId := None, owner := None, leaseUntil := None, dispatch := None)
        else rows[i]);
      draft := seq(|draft|, i requires 0 <= i < |draft| =>
        if draft[i].status.Pending? && !draft[i].deleted && draft[i].celeryId.Some?
        then draft[i].(celeryId := None, owner := None, leaseUntil := None, dispatch := None)
        else draft[i]);
      if !commits {
        return false;
      }
      rows := draft;
      return true;
    }

    /** The loop of _pump_once over the rows of its query. */
    method Publish(picked: seq<nat>, attempts: seq<Attempt>) returns (count: nat)
      requires Distinct(picked) && Within(picked, |rows|) && |attempts| == |picked|
      modifies this
      ensures count == Successes(attempts)
      ensures Publishes(old(View()), View(), picked, attempts)
    {
      ghost var before := View();
      count := 0;
      var draft := rows;
      while count < |picked|
        invariant draft == rows && PublishedSoFar(before, View(), picked, attempts, count)
      {
        var attempt, k := attempts[count], picked[count];
        RowAsBefore(before, View(), picked, attempts, count);
        if attempt.Refused? {
          PublishingStops(before, View(), picked, attempts, count, {});
          assert published + {} == published;
          return;
        }
        ghost var current := View();
        published := published + {(attempt.id, draft[k].taskId)};
        draft := draft[k := draft[k].(celeryId := Some(attempt.id))];
        if attempt.NotCommitted? {
          draft := rows;
          PublishingStops(before, current, picked, attempts, count, {(attempt.id, before.rows[k].taskId)});
          return;
        }
        rows := draft;
        PublishedOneMore(before, current, picked, attempts, count);
        count := count + 1;
      }
    }

    /** _pump_once, given the answer of its query and how each attempt would end. */
    method PumpOnce(picked: seq<nat>, attempts: seq<Attempt>, limit: nat) returns (count: nat)
      requires Answer(rows, picked, limit) && |attempts| == |picked|
      modifies this
      ensures count == Successes(attempts)
      ensures Pumps(old(View()), View(), picked, attempts, limit)
    {
      count := Publish(picked, attempts);
    }

    /** _stale_once, given the workers' answer (none when the inspection fails), the time, and whether the commit
        succeeds; no answer when it raises. */
    method StaleOnce(active: Option<set<string>>, now: real, commits: bool) returns (count: Option<nat>)
      modifies this
      ensures active.None? ==> count == Some(0)
      ensures active.Some? && count.Some? ==> View() == Stale(old(View()), active.value, now)
      ensures active.Some? && count.Some? ==> count.value == |Orphans(old(rows), active.value, now, |old(rows)|)|
      ensures active.None? || count.None? ==> View() == old(View())
      ensures commits ==> count.Some?
    {
      if active.None? {
        return Some(0);
      }
      var n := 0;
      var draft := rows;
      for i := 0 to |rows|
        invariant |draft| == |rows| && rows == old(rows) && published == old(published)
        invariant forall j | 0 <= j < i :: draft[j] == StaleRow(rows[j], active.value, now)
        invariant forall j | i <= j < |rows| :: draft[j] == rows[j]
        invariant n == 0 ==> draft == rows
        invariant n == |Orphans(rows, active.value, now, i)|
      {
        OrphansGrow(rows, active.value, now, i);
        var row := draft[i];
        if row.status.Running? && !row.deleted {
          var inActive := row.celeryId.Some? && row.celeryId.value in active.value;
          var stale := row.heartbeat.None? || now - row.heartbeat.value > STALE_HEARTBEAT_SECONDS;
          if !inActive || stale {
            draft := draft[i := row.(status := Pending, celeryId := None, owner := None, leaseUntil := None,
                                     dispatch := None)];
            n := n + 1;
          }
        }
      }
      if n > 0 {
        if !commits {
          return None;
        }
        rows := draft;
      }
      return Some(n);
    }
  }

  ghost function OrphanAt(rows: seq<Row>, active: set<string>, now: real): nat -> bool {
    i => 0 <= i < |rows| && Orphan(rows[i], active, now)
  }

  /** The running rows among the first n that are not alive. */
  ghost function Orphans(rows: seq<Row>, active: set<string>, now: real, n: nat): set<nat> {
    Below(OrphanAt(rows, active, now), n)
  }

  lemma OrphansGrow(rows: seq<Row>, active: set<string>, now: real, n: nat)
    requires n < |rows|
    ensures |Orphans(rows, active, now, n + 1)| == |Orphans(rows, active, now, n)|
            + (if Orphan(rows[n], active, now) then 1 else 0)
  {
    BelowGrows(OrphanAt(rows, active, now), n);
  }

  lemma NextAttempt(attempts: seq<Attempt>, i: nat)
    requires i <= Successes(attempts) && i < |attempts|
    ensures if attempts[i].Committed? then i < Successes(attempts) else i == Successes(attempts)
  {
  }

  /** Storing the id of the next picked row touches none of the earlier ones. */
  lemma StoredOneMore(before: seq<Row>, mid: seq<Row>, picked: seq<nat>, attempts: seq<Attempt>, n: nat)
    requires n < |picked| == |attempts| && n <= Successes(attempts)
    requires Within(picked, |before|)
    requires Distinct(picked)
    requires IdsStored(before, mid, picked, attempts, n)
    ensures mid[picked[n]] == before[picked[n]]
    ensures n < Successes(attempts) ==>
              IdsStored(before, mid[picked[n] := mid[picked[n]].(celeryId := Some(attempts[n].id))], picked, attempts,
                        n + 1)
  {
    PrefixFresh(picked, n);
    if n < Successes(attempts) {
      var after := mid[picked[n] := mid[picked[n]].(celeryId := Some(attempts[n].id))];
      forall k | 0 <= k < n + 1 ensures after[picked[k]] == before[picked[k]].(celeryId := Some(attempts[k].id)) {
        assert k < n ==> picked[k] != picked[n];
      }
      forall i | 0 <= i < |before| && i !in picked[..n + 1] ensures after[i] == before[i] {
        PrefixGrows(picked, n, i);
      }
    }
  }

  /** The first n attempts succeeded, and their ids are stored. */
  ghost predicate PublishedSoFar(s: State, t: State, picked: seq<nat>, attempts: seq<Attempt>, n: nat)
    requires Within(picked, |s.rows|)
  {
    && n <= |picked| == |attempts| && n <= Successes(attempts)
    && IdsStored(s.rows, t.rows, picked, attempts, n)
    && t.published == s.published + Sent(s.rows, picked, attempts, n)
  }

  lemma RowAsBefore(s: State, t: State, picked: seq<nat>, attempts: seq<Attempt>, n: nat)
    requires Distinct(picked) && Within(picked, |s.rows|) && n < |picked|
    requires PublishedSoFar(s, t, picked, attempts, n)
    ensures picked[n] < |t.rows| && t.rows[picked[n]] == s.rows[picked[n]]
  {
    PrefixFresh(picked, n);
  }

  lemma PublishedOneMore(s: State, t: State, picked: seq<nat>, attempts: seq<Attempt>, n: nat)
    requires Distinct(picked) && Within(picked, |s.rows|) && n < |picked|
    requires PublishedSoFar(s, t, picked, attempts, n) && attempts[n].Committed?
    ensures var k, id := picked[n], attempts[n].id;
            && k < |t.rows|
            && PublishedSoFar(s, State(t.rows[k := t.rows[k].(celeryId := Some(id))],
                                       t.published + {(id, t.rows[k].taskId)}), picked, attempts, n + 1)
  {
    NextAttempt(attempts, n);
    StoredOneMore(s.rows, t.rows, picked, attempts, n);
    SentOneMore(s.rows, picked, attempts, n);
    UnionAssoc(s.published, Sent(s.rows, picked, attempts, n), {(attempts[n].id, s.rows[picked[n]].taskId)});
  }

  /** The first failure ends the round; its message is out unless the broker refused it. */
  lemma PublishingStops(s: State, t: State, picked: seq<nat>, attempts: seq<Attempt>, n: nat,
                        out: set<(string, string)>)
    requires Distinct(picked) && Within(picked, |s.rows|) && n < |picked|
    requires PublishedSoFar(s, t, picked, attempts, n) && !attempts[n].Committed?
    requires out == if attempts[n].Refused? then {} else {(attempts[n].id, s.rows[picked[n]].taskId)}
    ensures n == Successes(attempts) && Publishes(s, State(t.rows, t.published + out), picked, attempts)
  {
    NextAttempt(attempts, n);
    SentOneMore(s.rows, picked, attempts, n);
    UnionAssoc(s.published, Sent(s.rows, picked, attempts, n), out);
  }

  lemma UnionAssoc<T>(a: set<T>, b: set<T>, c: set<T>)
    ensures a + b + c == a + (b + c)
  {
  }

  lemma PrefixGrows<T>(s: seq<T>, n: nat, x: T)
    requires n < |s|
    ensures x in s[..n + 1] <==> x in s[..n] || x == s[n]
  {
  }

  lemma PrefixFresh(picked: seq<nat>, n: nat)
    requires Distinct(picked) && n < |picked|
    ensures picked[n] !in picked[..n]
  {
  }

  lemma SentOneMore(rows: seq<Row>, picked: seq<nat>, attempts: seq<Attempt>, n: nat)
    requires n < |picked| == |attempts|
    requires Within(picked, |rows|)
    ensures Sent(rows, picked, attempts, n + 1) == Sent(rows, picked, attempts, n)
            + (if attempts[n].Refused? then {} else {(attempts[n].id, rows[picked[n]].taskId)})
  {
  }

  // ---------- runs ----------

  ghost function Startup(s: State): State {
    State(seq(|s.rows|, i requires 0 <= i < |s.rows| => StartupRow(s.rows[i])), s.published)
  }

  ghost function Stale(s: State, active: set<string>, now: real): State {
    State(seq(|s.rows|, i requires 0 <= i < |s.rows| => StaleRow(s.rows[i], active, now)), s.published)
  }

  datatype Step =
    | Starts
    | Pump(picked: seq<nat>, attempts: seq<Attempt>, limit: nat)
    | Scan(active: set<string>, now: real)
    | Elsewhere

  /** Workers and users change rows as they like, except that none of them writes a message id: they keep or
      clear it. New rows carry none. */
  ghost predicate ElsewhereChanges(s: State, t: State) {
    && t.published == s.published
    && |s.rows| <= |t.rows|
    && (forall i | 0 <= i < |s.rows| ::
          && t.rows[i].taskId == s.rows[i].taskId
          && t.rows[i].createdAt == s.rows[i].createdAt
          && (t.rows[i].celeryId == s.rows[i].celeryId || t.rows[i].celeryId.None?))
    && (forall i | |s.rows| <= i < |t.rows| :: t.rows[i].celeryId.None?)
  }

  ghost predicate Next(s: State, t: State, step: Step) {
    match step
    case Starts => t == Startup(s)
    case Pump(picked, attempts, limit) => Pumps(s, t, picked, attempts, limit)
    case Scan(active, now) => t == Stale(s, active, now)
    case Elsewhere => ElsewhereChanges(s, t)
  }

  ghost predicate Run(states: seq<State>, steps: seq<Step>) {
    && |states| == |steps| + 1
    && forall k | 0 <= k < |steps| :: Taken(states, steps, k)
  }

  ghost predicate Taken(states: seq<State>, steps: seq<Step>, k: nat)
    requires k < |steps| && |states| == |steps| + 1
  {
    Next(states[k], states[k + 1], steps[k])
  }

  /** Every stored message id names a message published for that task. */
  ghost predicate IdsArePublished(s: State) {
    forall i | 0 <= i < |s.rows| ::
      s.rows[i].celeryId.Some? ==> (s.rows[i].celeryId.value, s.rows[i].taskId) in s.published
  }

  lemma PumpKeepsIds(s: State, t: State, picked: seq<nat>, attempts: seq<Attempt>, limit: nat)
    requires Pumps(s, t, picked, attempts, limit) && IdsArePublished(s)
    ensures IdsArePublished(t)
  {
  }

  lemma StepKeepsIds(s: State, t: State, step: Step)
    requires Next(s, t, step) && IdsArePublished(s)
    ensures IdsArePublished(t) && s.published <= t.published
  {
    if step.Pump? { PumpKeepsIds(s, t, step.picked, step.attempts, step.limit); }
  }

  /** Over every run, whatever fails and whatever the workers do in between. */
  lemma {:induction false} EveryStoredIdWasPublished(states: seq<State>, steps: seq<Step>, k: nat)
    requires Run(states, steps) && IdsArePublished(states[0]) && k < |states|
    ensures IdsArePublished(states[k])
  {
    if k > 0 {
      EveryStoredIdWasPublished(states, steps, k - 1);
      assert Taken(states, steps, k - 1);
      StepKeepsIds(states[k - 1], states[k], steps[k - 1]);
    }
  }

  /** The dispatcher's own steps change no deleted row and no row that is neither pending nor running, and add
      none. */
  lemma FinishedRowsUnchanged(s: State, t: State, step: Step, i: nat)
    requires Next(s, t, step) && !step.Elsewhere? && i < |s.rows| && !Unfinished(s.rows[i])
    ensures |t.rows| == |s.rows| && t.rows[i] == s.rows[i]
  {
  }

  /** After the startup reset no undeleted row is running, and the pump can take every undeleted pending row. */
  lemma StartupLeavesNoneRunning(s: State, i: nat)
    requires i < |s.rows| && !s.rows[i].deleted
    ensures !Startup(s).rows[i].status.Running?
    ensures Startup(s).rows[i].status.Pending? <==> Unfinished(s.rows[i])
    ensures Unfinished(s.rows[i]) <==> Eligible(Startup(s).rows[i])
  {
  }

  /** After a scan every undeleted row still running is alive; the others go back to the pump. */
  lemma ScanLeavesTheLiving(s: State, active: set<string>, now: real, i: nat)
    requires i < |s.rows| && !s.rows[i].deleted && s.rows[i].status.Running?
    ensures var row := Stale(s, active, now).rows[i];
            if Alive(s.rows[i], active, now) then row == s.rows[i] else Eligible(row)
  {
  }

  /** A row handed back: pending, without message id, owner, lease and dispatch token, otherwise as it was. */
  predicate HandedBack(row: Row, after: Row) {
    && after.status == Pending && after.celeryId == None && after.owner == None && after.leaseUntil == None
    && after.dispatch == None && after.taskId == row.taskId && after.deleted == row.deleted
    && after.createdAt == row.createdAt && after.heartbeat == row.heartbeat
  }

  /** The startup hands back the undeleted rows that are running, or pending with a message id, and no others. */
  lemma StartupHandsBack(s: State, i: nat)
    requires i < |s.rows|
    ensures var row, after := s.rows[i], Startup(s).rows[i];
            if !row.deleted && (row.status == Running || (row.status == Pending && row.celeryId != None))
            then HandedBack(row, after) else after == row
    ensures |Startup(s).rows| == |s.rows| && Startup(s).published == s.published
  {
  }

  /** A scan hands back the undeleted running rows, but not those that store the id of an active message and have
      sent a heartbeat in the last 120 seconds. */
  lemma ScanHandsBack(s: State, active: set<string>, now: real, i: nat)
    requires i < |s.rows|
    ensures var row, after := s.rows[i], Stale(s, active, now).rows[i];
            if row.deleted || row.status != Running then after == row
            else if (exists id :: id in active && row.celeryId == Some(id))
                    && (exists beat :: row.heartbeat == Some(beat) && beat + 120.0 >= now) then after == row
            else HandedBack(row, after)
    ensures |Stale(s, active, now).rows| == |s.rows| && Stale(s, active, now).published == s.published
  {
    assert s.rows[i].celeryId.Some? ==> s.rows[i].celeryId == Some(s.rows[i].celeryId.value);
    assert s.rows[i].heartbeat.Some? ==> s.rows[i].heartbeat == Some(s.rows[i].heartbeat.value);
  }

  /** The attempts before number k all succeeded. */
  ghost predicate Reached(attempts: seq<Attempt>, k: nat) {
    k < |attempts| && forall j | 0 <= j < k :: attempts[j].Committed?
  }

  lemma ReachedIff(attempts: seq<Attempt>, k: nat)
    ensures Reached(attempts, k) <==> k < |attempts| && k <= Successes(attempts)
  {
    if k < |attempts| && Successes(attempts) < k { assert !attempts[Successes(attempts)].Committed?; }
  }

  /** Of a pump's rows, one whose attempt is reached and succeeds stores its message's id and changes in nothing
      else; every other row stays as it is, still eligible, even when its commit fails and its message is out. */
  lemma PumpEffect(s: State, t: State, picked: seq<nat>, attempts: seq<Attempt>, limit: nat, k: nat)
    requires Pumps(s, t, picked, attempts, limit) && k < |picked|
    ensures var row, after := s.rows[picked[k]], t.rows[picked[k]];
            && (if Reached(attempts, k) && attempts[k].Committed?
                then after == row.(celeryId := Some(attempts[k].id)) else after == row && Eligible(after))
            && (Reached(attempts, k) && !attempts[k].Refused? ==> (attempts[k].id, row.taskId) in t.published)
  {
    ReachedIff(attempts, k);
    var n := Successes(attempts);
    if Reached(attempts, k) && !attempts[k].Refused? {
      assert (attempts[k].id, s.rows[picked[k]].taskId)
          in Sent(s.rows, picked, attempts, if n < |attempts| then n + 1 else n);
    }
    if picked[k] in picked[..n] {
      var j :| 0 <= j < n && picked[..n][j] == picked[k];
      assert j == k;
    }
  }

  /** A pump touches no other row and sends no other message. */
  lemma PumpTouchesNoOther(s: State, t: State, picked: seq<nat>, attempts: seq<Attempt>, limit: nat)
    requires Pumps(s, t, picked, attempts, limit)
    ensures |t.rows| == |s.rows| && forall i | 0 <= i < |s.rows| && i !in picked :: t.rows[i] == s.rows[i]
    ensures s.published <= t.published
    ensures forall m | m in t.published - s.published :: exists k: nat ::
              Reached(attempts, k) && !attempts[k].Refused? && m == (attempts[k].id, s.rows[picked[k]].taskId)
  {
    var n := Successes(attempts);
    forall m | m in t.published - s.published
      ensures exists k: nat ::
                Reached(attempts, k) && !attempts[k].Refused? && m == (attempts[k].id, s.rows[picked[k]].taskId)
    {
      assert m in Sent(s.rows, picked, attempts, if n < |attempts| then n + 1 else n);
      var k: nat :| k < (if n < |attempts| then n + 1 else n) && !attempts[k].Refused?
                    && m == (attempts[k].id, s.rows[picked[k]].taskId);
      ReachedIff(attempts, k);
    }
  }

  /** The steps from a to b are the dispatcher's own. */
  ghost predicate Undisturbed(states: seq<State>, steps: seq<Step>, a: nat, b: nat) {
    Run(states, steps) && a <= b <= |steps| && forall k | a <= k < b :: !steps[k].Elsewhere?
  }

  /** Finished rows stay as they are until a worker or user changes them, whatever the dispatcher does. */
  lemma {:induction false} FinishedUntilElsewhere(states: seq<State>, steps: seq<Step>, a: nat, b: nat, i: nat)
    requires Undisturbed(states, steps, a, b) && i < |states[a].rows| && !Unfinished(states[a].rows[i])
    ensures |states[b].rows| == |states[a].rows| && states[b].rows[i] == states[a].rows[i]
  {
    if a < b {
      FinishedUntilElsewhere(states, steps, a, b - 1, i);
      assert Taken(states, steps, b - 1);
      FinishedRowsUnchanged(states[b - 1], states[b], steps[b - 1], i);
    }
  }

  /** No undeleted row is running, and a pending one waits for the pump or has had a message published. */
  ghost predicate Restarted(s: State) {
    forall i | 0 <= i < |s.rows| && !s.rows[i].deleted ::
      && !s.rows[i].status.Running?
      && (s.rows[i].status.Pending? ==> Eligible(s.rows[i]) || WasPublished(s, i))
  }

  predicate WasPublished(s: State, i: nat)
    requires i < |s.rows|
  {
    s.rows[i].celeryId.Some? && (s.rows[i].celeryId.value, s.rows[i].taskId) in s.published
  }

  lemma RestartedStep(s: State, t: State, step: Step)
    requires Next(s, t, step) && !step.Elsewhere? && (step.Starts? || Restarted(s))
    ensures Restarted(t)
  {
    if step.Pump? { RestartedPump(s, t, step.picked, step.attempts, step.limit); }
  }

  lemma RestartedPump(s: State, t: State, picked: seq<nat>, attempts: seq<Attempt>, limit: nat)
    requires Pumps(s, t, picked, attempts, limit) && Restarted(s)
    ensures Restarted(t)
  {
    var n := Successes(attempts);
    forall i: nat | i < |t.rows| && !t.rows[i].deleted
      ensures !t.rows[i].status.Running? && (t.rows[i].status.Pending? ==> Eligible(t.rows[i]) || WasPublished(t, i))
    {
      if i in picked[..n] {
        var k: nat :| k < n && picked[..n][k] == i;
        assert picked[k] == i && attempts[k].Committed?;
        assert (attempts[k].id, s.rows[picked[k]].taskId) in Sent(s.rows, picked, attempts, n);
      } else {
        assert t.rows[i] == s.rows[i] && (WasPublished(s, i) ==> WasPublished(t, i));
      }
    }
  }

  /** After a startup, until a worker or user acts, no undeleted row is running and every undeleted pending row
      is still to be published or stores the id of a message that was published for it. */
  lemma {:induction false} RestartHolds(states: seq<State>, steps: seq<Step>, a: nat, b: nat)
    requires Undisturbed(states, steps, a, b) && a < b && steps[a].Starts?
    ensures Restarted(states[b])
  {
    assert Taken(states, steps, b - 1);
    if a < b - 1 { RestartHolds(states, steps, a, b - 1); }
    RestartedStep(states[b - 1], states[b], steps[b - 1]);
  }

  /** The dispatcher has taken these steps without a startup. */
  ghost predicate UpSince(states: seq<State>, steps: seq<Step>, a: nat, b: nat) {
    Undisturbed(states, steps, a, b) && forall k | a <= k < b :: !steps[k].Starts?
  }

  /** The row is pending and stores a message id. */
  predicate Queued(row: Row) {
    row.status.Pending? && !row.deleted && row.celeryId.Some?
  }

  lemma QueuedRowUnchanged(s: State, t: State, step: Step, i: nat)
    requires Next(s, t, step) && !step.Elsewhere? && !step.Starts? && i < |s.rows| && Queued(s.rows[i])
    ensures |t.rows| == |s.rows| && t.rows[i] == s.rows[i]
  {
  }

  /** A pending row with a stored id is touched by no pump and no scan, so one whose message the queue has lost
      waits for the next startup, which hands it to the pump again. */
  lemma {:induction false} LostMessageWaitsForRestart(states: seq<State>, steps: seq<Step>, a: nat, b: nat, i: nat)
    requires UpSince(states, steps, a, b) && i < |states[a].rows| && Queued(states[a].rows[i])
    ensures |states[b].rows| == |states[a].rows| && states[b].rows[i] == states[a].rows[i]
    ensures b < |steps| && steps[b].Starts? ==>
              i < |states[b + 1].rows| && states[b + 1].rows[i] == Released(states[a].rows[i])
              && Eligible(states[b + 1].rows[i])
  {
    if a < b {
      LostMessageWaitsForRestart(states, steps, a, b - 1, i);
      assert Taken(states, steps, b - 1);
      QueuedRowUnchanged(states[b - 1], states[b], steps[b - 1], i);
    }
    if b < |steps| { assert Taken(states, steps, b); }
  }

  /** Every undeleted running row is alive in the eyes of this scan. */
  ghost predicate OnlyTheLiving(s: State, active: set<string>, now: real) {
    forall i | 0 <= i < |s.rows| && !s.rows[i].deleted && s.rows[i].status.Running? :: Alive(s.rows[i], active, now)
  }

  /** After a scan, until a worker or user acts, the undeleted running rows are those it found alive, through
      any pumps, later scans and restarts. */
  lemma {:induction false} ScanHolds(states: seq<State>, steps: seq<Step>, a: nat, b: nat)
    requires Undisturbed(states, steps, a, b) && a < b && steps[a].Scan?
    ensures OnlyTheLiving(states[b], steps[a].active, steps[a].now)
  {
    assert Taken(states, steps, b - 1);
    if a < b - 1 {
      ScanHolds(states, steps, a, b - 1);
      LivingStep(states[b - 1], states[b], steps[b - 1], steps[a].active, steps[a].now);
    }
  }

  lemma LivingStep(s: State, t: State, step: Step, active: set<string>, now: real)
    requires Next(s, t, step) && !step.Elsewhere? && OnlyTheLiving(s, active, now)
    ensures OnlyTheLiving(t, active, now)
  {
    if step.Pump? {
      forall i: nat | i < |t.rows| && t.rows[i].status.Running? ensures t.rows[i] == s.rows[i] {
        assert i in step.picked[..Successes(step.attempts)] <==> t.rows[i] != s.rows[i];
      }
    }
  }

  // ---------- order and waiting ----------

  /** Even when an attempt fails, what a pump stores is the oldest: no row left eligible is older than one that
      got its message. */
  lemma PumpIsOldestFirst(s: State, t: State, picked: seq<nat>, attempts: seq<Attempt>, limit: nat, i: nat, j: nat)
    requires Pumps(s, t, picked, attempts, limit)
    requires i < |s.rows| && j < |s.rows| && Eligible(s.rows[i]) && t.rows[i].celeryId.Some? && Eligible(t.rows[j])
    ensures Eligible(s.rows[j]) && s.rows[i].createdAt <= s.rows[j].createdAt
  {
  }

  /** The eligible rows that may be taken before row i. */
  ghost function Ahead(rows: seq<Row>, i: nat): set<nat>
    requires i < |rows|
  {
    set j: nat | j < |rows| && j != i && Eligible(rows[j]) && rows[j].createdAt <= rows[i].createdAt
  }

  /** Row i is eligible, and the other steps put no row ahead of it. */
  ghost predicate Waits(states: seq<State>, steps: seq<Step>, i: nat)
    requires |states| == |steps| + 1
  {
    && (forall j | 0 <= j < |states| :: i < |states[j].rows| && Eligible(states[j].rows[i]))
    && (forall j | 0 <= j < |steps| && !steps[j].Pump? :: Joins(states, j, i) == {})
  }

  /** The rows that a step puts ahead of row i. */
  ghost function Joins(states: seq<State>, j: nat, i: nat): set<nat>
    requires j + 1 < |states| && i < |states[j].rows| && i < |states[j + 1].rows|
  {
    Ahead(states[j + 1].rows, i) - Ahead(states[j].rows, i)
  }

  ghost predicate CleanPump(s: State, t: State, step: Step, limit: nat) {
    && step.Pump? && step.limit == limit && Next(s, t, step)
    && Successes(step.attempts) == |step.attempts|
  }

  ghost function Indices(picked: seq<nat>): set<nat> {
    set j | j in picked
  }

  lemma {:induction false} DistinctIndices(picked: seq<nat>)
    requires Distinct(picked)
    ensures |Indices(picked)| == |picked|
  {
    if picked != [] {
      var init, last := picked[..|picked| - 1], picked[|picked| - 1];
      DistinctIndices(init);
      assert Indices(picked) == Indices(init) + {last};
    }
  }

  lemma NoneLeft<T>(a: set<T>, b: set<T>)
    ensures a - b == {} ==> a <= b
  {
    forall x | x in a && x !in b ensures x in a - b {}
  }

  lemma PickedAreAhead(rows: seq<Row>, picked: seq<nat>, limit: nat, i: nat)
    requires Answer(rows, picked, limit) && i < |rows| && Eligible(rows[i]) && i !in picked
    ensures Indices(picked) <= Ahead(rows, i) && |picked| == limit
  {
  }

  /** A pump, failing or not, puts no row ahead of row i. */
  lemma PumpAddsNoneAhead(s: State, t: State, picked: seq<nat>, attempts: seq<Attempt>, limit: nat, i: nat)
    requires Pumps(s, t, picked, attempts, limit) && i < |s.rows|
    ensures |t.rows| == |s.rows| && Ahead(t.rows, i) <= Ahead(s.rows, i)
  {
  }

  /** A failure-free pump that leaves row i waiting takes a whole batch of those ahead of it. */
  lemma CleanPumpTakesABatch(s: State, t: State, step: Step, limit: nat, i: nat)
    requires CleanPump(s, t, step, limit) && i < |s.rows| && Eligible(s.rows[i]) && Eligible(t.rows[i])
    ensures |Ahead(t.rows, i)| + limit <= |Ahead(s.rows, i)|
  {
    var picked := step.picked;
    assert picked[..|picked|] == picked;
    assert forall j | 0 <= j < |picked| :: t.rows[picked[j]].celeryId.Some?;
    assert i !in picked;
    var taken := Indices(picked);
    DistinctIndices(picked);
    PickedAreAhead(s.rows, picked, limit, i);
    PumpAddsNoneAhead(s, t, picked, step.attempts, limit, i);
    var left := Ahead(t.rows, i);
    assert left <= Ahead(s.rows, i) && left !! taken;
    SubsetSize(left + taken, Ahead(s.rows, i));
  }

  ghost function CleanAt(states: seq<State>, steps: seq<Step>, limit: nat): nat -> bool
    requires |states| == |steps| + 1
  {
    j => 0 <= j < |steps| && CleanPump(states[j], states[j + 1], steps[j], limit)
  }

  /** The number of failure-free pumps with this limit among the first k steps. */
  ghost function CleanPumps(states: seq<State>, steps: seq<Step>, limit: nat, k: nat): nat
    requires |states| == |steps| + 1 && k <= |steps|
  {
    |Below(CleanAt(states, steps, limit), k)|
  }

  /** The product, as a sum. */
  function Times(limit: nat, pumps: nat): nat {
    if pumps == 0 then 0 else Times(limit, pumps - 1) + limit
  }

  lemma {:induction false} TimesIsProduct(limit: nat, pumps: nat)
    ensures Times(limit, pumps) == limit * pumps
  {
    if pumps > 0 {
      TimesIsProduct(limit, pumps - 1);
      assert limit * pumps == limit * (pumps - 1) + limit;
    }
  }

  /** Step j takes at least a batch if it is clean, and adds nothing. */
  ghost predicate Falls(sizes: nat -> nat, clean: nat -> bool, limit: nat, j: nat) {
    sizes(j + 1) + (if clean(j) then limit else 0) <= sizes(j)
  }

  lemma {:induction false} SizesFall(sizes: nat -> nat, clean: nat -> bool, limit: nat, k: nat)
    requires forall j: nat | j < k :: Falls(sizes, clean, limit, j)
    ensures sizes(k) + Times(limit, |Below(clean, k)|) <= sizes(0)
  {
    if k == 0 {
      assert Below(clean, k) == {};
    } else {
      SizesFall(sizes, clean, limit, k - 1);
      assert Falls(sizes, clean, limit, k - 1);
      BelowGrows(clean, k - 1);
    }
  }

  ghost function AheadSize(states: seq<State>, i: nat): nat -> nat {
    j => if 0 <= j < |states| && i < |states[j].rows| then |Ahead(states[j].rows, i)| else 0
  }

  lemma AheadShrinks(states: seq<State>, steps: seq<Step>, limit: nat, i: nat, k: nat)
    requires Run(states, steps) && k <= |steps| && Waits(states, steps, i)
    ensures |Ahead(states[k].rows, i)| + Times(limit, CleanPumps(states, steps, limit, k)) <= |Ahead(states[0].rows, i)|
  {
    forall j: nat | j < k ensures Falls(AheadSize(states, i), CleanAt(states, steps, limit), limit, j) {
      AheadAt(states, steps, limit, i, j);
    }
    SizesFall(AheadSize(states, i), CleanAt(states, steps, limit), limit, k);
  }

  lemma AheadAt(states: seq<State>, steps: seq<Step>, limit: nat, i: nat, k: nat)
    requires Run(states, steps) && k < |steps| && Waits(states, steps, i)
    ensures Falls(AheadSize(states, i), CleanAt(states, steps, limit), limit, k)
  {
    assert Taken(states, steps, k);
    OthersAddNone(states, steps, i, k);
    SizesAt(states, steps, limit, i, k);
  }

  lemma SizesAt(states: seq<State>, steps: seq<Step>, limit: nat, i: nat, k: nat)
    requires |states| == |steps| + 1 && k < |steps| && Taken(states, steps, k)
    requires i < |states[k].rows| && i < |states[k + 1].rows|
    requires Eligible(states[k].rows[i]) && Eligible(states[k + 1].rows[i])
    requires !steps[k].Pump? ==> Ahead(states[k + 1].rows, i) <= Ahead(states[k].rows, i)
    ensures Falls(AheadSize(states, i), CleanAt(states, steps, limit), limit, k)
  {
    StepAhead(states[k], states[k + 1], steps[k], limit, i);
  }

  lemma OthersAddNone(states: seq<State>, steps: seq<Step>, i: nat, k: nat)
    requires |states| == |steps| + 1 && k < |steps| && Waits(states, steps, i)
    ensures !steps[k].Pump? ==> Ahead(states[k + 1].rows, i) <= Ahead(states[k].rows, i)
  {
    assert !steps[k].Pump? ==> Joins(states, k, i) == {};
    NoneLeft(Ahead(states[k + 1].rows, i), Ahead(states[k].rows, i));
  }

  lemma StepAhead(s: State, t: State, step: Step, limit: nat, i: nat)
    requires Next(s, t, step) && i < |s.rows| && i < |t.rows| && Eligible(s.rows[i]) && Eligible(t.rows[i])
    requires !step.Pump? ==> Ahead(t.rows, i) <= Ahead(s.rows, i)
    ensures |Ahead(t.rows, i)| + (if CleanPump(s, t, step, limit) then limit else 0) <= |Ahead(s.rows, i)|
  {
    if CleanPump(s, t, step, limit) {
      CleanPumpTakesABatch(s, t, step, limit, i);
    } else {
      if step.Pump? { PumpAddsNoneAhead(s, t, step.picked, step.attempts, step.limit, i); }
      SubsetSize(Ahead(t.rows, i), Ahead(s.rows, i));
    }
  }

  /** A failure-free pump publishes an eligible row with less than a batch ahead of it. */
  lemma CleanPumpPublishes(s: State, t: State, step: Step, limit: nat, i: nat)
    requires CleanPump(s, t, step, limit) && i < |s.rows| && Eligible(s.rows[i]) && |Ahead(s.rows, i)| < limit
    ensures |t.rows| == |s.rows| && t.rows[i].taskId == s.rows[i].taskId && WasPublished(t, i)
  {
    var picked, attempts := step.picked, step.attempts;
    assert picked[..|picked|] == picked;
    if i !in picked {
      PickedAreAhead(s.rows, picked, limit, i);
      DistinctIndices(picked);
      SubsetSize(Indices(picked), Ahead(s.rows, i));
    } else {
      var k: nat :| k < |picked| && picked[k] == i;
      assert (attempts[k].id, s.rows[picked[k]].taskId) in Sent(s.rows, picked, attempts, |picked|);
    }
  }

  /** As long as row i waits and no row joins those ahead of it, at most floor(ahead / batch) failure-free pumps
      go by. */
  lemma BoundedWait(states: seq<State>, steps: seq<Step>, batch: nat, i: nat)
    requires Run(states, steps) && batch > 0 && Waits(states, steps, i)
    ensures CleanPumps(states, steps, batch, |steps|) <= |Ahead(states[0].rows, i)| / batch
  {
    var n := |steps|;
    AheadShrinks(states, steps, batch, i, n);
    TimesIsProduct(batch, CleanPumps(states, steps, batch, n));
    Quotient(batch, CleanPumps(states, steps, batch, n), |Ahead(states[0].rows, i)|);
  }

  /** When they have gone by, the next one publishes row i. */
  lemma PublishedInTime(states: seq<State>, steps: seq<Step>, batch: nat, i: nat, t: State, step: Step)
    requires Run(states, steps) && batch > 0 && Waits(states, steps, i)
    requires CleanPumps(states, steps, batch, |steps|) == |Ahead(states[0].rows, i)| / batch
    requires CleanPump(states[|steps|], t, step, batch)
    ensures i < |t.rows| && WasPublished(t, i)
  {
    var n := |steps|;
    AheadShrinks(states, steps, batch, i, n);
    TimesIsProduct(batch, CleanPumps(states, steps, batch, n));
    Remainder(batch, CleanPumps(states, steps, batch, n), |Ahead(states[0].rows, i)|, |Ahead(states[n].rows, i)|);
    CleanPumpPublishes(states[n], t, step, batch, i);
  }

  lemma Remainder(b: nat, m: nat, k: nat, left: nat)
    requires b > 0 && m == k / b && left + b * m <= k
    ensures left < b
  {
  }

  lemma Quotient(b: nat, m: nat, k: nat)
    requires b > 0 && b * m <= k
    ensures m <= k / b
  {
    var w := k / b + 1;
    assert b * w > k;
    Grows(b, w, m);
  }

  lemma Grows(b: nat, w: nat, m: nat)
    ensures w <= m ==> b * w <= b * m
  {
  }
}
