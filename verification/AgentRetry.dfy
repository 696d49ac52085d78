/** app/runner.py: the retry loop around one agent process with its crash breaker, and the
    compaction loop around it. What a process start does is an arbitrary outcome. */
module AgentRetry {
  import opened Results
  import opened Sequences

  // ---------- delays and limits ----------

  const CRASH_LOOP_MAX: nat := 5
  const CRASH_LOOP_WINDOW: real := 60.0
  const FATAL_DELAY: real := 30.0

  /** _backoff: 3, 5, 10, 15 and then always 30 seconds. */
  function Backoff(attempt: int): (delay: real) {
    if attempt <= 1 then 3.0
    else if attempt == 2 then 5.0
    else if attempt == 3 then 10.0
    else if attempt == 4 then 15.0
    else 30.0
  }

  lemma BackoffMonotone(a: int, b: int)
    requires a <= b
    ensures 3.0 <= Backoff(a) <= Backoff(b) <= 30.0
  {}

  /** _should_retry: a negative maximum means no limit. */
  predicate ShouldRetry(failures: nat, maxRetries: int, cancelled: bool) {
    !cancelled && (maxRetries < 0 || failures <= maxRetries)
  }

  // ---------- one agent call ----------

  /** What one start of the inner API loop leads to: a result that is returned as it is, a fatal result,
      a process crash, or a crash whose message matches a fatal pattern. */
  datatype Outcome = Returns | FatalResult | Crash | FatalCrash

  /** One turn: how long the start ran, its outcome, when the cancel event was seen set, and how much
      longer than asked a following sleep took. */
  datatype Attempt = Attempt(
    cancelTop: bool, outcome: Outcome, run: real, cancelInHandler: bool, cancelAtRetry: bool, oversleep: real)

  datatype CallResult =
    | NoDirectory | Cancelled | CancelledAfterError | Returned | FatalExhausted | CrashLoop | CrashExhausted
    | Running

  predicate Recent(t: real, now: real) {
    now - t <= CRASH_LOOP_WINDOW
  }

  /** The crash times that the breaker keeps at `now`. */
  function Window(times: seq<real>, now: real): seq<real> {
    if times == [] then []
    else (if Recent(times[0], now) then [times[0]] else []) + Window(times[1..], now)
  }

  /** Consecutive counted crashes are at least the sleeps between them apart. */
  ghost predicate Spaced(history: seq<real>) {
    forall j | 0 < j < |history| :: Gap(history, j)
  }

  /** The sleep between crash j and the one before it. */
  predicate Gap(history: seq<real>, j: nat)
    requires 0 < j < |history|
  {
    history[j - 1] + Backoff(j) <= history[j]
  }

  /** At every counted crash, fewer than five of the crashes so far lay in the window ending with it. */
  ghost predicate Calm(history: seq<real>) {
    forall m | 0 < m <= |history| :: CalmAt(history, m)
  }

  /** The first m crashes leave the window of the m-th short of five. */
  predicate CalmAt(history: seq<real>, m: nat)
    requires 0 < m <= |history|
  {
    |Window(history[..m], history[m - 1])| < CRASH_LOOP_MAX
  }

  lemma CalmOfPrefix(a: seq<real>, b: seq<real>)
    requires a <= b && Calm(b)
    ensures Calm(a)
  {
    forall m: nat | 0 < m <= |a| ensures CalmAt(a, m) {
      assert CalmAt(b, m) && a[..m] == b[..m];
    }
  }

  lemma CalmSnoc(history: seq<real>, now: real)
    requires Calm(history)
    ensures Calm(history + [now]) <==> |Window(history + [now], now)| < CRASH_LOOP_MAX
  {
    var h := history + [now];
    assert h[..|h|] == h;
    if |Window(h, now)| < CRASH_LOOP_MAX {
      forall m: nat | 0 < m <= |h| ensures CalmAt(h, m) {
        if m <= |history| { assert CalmAt(history, m) && history[..m] == h[..m]; }
      }
    } else {
      assert !CalmAt(h, |h|);
    }
  }

  lemma WindowSnoc(times: seq<real>, t: real, now: real)
    ensures Window(times + [t], now) == Window(times, now) + if Recent(t, now) then [t] else []
  {
    if times != [] {
      assert (times + [t])[1..] == times[1..] + [t];
    }
  }

  /** Pruning at an earlier time first changes nothing. */
  lemma WindowTwice(times: seq<real>, t1: real, t2: real)
    requires t1 <= t2
    ensures Window(Window(times, t1), t2) == Window(times, t2)
  {
    if times != [] {
      WindowTwice(times[1..], t1, t2);
      var rest := Window(times[1..], t1);
      assert [times[0]] + rest == Window(times, t1) || rest == Window(times, t1);
      assert ([times[0]] + rest)[1..] == rest;
    }
  }

  ghost predicate Ascending(times: seq<real>) {
    forall i, j | 0 <= i <= j < |times| :: times[i] <= times[j]
  }

  lemma SpacedAscends(history: seq<real>, i: nat, j: nat)
    requires Spaced(history) && i <= j < |history|
    ensures history[i] <= history[j]
  {
    if i < j {
      SpacedAscends(history, i, j - 1);
      BackoffMonotone(j, j);
      assert Gap(history, j);
    }
  }

  /** Of ascending times the window keeps a suffix. */
  lemma WindowIsSuffix(times: seq<real>, now: real)
    requires Ascending(times)
    ensures |Window(times, now)| <= |times|
    ensures forall i | 0 <= i < |times| :: Recent(times[i], now) <==> i >= |times| - |Window(times, now)|
  {
  }

  /** The arithmetic of the breaker: five crashes fit into one window only as crashes 1-5 or 2-6, and
      2-6 only when every sleep and every run took no longer than asked. */
  lemma FiveInAWindow(history: seq<real>)
    requires Spaced(history) && history != []
    requires |Window(history, Last(history))| >= CRASH_LOOP_MAX
    ensures |history| == 5 || (|history| == 6 && history[5] - history[1] == CRASH_LOOP_WINDOW)
  {
    var m := |history|;
    forall i, j | 0 <= i <= j < m ensures history[i] <= history[j] { SpacedAscends(history, i, j); }
    WindowIsSuffix(history, Last(history));
    assert Recent(history[m - 5], history[m - 1]);
    assert Gap(history, m - 4) && Gap(history, m - 3) && Gap(history, m - 2) && Gap(history, m - 1);
  }

  /** Five crashes with short runs between them fill the window. */
  lemma ShortRunsFillTheWindow(history: seq<real>)
    requires |history| == 5 && ShortGaps(history)
    ensures |Window(history, Last(history))| == 5
  {
    assert ShortGap(history, 1) && ShortGap(history, 2) && ShortGap(history, 3) && ShortGap(history, 4);
    forall l: nat | 0 < l < 5 ensures Gap(history, l) {
      assert ShortGap(history, l);
    }
    forall i, j | 0 <= i <= j < 5 ensures history[i] <= history[j] { SpacedAscends(history, i, j); }
    WindowIsSuffix(history, Last(history));
    assert Recent(history[0], history[4]);
  }

  // ---------- the retry loop ----------

  ghost predicate TimesForward(attempts: seq<Attempt>) {
    forall a | a in attempts :: a.run >= 0.0 && a.oversleep >= 0.0
  }

  predicate PlainCrash(a: Attempt) {
    a.outcome.Crash? && !a.cancelTop && !a.cancelInHandler && !a.cancelAtRetry
  }

  /** The counted crashes so far: spaced by the sleeps, each of them with a calm window, the clock past
      the last sleep, and the breaker's list the window of the last one. */
  ghost predicate Counted(history: seq<real>, crashTimes: seq<real>, clock: real) {
    && Spaced(history)
    && Calm(history)
    && (history == [] ==> crashTimes == [])
    && (history != [] ==> crashTimes == Window(history, Last(history)) && Last(history) + Backoff(|history|) <= clock)
  }

  /** The breaker fires on the last counted crash, the fifth or the sixth, after calm ones. */
  ghost predicate BreakerFired(history: seq<real>) {
    && Spaced(history) && history != [] && !Calm(history) && Calm(Init(history))
    && (|history| == 5 || (|history| == 6 && history[5] - history[1] == CRASH_LOOP_WINDOW))
  }

  lemma SpacedSnoc(history: seq<real>, now: real)
    requires Spaced(history) && (history != [] ==> Last(history) + Backoff(|history|) <= now)
    ensures Spaced(history + [now])
  {
    var h := history + [now];
    forall j: nat | 0 < j < |h| ensures Gap(h, j) {
      if j < |history| {
        assert Gap(history, j);
      } else {
        assert history == h[..j] && Last(history) == h[j - 1];
      }
    }
  }

  /** Counting one crash: pruning the breaker's list is the window of all counted crashes. */
  lemma CountCrash(history: seq<real>, crashTimes: seq<real>, clock: real, now: real)
    requires Counted(history, crashTimes, clock) && clock <= now
    ensures var h := history + [now];
            Init(h) == history && Last(h) == now && Window(crashTimes + [now], now) == Window(h, now)
    ensures Spaced(history + [now])
  {
    var h := history + [now];
    assert Init(h) == history;
    SpacedSnoc(history, now);
    if history != [] {
      BackoffMonotone(|history|, |history|);
      assert Last(history) <= now;
      WindowSnoc(crashTimes, now, now);
      WindowSnoc(history, now, now);
      WindowTwice(history, Last(history), now);
    }
  }

  lemma CountedLater(history: seq<real>, crashTimes: seq<real>, clock: real, later: real)
    requires Counted(history, crashTimes, clock) && clock <= later
    ensures Counted(history, crashTimes, later)
  {
  }

  /** The breaker fires on this crash. */
  lemma CrashFires(history: seq<real>, crashTimes: seq<real>, clock: real, now: real)
    requires Counted(history, crashTimes, clock) && clock <= now
    requires |Window(crashTimes + [now], now)| >= CRASH_LOOP_MAX
    ensures BreakerFired(history + [now])
  {
    CountCrash(history, crashTimes, clock, now);
    CalmSnoc(history, now);
    FiveInAWindow(history + [now]);
  }

  /** The loop goes on after this crash and its sleep. */
  lemma CrashCounted(history: seq<real>, crashTimes: seq<real>, clock: real, now: real, later: real)
    requires Counted(history, crashTimes, clock) && clock <= now && now + Backoff(|history| + 1) <= later
    requires |Window(crashTimes + [now], now)| < CRASH_LOOP_MAX
    ensures Counted(history + [now], Window(crashTimes + [now], now), later)
  {
    CountCrash(history, crashTimes, clock, now);
    CalmSnoc(history, now);
  }

  predicate IsFatal(a: Attempt) {
    a.outcome.FatalResult? || a.outcome.FatalCrash?
  }

  predicate IsCrash(a: Attempt) {
    a.outcome.Crash? || a.outcome.FatalCrash?
  }

  /** The crashes among the first k starts, fatal ones included: the counter that the backoff uses. */
  function PiAttempts(attempts: seq<Attempt>, k: nat): nat
    requires k <= |attempts|
  {
    if k == 0 then 0
    else PiAttempts(attempts, k - 1)
         + (if IsCrash(attempts[k - 1]) then 1 else 0)
  }

  /** The fatal ones among the first k starts. */
  function FatalAttempts(attempts: seq<Attempt>, k: nat): nat
    requires k <= |attempts|
  {
    if k == 0 then 0 else FatalAttempts(attempts, k - 1) + (if IsFatal(attempts[k - 1]) then 1 else 0)
  }

  ghost function CrashAt(attempts: seq<Attempt>): nat -> bool {
    i => 0 <= i < |attempts| && IsCrash(attempts[i])
  }

  ghost function FatalAt(attempts: seq<Attempt>): nat -> bool {
    i => 0 <= i < |attempts| && IsFatal(attempts[i])
  }

  /** Both counters are the numbers of such starts. */
  lemma {:induction false} AttemptsCounted(attempts: seq<Attempt>, k: nat)
    requires k <= |attempts|
    ensures PiAttempts(attempts, k) == |Below(CrashAt(attempts), k)|
    ensures FatalAttempts(attempts, k) == |Below(FatalAt(attempts), k)|
  {
    if k > 0 {
      AttemptsCounted(attempts, k - 1);
      BelowGrows(CrashAt(attempts), k - 1);
      BelowGrows(FatalAt(attempts), k - 1);
    }
  }

  /** The time before start k when the starts before it were all retried: each ran, and then slept its backoff
      or the fatal delay. */
  function ClockAt(attempts: seq<Attempt>, k: nat, start: real): real
    requires k <= |attempts|
  {
    if k == 0 then start
    else
      var a := attempts[k - 1];
      var delay := if a.outcome.Crash? then Backoff(PiAttempts(attempts, k)) else FATAL_DELAY;
      ClockAt(attempts, k - 1, start) + a.run + delay + a.oversleep
  }

  /** The times of the crashes that the breaker counts among the first k starts. */
  function CrashTimes(attempts: seq<Attempt>, k: nat, start: real): seq<real>
    requires k <= |attempts|
  {
    if k == 0 then []
    else if attempts[k - 1].outcome.Crash?
    then CrashTimes(attempts, k - 1, start) + [ClockAt(attempts, k - 1, start) + attempts[k - 1].run]
    else CrashTimes(attempts, k - 1, start)
  }

  /** The starts whose crashes were counted: all but one that ended the loop before the breaker. */
  function CountedStarts(r: CallResult, starts: nat): nat {
    if r.Cancelled? || r.Running? || r.CrashLoop? || starts == 0 then starts else starts - 1
  }

  /** Within the limits, after the first k starts; a negative limit is none. */
  predicate FatalsLeft(attempts: seq<Attempt>, k: nat, n: int)
    requires k <= |attempts|
  {
    n < 0 || FatalAttempts(attempts, k) <= n
  }

  predicate CrashesLeft(attempts: seq<Attempt>, k: nat, p: int)
    requires k <= |attempts|
  {
    p < 0 || PiAttempts(attempts, k) <= p
  }

  /** Start k was made and is followed by another, as far as cancellation and limits go. */
  predicate Retried(attempts: seq<Attempt>, k: nat, p: int, n: int)
    requires k < |attempts|
  {
    var a := attempts[k];
    && !a.cancelTop && !a.outcome.Returns?
    && (IsFatal(a) ==> FatalsLeft(attempts, k + 1, n))
    && (IsCrash(a) ==> !a.cancelInHandler)
    && (a.outcome.Crash? ==> !a.cancelAtRetry && CrashesLeft(attempts, k + 1, p))
  }

  /** The starts that another one followed, or that the end of the attempts left to be followed. */
  function RetriedStarts(r: CallResult, starts: nat): nat {
    if r.Cancelled? || r.Running? || starts == 0 then starts else starts - 1
  }

  /** Each result is what the last start led to, or the cancellation before the next one. */
  predicate EndsWith(r: CallResult, attempts: seq<Attempt>, starts: nat, p: int, n: int) {
    if r.Cancelled? then starts < |attempts| && attempts[starts].cancelTop
    else
      0 < starts <= |attempts| && !attempts[starts - 1].cancelTop
      && var last := attempts[starts - 1];
         match r
         case Returned => last.outcome.Returns?
         case FatalExhausted =>
           IsFatal(last) && !FatalsLeft(attempts, starts, n) && (IsCrash(last) ==> !last.cancelInHandler)
         case CancelledAfterError => IsCrash(last) && last.cancelInHandler
         case CrashExhausted =>
           last.outcome.Crash? && !last.cancelInHandler && (last.cancelAtRetry || !CrashesLeft(attempts, starts, p))
         case CrashLoop => PlainCrash(last) && CrashesLeft(attempts, starts, p)
         case _ => false
  }

  /** The call ended with its last start, or the attempts are used up. */
  predicate Over(attempts: seq<Attempt>, p: int, n: int, r: CallResult, starts: nat) {
    && starts <= |attempts| && !r.NoDirectory?
    && if r.Running? then starts == |attempts| else EndsWith(r, attempts, starts, p, n)
  }

  /** The outcome of a call on these attempts from this time on: which starts were followed by another, what
      ended it, and whether the breaker fired. */
  ghost predicate CallEnds(attempts: seq<Attempt>, p: int, n: int, start: real, r: CallResult, starts: nat) {
    && Over(attempts, p, n, r, starts)
    && (forall k: nat | k < RetriedStarts(r, starts) :: Retried(attempts, k, p, n))
    && var history := CrashTimes(attempts, CountedStarts(r, starts), start);
       if r.CrashLoop? then BreakerFired(history) else Spaced(history) && Calm(history)
  }

  /** The time at the end of the call. */
  function EndClock(attempts: seq<Attempt>, start: real, r: CallResult, starts: nat): real
    requires starts <= |attempts|
  {
    var k := RetriedStarts(r, starts);
    ClockAt(attempts, k, start) + (if k < starts then attempts[k].run else 0.0)
  }

  /** The variables of the loop. */
  datatype LoopState =
    LoopState(starts: nat, piAttempt: nat, fatalCount: nat, crashTimes: seq<real>, clock: real)

  /** What the loop keeps, for the crashes counted so far. */
  ghost predicate LoopInv(s: LoopState, history: seq<real>, attempts: seq<Attempt>, p: int, n: int) {
    && s.starts == s.fatalCount + |history| <= |attempts| && |history| <= s.piAttempt
    && (n >= 0 ==> s.fatalCount <= n)
    && (p >= 0 ==> |history| <= p)
    && Counted(history, s.crashTimes, s.clock)
  }

  /** What holds when the loop ends with a result. */
  ghost predicate Settled(r: CallResult, starts: nat, history: seq<real>, attempts: seq<Attempt>, p: int, n: int) {
    && !r.Running? && !r.NoDirectory? && starts <= |attempts|
    && (p >= 0 && n >= 0 ==> starts <= n + p + 1)
    && (if r.CrashLoop? then BreakerFired(history) else Spaced(history) && Calm(history))
  }

  /** Counter, clock and counted crashes are those of the starts so far. */
  ghost predicate Replays(s: LoopState, history: seq<real>, attempts: seq<Attempt>, start: real) {
    && s.starts <= |attempts|
    && s.piAttempt == PiAttempts(attempts, s.starts) && s.fatalCount == FatalAttempts(attempts, s.starts)
    && s.clock == ClockAt(attempts, s.starts, start) && history == CrashTimes(attempts, s.starts, start)
  }

  ghost predicate Ended(r: CallResult, starts: nat, history: seq<real>, attempts: seq<Attempt>, p: int, n: int,
                        start: real) {
    EndsWith(r, attempts, starts, p, n) && history == CrashTimes(attempts, CountedStarts(r, starts), start)
  }

  /** A crash on which the breaker fires. */
  lemma BreakerStep(attempts: seq<Attempt>, p: int, n: int, s: LoopState, history: seq<real>, now: real)
    requires TimesForward(attempts) && LoopInv(s, history, attempts, p, n) && s.starts < |attempts|
    requires PlainCrash(attempts[s.starts]) && ShouldRetry(s.piAttempt + 1, p, false)
    requires now == s.clock + attempts[s.starts].run
    requires |Window(s.crashTimes + [now], now)| >= CRASH_LOOP_MAX
    ensures Settled(CrashLoop, s.starts + 1, history + [now], attempts, p, n)
  {
    assert attempts[s.starts] in attempts;
    CrashFires(history, s.crashTimes, s.clock, now);
  }

  /** A crash after which the loop goes on. */
  lemma GoOnStep(attempts: seq<Attempt>, p: int, n: int, s: LoopState, history: seq<real>, now: real, later: real)
    requires TimesForward(attempts) && LoopInv(s, history, attempts, p, n) && s.starts < |attempts|
    requires PlainCrash(attempts[s.starts]) && ShouldRetry(s.piAttempt + 1, p, false)
    requires now == s.clock + attempts[s.starts].run
    requires later == now + Backoff(s.piAttempt + 1) + attempts[s.starts].oversleep
    requires |Window(s.crashTimes + [now], now)| < CRASH_LOOP_MAX
    ensures LoopInv(LoopState(s.starts + 1, s.piAttempt + 1, s.fatalCount, Window(s.crashTimes + [now], now), later),
                    history + [now], attempts, p, n)
  {
    assert attempts[s.starts] in attempts;
    BackoffMonotone(|history| + 1, s.piAttempt + 1);
    CrashCounted(history, s.crashTimes, s.clock, now, later);
  }

  /** What one turn does with its start. */
  predicate TurnDoes(a: Attempt, s: LoopState, p: int, n: int, done: Option<CallResult>, next: LoopState) {
    var now := s.clock + a.run;
    var kept := Window(s.crashTimes + [now], now);
    var crashes, fatals := s.piAttempt + (if IsCrash(a) then 1 else 0), s.fatalCount + (if IsFatal(a) then 1 else 0);
    match done
    case None =>
      && !a.cancelTop && !a.outcome.Returns? && (IsCrash(a) ==> !a.cancelInHandler)
      && (IsFatal(a) ==> n < 0 || fatals <= n)
      && (a.outcome.Crash? ==> !a.cancelAtRetry && (p < 0 || crashes <= p) && |kept| < CRASH_LOOP_MAX)
      && next == LoopState(
           s.starts + 1, crashes, fatals, if a.outcome.Crash? then kept else s.crashTimes,
           now + (if a.outcome.Crash? then Backoff(s.piAttempt + 1) else FATAL_DELAY) + a.oversleep)
    case Some(r) =>
      && next.starts == (if r.Cancelled? then s.starts else s.starts + 1)
      && next.clock == (if r.Cancelled? then s.clock else now)
      && (a.cancelTop <==> r.Cancelled?)
      && match r
         case Cancelled => true
         case Returned => a.outcome.Returns?
         case FatalExhausted => IsFatal(a) && n >= 0 && fatals > n && (IsCrash(a) ==> !a.cancelInHandler)
         case CancelledAfterError => IsCrash(a) && a.cancelInHandler
         case CrashExhausted => a.outcome.Crash? && !a.cancelInHandler && (a.cancelAtRetry || (p >= 0 && crashes > p))
         case CrashLoop => PlainCrash(a) && (p < 0 || crashes <= p) && |kept| >= CRASH_LOOP_MAX
         case _ => false
  }

  /** The crashes counted after the turn. */
  function CountedAfter(a: Attempt, s: LoopState, history: seq<real>, done: Option<CallResult>): seq<real> {
    var now := s.clock + a.run;
    match done
    case None => if a.outcome.Crash? then history + [now] else history
    case Some(r) => if r.CrashLoop? then history + [now] else history
  }

  /** One turn of the loop. */
  method Turn(a: Attempt, p: int, n: int, s: LoopState)
    returns (done: Option<CallResult>, next: LoopState)
    ensures TurnDoes(a, s, p, n, done, next)
  {
    if a.cancelTop {
      return Some(Cancelled), s;
    }
    next := s.(starts := s.starts + 1, clock := s.clock + a.run);
    if a.outcome.Returns? {
      return Some(Returned), next;
    }
    if a.outcome.FatalResult? {
      next := next.(fatalCount := s.fatalCount + 1);
      if n >= 0 && next.fatalCount > n {
        return Some(FatalExhausted), next;
      }
      return None, next.(clock := next.clock + FATAL_DELAY + a.oversleep);
    }
    next := next.(piAttempt := s.piAttempt + 1);
    if a.cancelInHandler {
      return Some(CancelledAfterError), next;
    }
    if a.outcome.FatalCrash? {
      next := next.(fatalCount := s.fatalCount + 1);
      if n >= 0 && next.fatalCount > n {
        return Some(FatalExhausted), next;
      }
      return None, next.(clock := next.clock + FATAL_DELAY + a.oversleep);
    }
    if !ShouldRetry(next.piAttempt, p, a.cancelAtRetry) {
      return Some(CrashExhausted), next;
    }
    var delay, now := Backoff(next.piAttempt), next.clock;
    next := next.(crashTimes := Window(s.crashTimes + [now], now));
    if |next.crashTimes| >= CRASH_LOOP_MAX {
      return Some(CrashLoop), next;
    }
    return None, next.(clock := now + delay + a.oversleep);
  }

  lemma FatalStep(attempts: seq<Attempt>, p: int, n: int, s: LoopState, history: seq<real>, next: LoopState)
    requires TimesForward(attempts) && LoopInv(s, history, attempts, p, n) && s.starts < |attempts|
    requires TurnDoes(attempts[s.starts], s, p, n, None, next)
    requires !attempts[s.starts].outcome.Crash?
    ensures LoopInv(next, history, attempts, p, n)
  {
    assert attempts[s.starts] in attempts;
    CountedLater(history, s.crashTimes, s.clock, next.clock);
  }

  /** A turn that goes on keeps what the loop keeps. */
  lemma TurnKeeps(attempts: seq<Attempt>, p: int, n: int, s: LoopState, history: seq<real>, next: LoopState)
    requires TimesForward(attempts) && LoopInv(s, history, attempts, p, n) && s.starts < |attempts|
    requires TurnDoes(attempts[s.starts], s, p, n, None, next)
    ensures LoopInv(next, CountedAfter(attempts[s.starts], s, history, None), attempts, p, n)
  {
    if attempts[s.starts].outcome.Crash? {
      GoOnStep(attempts, p, n, s, history, s.clock + attempts[s.starts].run, next.clock);
    } else {
      FatalStep(attempts, p, n, s, history, next);
    }
  }

  /** A turn that ends the loop settles the call within the limits. */
  lemma TurnSettles(attempts: seq<Attempt>, p: int, n: int, s: LoopState, history: seq<real>, r: CallResult,
                    next: LoopState)
    requires TimesForward(attempts) && LoopInv(s, history, attempts, p, n) && s.starts < |attempts|
    requires TurnDoes(attempts[s.starts], s, p, n, Some(r), next)
    ensures Settled(r, next.starts, CountedAfter(attempts[s.starts], s, history, Some(r)), attempts, p, n)
  {
    if r.CrashLoop? { BreakerStep(attempts, p, n, s, history, s.clock + attempts[s.starts].run); }
  }

  lemma TurnReplays(attempts: seq<Attempt>, start: real, s: LoopState, history: seq<real>, p: int, n: int,
                    done: Option<CallResult>, next: LoopState, after: seq<real>)
    requires s.starts < |attempts| && Replays(s, history, attempts, start)
    requires TurnDoes(attempts[s.starts], s, p, n, done, next)
    requires after == CountedAfter(attempts[s.starts], s, history, done)
    ensures if done.None? then Replays(next, after, attempts, start) && Retried(attempts, s.starts, p, n)
            else Ended(done.value, next.starts, after, attempts, p, n, start)
                 && RetriedStarts(done.value, next.starts) == s.starts
                 && next.clock == EndClock(attempts, start, done.value, next.starts)
  {
  }

  // ---------- five short crashes ----------

  /** Starts k to k + 4 crash, the first crashes of the call, with at most 6.75 seconds between a sleep's due
      end and the next crash; any number of fatal results may come before. */
  ghost predicate FiveShortCrashes(attempts: seq<Attempt>, k: nat) {
    && k + 5 <= |attempts| && PiAttempts(attempts, k) == 0
    && (forall i | k <= i < k + 5 :: PlainCrash(attempts[i]))
    && (forall i, j | k <= i < j < k + 5 && j == i + 1 :: attempts[i].oversleep + attempts[j].run <= 6.75)
  }

  lemma {:induction false} NoCrashYet(attempts: seq<Attempt>, k: nat, start: real)
    requires k <= |attempts| && PiAttempts(attempts, k) == 0
    ensures CrashTimes(attempts, k, start) == []
  {
    if k > 0 { NoCrashYet(attempts, k - 1, start); }
  }

  /** At most 6.75 seconds between a sleep's due end and the next crash. */
  ghost predicate ShortGaps(history: seq<real>) {
    forall l | 0 < l < |history| :: ShortGap(history, l)
  }

  predicate ShortGap(history: seq<real>, l: nat)
    requires 0 < l < |history|
  {
    Gap(history, l) && history[l] <= history[l - 1] + Backoff(l) + 6.75
  }

  lemma ShortGapsSnoc(history: seq<real>, slack: real, now: real)
    requires ShortGaps(history) && 0.0 <= slack <= 6.75
    requires history != [] ==> now == Last(history) + Backoff(|history|) + slack
    ensures ShortGaps(history + [now])
  {
    var h := history + [now];
    forall l: nat | 0 < l < |h| ensures ShortGap(h, l) {
      if l < |history| { assert ShortGap(history, l); }
    }
  }

  /** The time between the sleep before start j and its crash. */
  lemma Slack(attempts: seq<Attempt>, k: nat, j: nat)
    requires TimesForward(attempts) && FiveShortCrashes(attempts, k) && k < j < k + 5
    ensures 0.0 <= attempts[j - 1].oversleep + attempts[j].run <= 6.75
  {
    assert attempts[j] in attempts && attempts[j - 1] in attempts;
  }

  /** Five short crashes, replayed: one counted crash each, with short gaps. */
  lemma {:induction false} ShortReplay(attempts: seq<Attempt>, k: nat, start: real, i: nat)
    requires TimesForward(attempts) && FiveShortCrashes(attempts, k) && i <= 5
    ensures PiAttempts(attempts, k + i) == i
    ensures var h := CrashTimes(attempts, k + i, start);
            && |h| == i && ShortGaps(h)
            && (i > 0 ==> ClockAt(attempts, k + i, start) == Last(h) + Backoff(i) + attempts[k + i - 1].oversleep)
  {
    if i == 0 {
      NoCrashYet(attempts, k, start);
    } else {
      ShortReplay(attempts, k, start, i - 1);
      var a := attempts[k + i - 1];
      assert PlainCrash(a);
      if i > 1 { Slack(attempts, k, k + i - 1); }
      ShortGapsSnoc(CrashTimes(attempts, k + i - 1, start),
                    if i > 1 then attempts[k + i - 2].oversleep + a.run else 0.0,
                    ClockAt(attempts, k + i - 1, start) + a.run);
    }
  }

  /** After them the window is full. */
  lemma FiveShortFire(attempts: seq<Attempt>, k: nat, start: real)
    requires TimesForward(attempts) && FiveShortCrashes(attempts, k)
    ensures !Calm(CrashTimes(attempts, k + 5, start))
  {
    var h := CrashTimes(attempts, k + 5, start);
    ShortReplay(attempts, k, start, 5);
    ShortRunsFillTheWindow(h);
    assert h[..5] == h;
    assert !CalmAt(h, 5);
  }

  lemma {:induction false} CrashTimesGrow(attempts: seq<Attempt>, start: real, i: nat, j: nat)
    requires i <= j <= |attempts|
    ensures CrashTimes(attempts, i, start) <= CrashTimes(attempts, j, start)
  {
    if i < j { CrashTimesGrow(attempts, start, i, j - 1); }
  }

  /** A window once full makes every longer history not calm. */
  lemma CalmPrefix(attempts: seq<Attempt>, start: real, i: nat, j: nat)
    requires i <= j <= |attempts| && Calm(CrashTimes(attempts, j, start))
    ensures Calm(CrashTimes(attempts, i, start))
  {
    CrashTimesGrow(attempts, start, i, j);
    CalmOfPrefix(CrashTimes(attempts, i, start), CrashTimes(attempts, j, start));
  }

  /** The start that the result came from. */
  function LastSeen(r: CallResult, starts: nat): int {
    if r.Cancelled? then starts else starts - 1
  }

  /** Five short crashes from start k on, with p allowing five retries: the call is over before start k, or
      the breaker fires on start k + 4, the fifth of them. */
  lemma ShortEnd(attempts: seq<Attempt>, k: nat, p: int, n: int, start: real, r: CallResult, starts: nat)
    requires TimesForward(attempts) && FiveShortCrashes(attempts, k) && (p < 0 || p >= 5)
    requires starts <= |attempts| && !r.NoDirectory?
    requires if r.Running? then starts == |attempts| else EndsWith(r, attempts, starts, p, n)
    requires var history := CrashTimes(attempts, CountedStarts(r, starts), start);
             if r.CrashLoop? then BreakerFired(history) else Calm(history)
    ensures LastSeen(r, starts) < k || (r.CrashLoop? && starts == k + 5)
  {
    var seen := LastSeen(r, starts);
    if r.Running? {
      NotCalmBeyond(attempts, k, start, starts);
    } else if seen >= k + 5 {
      if r.CrashLoop? {
        NotFiredBeyond(attempts, k, start, starts);
      } else {
        NotCalmBeyond(attempts, k, start, CountedStarts(r, starts));
      }
    } else if seen >= k {
      ShortInside(attempts, k, p, n, start, r, starts);
    }
  }

  /** No calm history goes beyond the five crashes. */
  lemma NotCalmBeyond(attempts: seq<Attempt>, k: nat, start: real, counted: nat)
    requires TimesForward(attempts) && FiveShortCrashes(attempts, k) && k + 5 <= counted <= |attempts|
    ensures !Calm(CrashTimes(attempts, counted, start))
  {
    FiveShortFire(attempts, k, start);
    if Calm(CrashTimes(attempts, counted, start)) { CalmPrefix(attempts, start, k + 5, counted); }
  }

  /** Nor does the breaker fire later. */
  lemma NotFiredBeyond(attempts: seq<Attempt>, k: nat, start: real, starts: nat)
    requires TimesForward(attempts) && FiveShortCrashes(attempts, k)
    requires k + 5 < starts <= |attempts| && attempts[starts - 1].outcome.Crash?
    ensures !BreakerFired(CrashTimes(attempts, starts, start))
  {
    LastCrash(attempts, starts, start);
    NotCalmBeyond(attempts, k, start, starts - 1);
  }

  lemma LastCrash(attempts: seq<Attempt>, i: nat, start: real)
    requires 0 < i <= |attempts| && attempts[i - 1].outcome.Crash?
    ensures var times := CrashTimes(attempts, i, start);
            times != [] && Init(times) == CrashTimes(attempts, i - 1, start)
  {
  }

  lemma ShortInside(attempts: seq<Attempt>, k: nat, p: int, n: int, start: real, r: CallResult, starts: nat)
    requires TimesForward(attempts) && FiveShortCrashes(attempts, k) && (p < 0 || p >= 5)
    requires EndsWith(r, attempts, starts, p, n) && k <= LastSeen(r, starts) < k + 5
    requires r.CrashLoop? ==> BreakerFired(CrashTimes(attempts, starts, start))
    ensures r.CrashLoop? && starts == k + 5
  {
    assert PlainCrash(attempts[LastSeen(r, starts)]);
    if !r.Cancelled? { ShortReplay(attempts, k, start, starts - k); }
  }

  /** The same for every k. */
  lemma ShortEnds(attempts: seq<Attempt>, p: int, n: int, start: real, r: CallResult, starts: nat)
    requires TimesForward(attempts) && (p < 0 || p >= 5)
    requires starts <= |attempts| && !r.NoDirectory?
    requires if r.Running? then starts == |attempts| else EndsWith(r, attempts, starts, p, n)
    requires var history := CrashTimes(attempts, CountedStarts(r, starts), start);
             if r.CrashLoop? then BreakerFired(history) else Calm(history)
    ensures forall k: nat | FiveShortCrashes(attempts, k) ::
              LastSeen(r, starts) < k || (r.CrashLoop? && starts == k + 5)
  {
    forall k: nat | FiveShortCrashes(attempts, k)
      ensures LastSeen(r, starts) < k || (r.CrashLoop? && starts == k + 5)
    {
      ShortEnd(attempts, k, p, n, start, r, starts);
    }
  }

  // ---------- the loop ----------

  /** Every start that came before the end of the call was retried. */
  ghost predicate AllRetried(attempts: seq<Attempt>, m: nat, p: int, n: int) {
    m <= |attempts| && forall k: nat | k < m :: Retried(attempts, k, p, n)
  }

  /** _run_with_pi_retry. With limits p and n it starts the agent at most n + p + 1 times; it retries a
      crash only while fewer than five crashes lie in the trailing window; the breaker fires on the fifth
      or the sixth counted crash, and on the fifth of five short crashes in a row, whatever fatal results came
      before them. Once the cancel event is seen, nothing is started any more. */
  method RunWithPiRetry(cwdExists: bool, attempts: seq<Attempt>, p: int, n: int, startClock: real)
    returns (r: CallResult, starts: nat, clock: real, ghost history: seq<real>)
    requires TimesForward(attempts)
    ensures starts <= |attempts|
    ensures !cwdExists ==> r.NoDirectory? && starts == 0 && clock == startClock
    ensures p >= 0 && n >= 0 ==> starts <= n + p + 1
    ensures cwdExists ==> CallResults(attempts, p, n, startClock, r, starts, clock, history)
  {
    history := [];
    if !cwdExists {
      return NoDirectory, 0, startClock, history;
    }
    var s := LoopState(0, 0, 0, [], startClock);
    while s.starts < |attempts|
      invariant LoopAt(s, history, attempts, p, n, startClock)
      decreases |attempts| - s.starts
    {
      var a := attempts[s.starts];
      var done, next := Turn(a, p, n, s);
      ghost var after := CountedAfter(a, s, history, done);
      TurnAt(attempts, p, n, startClock, s, history, done, next);
      history := after;
      s := next;
      if done.Some? {
        return done.value, s.starts, s.clock, history;
      }
    }
    CallOver(attempts, p, n, startClock, Running, s.starts, history);
    return Running, s.starts, s.clock, history;
  }

  /** The loop after its turns so far. */
  ghost predicate LoopAt(s: LoopState, history: seq<real>, attempts: seq<Attempt>, p: int, n: int, start: real) {
    && LoopInv(s, history, attempts, p, n) && Replays(s, history, attempts, start)
    && AllRetried(attempts, s.starts, p, n)
  }

  lemma TurnAt(attempts: seq<Attempt>, p: int, n: int, start: real, s: LoopState, history: seq<real>,
               done: Option<CallResult>, next: LoopState)
    requires TimesForward(attempts) && s.starts < |attempts| && LoopAt(s, history, attempts, p, n, start)
    requires TurnDoes(attempts[s.starts], s, p, n, done, next)
    ensures var after := CountedAfter(attempts[s.starts], s, history, done);
            if done.None? then next.starts == s.starts + 1 && LoopAt(next, after, attempts, p, n, start)
            else
              && Settled(done.value, next.starts, after, attempts, p, n)
              && CallResults(attempts, p, n, start, done.value, next.starts, next.clock, after)
  {
    var after := CountedAfter(attempts[s.starts], s, history, done);
    TurnReplays(attempts, start, s, history, p, n, done, next, after);
    if done.None? {
      TurnKeeps(attempts, p, n, s, history, next);
    } else {
      TurnSettles(attempts, p, n, s, history, done.value, next);
      CallOver(attempts, p, n, start, done.value, next.starts, after);
    }
  }

  /** What a call leaves behind. */
  ghost predicate CallResults(attempts: seq<Attempt>, p: int, n: int, start: real, r: CallResult, starts: nat,
                              clock: real, history: seq<real>) {
    && starts <= |attempts|
    && history == CrashTimes(attempts, CountedStarts(r, starts), start)
    && CallEnds(attempts, p, n, start, r, starts)
    && clock == EndClock(attempts, start, r, starts)
    && (forall k | 0 <= k < starts :: !attempts[k].cancelTop)
    && (p < 0 || p >= 5 ==>
          forall k: nat | FiveShortCrashes(attempts, k) :: LastSeen(r, starts) < k || (r.CrashLoop? && starts == k + 5))
  }

  lemma CallOver(attempts: seq<Attempt>, p: int, n: int, start: real, r: CallResult, starts: nat, history: seq<real>)
    requires TimesForward(attempts) && starts <= |attempts| && !r.NoDirectory?
    requires AllRetried(attempts, RetriedStarts(r, starts), p, n)
    requires if r.Running? then starts == |attempts| else EndsWith(r, attempts, starts, p, n)
    requires history == CrashTimes(attempts, CountedStarts(r, starts), start)
    requires if r.CrashLoop? then BreakerFired(history) else Spaced(history) && Calm(history)
    ensures CallResults(attempts, p, n, start, r, starts, EndClock(attempts, start, r, starts), history)
  {
    if p < 0 || p >= 5 { ShortEnds(attempts, p, n, start, r, starts); }
    forall k | 0 <= k < starts ensures !attempts[k].cancelTop {
      if k < RetriedStarts(r, starts) { assert Retried(attempts, k, p, n); }
    }
  }

  /** A start that another one follows ends no call. */
  lemma RetriedGoesOn(attempts: seq<Attempt>, p: int, n: int, start: real, r: CallResult, starts: nat)
    requires CallEnds(attempts, p, n, start, r, starts) && RetriedStarts(r, starts) < |attempts|
    ensures !r.CrashLoop? ==> !Retried(attempts, RetriedStarts(r, starts), p, n)
    ensures r.CrashLoop? ==> !Calm(CrashTimes(attempts, RetriedStarts(r, starts) + 1, start))
  {
  }

  lemma NotLonger(attempts: seq<Attempt>, p: int, n: int, start: real, r: CallResult, starts: nat, t: CallResult,
                  others: nat)
    requires CallEnds(attempts, p, n, start, r, starts) && CallEnds(attempts, p, n, start, t, others)
    ensures RetriedStarts(t, others) <= RetriedStarts(r, starts)
  {
    var m := RetriedStarts(r, starts);
    if m < RetriedStarts(t, others) {
      RetriedGoesOn(attempts, p, n, start, r, starts);
      assert Retried(attempts, m, p, n);
      CalmBefore(attempts, p, n, start, t, others, m + 1);
    }
  }

  /** The history of a call is calm up to its last retried start. */
  lemma CalmBefore(attempts: seq<Attempt>, p: int, n: int, start: real, t: CallResult, others: nat, k: nat)
    requires CallEnds(attempts, p, n, start, t, others) && k <= RetriedStarts(t, others)
    ensures Calm(CrashTimes(attempts, k, start))
  {
    var m := RetriedStarts(t, others);
    if t.CrashLoop? { LastCrash(attempts, others, start); }
    CalmPrefix(attempts, start, k, m);
  }

  /** The attempts, the limits and the clock determine the result and the number of starts. */
  lemma OneResult(attempts: seq<Attempt>, p: int, n: int, start: real, r: CallResult, starts: nat, t: CallResult,
                  others: nat)
    requires CallEnds(attempts, p, n, start, r, starts) && CallEnds(attempts, p, n, start, t, others)
    ensures r == t && starts == others
  {
    NotLonger(attempts, p, n, start, r, starts, t, others);
    NotLonger(attempts, p, n, start, t, others, r, starts);
    SameEnd(attempts, p, n, r, starts, t, others);
  }

  /** The first start that would meet a set cancel event is not made: the call is over before it, or ends there
      as cancelled. */
  lemma CancelStops(attempts: seq<Attempt>, p: int, n: int, start: real, r: CallResult, starts: nat, k: nat)
    requires CallEnds(attempts, p, n, start, r, starts) && k < |attempts| && attempts[k].cancelTop
    ensures starts <= k
    ensures k <= RetriedStarts(r, starts) ==> r.Cancelled? && starts == k
  {
    assert k < RetriedStarts(r, starts) ==> Retried(attempts, k, p, n);
  }

  /** Fatal results from start i on hold the call up by half a minute each. */
  lemma {:induction false} FatalsTakeTime(attempts: seq<Attempt>, i: nat, k: nat, start: real)
    requires TimesForward(attempts) && i <= k <= |attempts| && forall j | i <= j < k :: attempts[j].outcome.FatalResult?
    ensures ClockAt(attempts, k, start) >= ClockAt(attempts, i, start) + 30.0 * (k - i) as real
  {
    if i < k {
      FatalsTakeTime(attempts, i, k - 1, start);
      assert attempts[k - 1] in attempts;
    }
  }

  lemma SameEnd(attempts: seq<Attempt>, p: int, n: int, r: CallResult, starts: nat, t: CallResult, others: nat)
    requires Over(attempts, p, n, r, starts) && Over(attempts, p, n, t, others)
    requires RetriedStarts(r, starts) == RetriedStarts(t, others)
    ensures r == t && starts == others
  {
    if r.Cancelled? || r.Running? || t.Cancelled? || t.Running? {
    } else {
      assert starts == others;
    }
  }

  // ---------- the compaction loop ----------

  const CONTEXT_HEADROOM: int := 4096

  /** _preflight_context_token_limit with no proxy reserve reported: three quarters of what is left of
      the window, rounded down, at least 1. */
  function PreflightLimit(contextWindow: int): (limit: int)
    ensures limit >= 1
  {
    var effective := contextWindow - CONTEXT_HEADROOM - CONTEXT_HEADROOM;
    var usable := if effective < 1 then 1 else effective;
    if usable * 3 / 4 < 1 then 1 else usable * 3 / 4
  }

  /** The limit is three quarters of the window beyond 8192 tokens, rounded down, and at least 1. */
  lemma PreflightLimitIs(contextWindow: int, limit: int)
    ensures limit == PreflightLimit(contextWindow)
       <==> (4 * limit <= 3 * (contextWindow - 8192) < 4 * (limit + 1) && limit >= 1)
            || (limit == 1 && 3 * (contextWindow - 8192) < 4)
  {
  }

  /** One turn of the outer loop: the starts of its agent call, whether that call's result is a context
      overflow, and whether the compaction that may follow succeeds. */
  datatype Round = Round(attempts: seq<Attempt>, overflows: bool, compactOk: bool)

  datatype RecoveryResult =
    | Result(call: CallResult)
    | NoSession
    | CompactExhausted
    | CompactFailed
    | StillRunning

  /** The starts allowed in a number of calls of the retry loop. */
  ghost function StartBound(calls: nat, p: int, n: int): int {
    if calls == 0 then 0 else StartBound(calls - 1, p, n) + (n + p + 1)
  }

  lemma StartBoundMonotone(calls: nat, maxCalls: nat, p: int, n: int)
    requires calls <= maxCalls && p >= 0 && n >= 0
    ensures StartBound(calls, p, n) <= StartBound(maxCalls, p, n) == maxCalls * (n + p + 1)
  {
  }

  ghost predicate RoundsForward(rounds: seq<Round>) {
    forall round | round in rounds :: TimesForward(round.attempts)
  }

  /** The agent calls of the rounds so far: their results and numbers of starts. */
  datatype AgentCall = AgentCall(result: CallResult, starts: nat)

  /** The time at which round k calls the agent. */
  ghost function RoundClock(rounds: seq<Round>, ended: seq<AgentCall>, k: nat, startClock: real): real
    requires k <= |ended| && k <= |rounds|
  {
    if k == 0 then startClock
    else
      var clock, e, attempts := RoundClock(rounds, ended, k - 1, startClock), ended[k - 1], rounds[k - 1].attempts;
      if e.result.NoDirectory? || e.starts > |attempts| then clock else EndClock(attempts, clock, e.result, e.starts)
  }

  /** Call k is the one outcome of its round's attempts. */
  ghost predicate CallOfRound(rounds: seq<Round>, ended: seq<AgentCall>, k: nat, p: int, n: int, cwdExists: bool,
                              startClock: real)
    requires k < |ended| && k < |rounds|
  {
    if cwdExists
    then CallEnds(rounds[k].attempts, p, n, RoundClock(rounds, ended, k, startClock), ended[k].result, ended[k].starts)
    else ended[k] == AgentCall(NoDirectory, 0)
  }

  ghost predicate CallsOfRounds(rounds: seq<Round>, ended: seq<AgentCall>, p: int, n: int, cwdExists: bool,
                                startClock: real) {
    |ended| <= |rounds| && forall k: nat | k < |ended| :: CallOfRound(rounds, ended, k, p, n, cwdExists, startClock)
  }

  function AllStarts(ended: seq<AgentCall>): nat {
    if ended == [] then 0 else AllStarts(Init(ended)) + Last(ended).starts
  }

  lemma {:induction false} RoundClockStays(rounds: seq<Round>, ended: seq<AgentCall>, e: AgentCall, k: nat,
                                           startClock: real)
    requires k <= |ended| && k <= |rounds|
    ensures RoundClock(rounds, ended + [e], k, startClock) == RoundClock(rounds, ended, k, startClock)
  {
    if k > 0 { RoundClockStays(rounds, ended, e, k - 1, startClock); }
  }

  /** One more call. */
  lemma OneCallMore(rounds: seq<Round>, ended: seq<AgentCall>, e: AgentCall, p: int, n: int, cwdExists: bool,
                    startClock: real, clock: real, after: real)
    requires CallsOfRounds(rounds, ended, p, n, cwdExists, startClock) && |ended| < |rounds|
    requires clock == RoundClock(rounds, ended, |ended|, startClock)
    requires if cwdExists
             then CallEnds(rounds[|ended|].attempts, p, n, clock, e.result, e.starts)
                  && after == EndClock(rounds[|ended|].attempts, clock, e.result, e.starts)
             else e == AgentCall(NoDirectory, 0) && after == clock
    ensures CallsOfRounds(rounds, ended + [e], p, n, cwdExists, startClock)
    ensures after == RoundClock(rounds, ended + [e], |ended| + 1, startClock)
    ensures AllStarts(ended + [e]) == AllStarts(ended) + e.starts
  {
    var more := ended + [e];
    assert Init(more) == ended;
    RoundClockStays(rounds, ended, e, |ended|, startClock);
    forall k: nat | k < |more| ensures CallOfRound(rounds, more, k, p, n, cwdExists, startClock) {
      if k < |ended| {
        assert CallOfRound(rounds, ended, k, p, n, cwdExists, startClock);
        RoundClockStays(rounds, ended, e, k, startClock);
      }
    }
  }

  /** The calls so far, their starts and the time after the last one. */
  ghost predicate Called(rounds: seq<Round>, ended: seq<AgentCall>, p: int, n: int, cwdExists: bool, startClock: real,
                         starts: nat, clock: real) {
    && CallsOfRounds(rounds, ended, p, n, cwdExists, startClock)
    && starts == AllStarts(ended) && clock == RoundClock(rounds, ended, |ended|, startClock)
    && (p >= 0 && n >= 0 ==> starts <= StartBound(|ended|, p, n))
  }

  lemma CalledOnceMore(rounds: seq<Round>, ended: seq<AgentCall>, e: AgentCall, p: int, n: int, cwdExists: bool,
                       startClock: real, starts: nat, clock: real, after: real)
    requires Called(rounds, ended, p, n, cwdExists, startClock, starts, clock) && |ended| < |rounds|
    requires if cwdExists
             then CallEnds(rounds[|ended|].attempts, p, n, clock, e.result, e.starts)
                  && after == EndClock(rounds[|ended|].attempts, clock, e.result, e.starts)
             else e == AgentCall(NoDirectory, 0) && after == clock
    requires p >= 0 && n >= 0 ==> e.starts <= n + p + 1
    ensures Called(rounds, ended + [e], p, n, cwdExists, startClock, starts + e.starts, after)
  {
    OneCallMore(rounds, ended, e, p, n, cwdExists, startClock, clock, after);
  }

  /** A round whose call overflowed, with the compaction after it done. */
  predicate Compacted(rounds: seq<Round>, ended: seq<AgentCall>, k: nat, fits: bool)
    requires k < |rounds|
  {
    rounds[k].compactOk && (fits ==> k < |ended| && rounds[k].overflows && !ended[k].result.Running?)
  }

  predicate AllCompacted(rounds: seq<Round>, ended: seq<AgentCall>, m: nat, fits: bool) {
    m <= |rounds| && forall k: nat | k < m :: Compacted(rounds, ended, k, fits)
  }

  lemma CompactedStays(rounds: seq<Round>, ended: seq<AgentCall>, e: AgentCall, m: nat)
    requires AllCompacted(rounds, ended, m, true) && m <= |ended|
    ensures AllCompacted(rounds, ended + [e], m, true)
  {
    forall k: nat | k < m ensures Compacted(rounds, ended + [e], k, true) {
      assert Compacted(rounds, ended, k, true);
    }
  }

  lemma CompactedMore(rounds: seq<Round>, ended: seq<AgentCall>, m: nat, fits: bool)
    requires AllCompacted(rounds, ended, m, fits) && m < |rounds| && Compacted(rounds, ended, m, fits)
    ensures AllCompacted(rounds, ended, m + 1, fits)
  {
  }

  /** The rounds after which the compaction succeeded. */
  function DoneRounds(r: RecoveryResult, compacts: nat): nat {
    if r.CompactFailed? && compacts > 0 then compacts - 1 else compacts
  }

  /** Each result is what the rounds led to: an input that fits is given to one call a round, and round k compacts
      after an overflow or a refused input. */
  ghost predicate RecoveryEnds(r: RecoveryResult, fits: bool, hasSession: bool, maxCompacts: nat, rounds: seq<Round>,
                               compacts: nat, ended: seq<AgentCall>) {
    && compacts <= |rounds|
    && AllCompacted(rounds, ended, DoneRounds(r, compacts), fits)
    && match r
       case Result(call) =>
         && fits && |ended| == compacts + 1 && compacts < |rounds| && call == ended[compacts].result
         && (call.Running? || !rounds[compacts].overflows || !hasSession)
       case NoSession => !fits && !hasSession && ended == [] && rounds != []
       case CompactExhausted =>
         && hasSession && compacts == maxCompacts < |rounds|
         && (fits ==> |ended| == compacts + 1 && rounds[compacts].overflows && !ended[compacts].result.Running?)
       case CompactFailed =>
         && hasSession && compacts > 0 && !rounds[compacts - 1].compactOk
         && (fits ==> |ended| == compacts && rounds[compacts - 1].overflows && !ended[compacts - 1].result.Running?)
       case StillRunning => compacts == |rounds| && (fits ==> |ended| == compacts)
  }

  /** The agent call of the next round. */
  method CallAgent(cwdExists: bool, ghost rounds: seq<Round>, ghost ended: seq<AgentCall>, round: Round, p: int, n: int,
                   ghost startClock: real, starts: nat, clock: real)
    returns (call: CallResult, total: nat, after: real, ghost calls: seq<AgentCall>)
    requires |ended| < |rounds| && round == rounds[|ended|] && TimesForward(round.attempts)
    requires Called(rounds, ended, p, n, cwdExists, startClock, starts, clock)
    requires AllCompacted(rounds, ended, |ended|, true)
    ensures |calls| == |ended| + 1 && calls[|ended|].result == call
    ensures Called(rounds, calls, p, n, cwdExists, startClock, total, after)
    ensures AllCompacted(rounds, calls, |ended|, true)
  {
    var r, callStarts, end, _ := RunWithPiRetry(cwdExists, round.attempts, p, n, clock);
    call, after := r, end;
    CalledOnceMore(rounds, ended, AgentCall(call, callStarts), p, n, cwdExists, startClock, starts, clock, after);
    CompactedStays(rounds, ended, AgentCall(call, callStarts), |ended|);
    total := starts + callStarts;
    calls := ended + [AgentCall(call, callStarts)];
  }

  /** The loop of _run_with_context_overflow_recovery. */
  method RecoveryLoop(
      cwdExists: bool, limit: int, inputTokens: int, hasSession: bool, maxCompacts: nat,
      rounds: seq<Round>, p: int, n: int, startClock: real)
    returns (r: RecoveryResult, compacts: nat, starts: nat, ghost ended: seq<AgentCall>)
    requires maxCompacts >= 1 && RoundsForward(rounds)
    ensures compacts <= maxCompacts && |ended| <= maxCompacts + 1
    ensures p >= 0 && n >= 0 ==> starts <= StartBound(|ended|, p, n)
    ensures inputTokens > limit ==> ended == [] && starts == 0 && !r.Result?
    ensures !hasSession ==> compacts == 0 && |ended| <= 1
    ensures CallsOfRounds(rounds, ended, p, n, cwdExists, startClock) && starts == AllStarts(ended)
    ensures RecoveryEnds(r, inputTokens <= limit, hasSession, maxCompacts, rounds, compacts, ended)
  {
    var overflowAttempts, clock, i := 0, startClock, 0;
    compacts, starts, ended := 0, 0, [];
    while i < |rounds|
      invariant 0 <= i <= |rounds|
      invariant i == compacts == overflowAttempts <= maxCompacts
      invariant |ended| == if inputTokens <= limit then compacts else 0
      invariant Called(rounds, ended, p, n, cwdExists, startClock, starts, clock)
      invariant !hasSession ==> i == 0
      invariant AllCompacted(rounds, ended, i, inputTokens <= limit)
    {
      var round := rounds[i];
      assert round in rounds;
      if inputTokens > limit {
        if !hasSession {
          return NoSession, compacts, starts, ended;
        }
        overflowAttempts := overflowAttempts + 1;
        if overflowAttempts > maxCompacts {
          return CompactExhausted, compacts, starts, ended;
        }
        compacts := compacts + 1;
        if !round.compactOk {
          return CompactFailed, compacts, starts, ended;
        }
        CompactedMore(rounds, ended, i, false);
        i := i + 1;
        continue;
      }
      var call;
      call, starts, clock, ended := CallAgent(cwdExists, rounds, ended, round, p, n, startClock, starts, clock);
      if call.Running? || !round.overflows {
        return Result(call), compacts, starts, ended;
      }
      if !hasSession {
        return Result(call), compacts, starts, ended;
      }
      overflowAttempts := overflowAttempts + 1;
      if overflowAttempts > maxCompacts {
        return CompactExhausted, compacts, starts, ended;
      }
      compacts := compacts + 1;
      if !round.compactOk {
        return CompactFailed, compacts, starts, ended;
      }
      CompactedMore(rounds, ended, i, true);
      i := i + 1;
    }
    return StillRunning, compacts, starts, ended;
  }

  /** The rounds determine the result, the compactions and every call. */
  lemma OneRecovery(fits: bool, hasSession: bool, maxCompacts: nat, rounds: seq<Round>, p: int, n: int,
                    cwdExists: bool, startClock: real, r: RecoveryResult, compacts: nat, ended: seq<AgentCall>,
                    t: RecoveryResult, others: nat, also: seq<AgentCall>)
    requires RecoveryEnds(r, fits, hasSession, maxCompacts, rounds, compacts, ended) && compacts <= maxCompacts
    requires RecoveryEnds(t, fits, hasSession, maxCompacts, rounds, others, also) && others <= maxCompacts
    requires CallsOfRounds(rounds, ended, p, n, cwdExists, startClock)
    requires CallsOfRounds(rounds, also, p, n, cwdExists, startClock)
    requires fits || (ended == [] && also == [])
    requires !hasSession ==> compacts == 0 == others
    ensures r == t && compacts == others && ended == also
  {
    SameCalls(rounds, p, n, cwdExists, startClock, ended, also, if |ended| < |also| then |ended| else |also|);
    var k := if |ended| < |also| then |ended| else |also|;
    forall j | 0 <= j < k ensures ended[j] == also[j] {
      assert ended[j] == ended[..k][j] && also[j] == also[..k][j];
    }
    SameRecovery(fits, hasSession, maxCompacts, rounds, r, compacts, ended, t, others, also);
  }

  lemma {:induction false} SameCalls(rounds: seq<Round>, p: int, n: int, cwdExists: bool, startClock: real,
                                     ended: seq<AgentCall>, also: seq<AgentCall>, k: nat)
    requires CallsOfRounds(rounds, ended, p, n, cwdExists, startClock)
    requires CallsOfRounds(rounds, also, p, n, cwdExists, startClock)
    requires k <= |ended| && k <= |also|
    ensures ended[..k] == also[..k]
    ensures RoundClock(rounds, ended, k, startClock) == RoundClock(rounds, also, k, startClock)
  {
    if k > 0 {
      SameCalls(rounds, p, n, cwdExists, startClock, ended, also, k - 1);
      assert CallOfRound(rounds, ended, k - 1, p, n, cwdExists, startClock);
      assert CallOfRound(rounds, also, k - 1, p, n, cwdExists, startClock);
      if cwdExists {
        OneResult(rounds[k - 1].attempts, p, n, RoundClock(rounds, ended, k - 1, startClock),
                  ended[k - 1].result, ended[k - 1].starts, also[k - 1].result, also[k - 1].starts);
      }
      assert ended[..k] == ended[..k - 1] + [ended[k - 1]] && also[..k] == also[..k - 1] + [also[k - 1]];
    }
  }

  lemma SameRecovery(fits: bool, hasSession: bool, maxCompacts: nat, rounds: seq<Round>, r: RecoveryResult,
                     compacts: nat, ended: seq<AgentCall>, t: RecoveryResult, others: nat, also: seq<AgentCall>)
    requires RecoveryEnds(r, fits, hasSession, maxCompacts, rounds, compacts, ended) && compacts <= maxCompacts
    requires RecoveryEnds(t, fits, hasSession, maxCompacts, rounds, others, also) && others <= maxCompacts
    requires SamePrefix(ended, also) && (fits || (ended == [] && also == []))
    requires !hasSession ==> compacts == 0 == others
    ensures r == t && compacts == others && ended == also
  {
    NoFurther(fits, hasSession, maxCompacts, rounds, r, compacts, ended, t, others, also);
    NoFurther(fits, hasSession, maxCompacts, rounds, t, others, also, r, compacts, ended);
    var m := DoneRounds(r, compacts);
    assert m < |ended| && m < |also| ==> ended[m] == also[m];
    assert |ended| == |also| ==> ended == also;
  }

  predicate SamePrefix(ended: seq<AgentCall>, also: seq<AgentCall>) {
    forall k | 0 <= k < |ended| && k < |also| :: ended[k] == also[k]
  }

  lemma NoFurther(fits: bool, hasSession: bool, maxCompacts: nat, rounds: seq<Round>, r: RecoveryResult,
                  compacts: nat, ended: seq<AgentCall>, t: RecoveryResult, others: nat, also: seq<AgentCall>)
    requires RecoveryEnds(r, fits, hasSession, maxCompacts, rounds, compacts, ended) && compacts <= maxCompacts
    requires RecoveryEnds(t, fits, hasSession, maxCompacts, rounds, others, also) && others <= maxCompacts
    requires SamePrefix(ended, also) && (!hasSession ==> compacts == 0 == others)
    ensures DoneRounds(t, others) <= DoneRounds(r, compacts)
  {
    var m := DoneRounds(r, compacts);
    assert m < DoneRounds(t, others) ==> Compacted(rounds, also, m, fits);
  }

  /** _run_with_context_overflow_recovery. It compacts at most `maxCompacts` times and calls the agent loop
      at most once more than that, so with limits p and n it starts the agent at most
      (maxCompacts + 1)(n + p + 1) times; an input over the preflight limit never starts the agent, and
      compacting never rescues it. */
  method RunWithContextOverflowRecovery(
      cwdExists: bool, contextWindow: int, inputTokens: int, hasSession: bool, maxCompacts: nat,
      rounds: seq<Round>, p: int, n: int, startClock: real)
    returns (r: RecoveryResult, compacts: nat, starts: nat, ghost ended: seq<AgentCall>)
    requires maxCompacts >= 1 && RoundsForward(rounds)
    ensures compacts <= maxCompacts && |ended| <= maxCompacts + 1
    ensures p >= 0 && n >= 0 ==> starts <= StartBound(maxCompacts + 1, p, n) == (maxCompacts + 1) * (n + p + 1)
    ensures inputTokens > PreflightLimit(contextWindow) ==> ended == [] && starts == 0 && !r.Result?
    ensures !hasSession ==> compacts == 0 && |ended| <= 1
    ensures CallsOfRounds(rounds, ended, p, n, cwdExists, startClock) && starts == AllStarts(ended)
    ensures RecoveryEnds(r, inputTokens <= PreflightLimit(contextWindow), hasSession, maxCompacts, rounds, compacts,
                         ended)
  {
    r, compacts, starts, ended :=
      RecoveryLoop(cwdExists, PreflightLimit(contextWindow), inputTokens, hasSession, maxCompacts, rounds, p, n,
                   startClock);
    if p >= 0 && n >= 0 { StartBoundMonotone(|ended|, maxCompacts + 1, p, n); }
  }
}
