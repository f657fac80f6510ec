/** The typing session of script.js as a state machine over values: the
    module-level variables, one function per event the page reacts to, the
    invariant every event keeps, and properties of whole event sequences.
    The timer callbacks of the source are events here: a countdown second,
    a running second, the delayed sentence advance and the delayed re-enabling
    of the start controls. */
module Session {
  import opened Wrappers
  import opened Scoring
  import opened Pools
  import opened Stats
  import opened History

  /** The start button always asks for a three-second countdown. */
  const CountdownSeconds: int := 3

  /** Which controls are live and which interval timer runs.
      Idle: start controls enabled, no timer. Countdown(sec): controls and
      input disabled, the countdown interval runs and shows `sec`. Running:
      input enabled, the one-second session interval runs. Ended: the interval
      is cleared and the input disabled; the start controls come back with
      the delayed re-enable, which returns the page to Idle. */
  datatype Phase = Idle | Countdown(sec: int) | Running | Ended

  /** The page's state. `typed` is the input box's value; `pendingAdvances`
      counts delayed nextSentence callbacks scheduled and not yet run (the
      source never cancels them); `live` and `result` are the WPM/accuracy
      read-outs ("--" is None); `slot` is the storage slot. `level` is the
      level field's value as beginTest read it: the field stays disabled
      until the session has ended, so endTest records that same value. */
  datatype State = State(
    phase: Phase,
    level: string,
    pool: seq<string>,
    currentText: string,
    typed: string,
    sentenceComplete: bool,
    totalTyped: nat,
    totalCorrect: nat,
    timeLeft: int,
    pendingAdvances: nat,
    live: Option<Readout>,
    result: Option<Readout>,
    history: seq<Entry>,
    slot: Slot)

  /** Page load: empty session variables, history read from the slot. */
  function Initial(slot: Slot): (s: State)
    ensures s.phase == Idle && s.history == Load(slot)
    ensures Inv(s)
  {
    State(Idle, "", [], "", "", false, 0, 0, 0, 0, None, None, Load(slot), slot)
  }

  /** Characters typed so far, counting the input box as it stands. */
  function LiveTyped(s: State): nat
  {
    s.totalTyped + |s.typed|
  }

  /** Correct characters so far, counting the input box as it stands. */
  function LiveCorrect(s: State): nat
  {
    s.totalCorrect + CorrectCount(s.currentText, s.typed)
  }

  predicate InRange(r: Option<Readout>)
  {
    r.Some? ==> 0.0 <= r.value.accuracy <= 100.0 && r.value.wpm >= 0.0
  }

  /** What every event preserves. */
  predicate Inv(s: State)
  {
    && s.totalCorrect <= s.totalTyped
    && (s.pool != [] ==> UsablePool(s.pool) && s.currentText in s.pool)
    && (s.pool != [] ==> s.pool == BuildPool(s.level))
    && (s.pendingAdvances > 0 ==> s.pool != [])
    && (s.phase == Running ==> s.pool != [] && s.timeLeft >= 1)
    && InRange(s.live) && InRange(s.result)
  }

  /** startCountdown(seconds). */
  function StartCountdown(s: State, seconds: int): (r: State)
    ensures r.phase == Countdown(seconds) && r.(phase := s.phase) == s
  {
    s.(phase := Countdown(seconds))
  }

  /** nextSentence: a fresh sentence from the pool at a random index, an empty
      input box, and the completion flag cleared. */
  function NextSentence(s: State, idx: nat): (r: State)
    requires idx < |s.pool|
    ensures r.currentText in s.pool && r.typed == "" && !r.sentenceComplete
    ensures r.(currentText := s.currentText, typed := s.typed, sentenceComplete := s.sentenceComplete) == s
  {
    s.(sentenceComplete := false, typed := "", currentText := s.pool[idx])
  }

  /** beginTest: a new session with zeroed counters. */
  function BeginTest(s: State, duration: int, level: string, idx: nat): (r: State)
    requires idx < |BuildPool(level)|
    ensures r.phase == Running && r.timeLeft == duration && r.level == level && r.pool == BuildPool(level)
    ensures r.totalTyped == 0 && r.totalCorrect == 0 && r.currentText in r.pool
  {
    var s1 := s.(timeLeft := duration, live := None, totalTyped := 0, totalCorrect := 0,
                 level := level, pool := BuildPool(level));
    NextSentence(s1, idx).(phase := Running)
  }

  /** beginTest starts a clean session: both counters and the live read-out
      reset, the level's pool, a sentence drawn from it with an empty input
      box and the flag cleared, and the full duration on the clock; the log
      and the pending callbacks are kept. */
  lemma BeginTestResets(s: State, duration: int, level: string, idx: nat)
    requires idx < |BuildPool(level)|
    ensures var r := BeginTest(s, duration, level, idx);
      && r.phase == Running && r.timeLeft == duration
      && r.totalTyped == 0 && r.totalCorrect == 0 && r.live == None
      && r.level == level && r.pool == BuildPool(level) && r.currentText in r.pool
      && r.typed == "" && !r.sentenceComplete
      && r.history == s.history && r.slot == s.slot && r.pendingAdvances == s.pendingAdvances
  {
  }

  /** One second of the countdown: the n-th tick of a countdown from n
      begins the session. `duration`, `level` and `idx` are the duration
      field, the level field and the random index read by beginTest. */
  function CountdownTick(s: State, duration: int, level: string, idx: nat): (r: State)
    requires s.phase.Countdown? && idx < |BuildPool(level)|
    ensures s.phase.sec > 1 ==> r == s.(phase := Countdown(s.phase.sec - 1))
    ensures s.phase.sec <= 1 ==> r.phase == Running && r.timeLeft == duration
  {
    var sec := s.phase.sec - 1;
    if sec > 0 then s.(phase := Countdown(sec))
    else BeginTest(s, duration, level, idx)
  }

  /** The completion rule of the input handler. */
  predicate Completes(s: State, typed: string)
  {
    !s.sentenceComplete && |typed| >= |s.currentText|
  }

  /** The input handler: the box now holds `typed`; the first time it is at
      least as long as the sentence, the sentence's length and its correct
      count are folded into the totals and an advance is scheduled. */
  function HandleInput(s: State, typed: string): (r: State)
    ensures r.typed == typed && r.currentText == s.currentText && r.phase == s.phase
    ensures r.sentenceComplete <==> s.sentenceComplete || |typed| >= |s.currentText|
    ensures s.totalTyped <= r.totalTyped && s.totalCorrect <= r.totalCorrect
    ensures r.totalCorrect - s.totalCorrect <= r.totalTyped - s.totalTyped
  {
    var s1 := s.(typed := typed);
    if Completes(s, typed) then
      s1.(sentenceComplete := true,
          totalTyped := s.totalTyped + |s.currentText|,
          totalCorrect := s.totalCorrect + CorrectCount(s.currentText, typed),
          pendingAdvances := s.pendingAdvances + 1)
    else s1
  }

  /** The delayed nextSentence callback firing. */
  function Advance(s: State, idx: nat): (r: State)
    requires s.pendingAdvances > 0 && idx < |s.pool|
    ensures r.pendingAdvances == s.pendingAdvances - 1
    ensures r.currentText in s.pool && r.typed == "" && !r.sentenceComplete
    ensures r.totalTyped == s.totalTyped && r.totalCorrect == s.totalCorrect
  {
    NextSentence(s, idx).(pendingAdvances := s.pendingAdvances - 1)
  }

  /** updateLiveStats at `elapsedMs` since the session began. */
  function UpdateLiveStats(s: State, elapsedMs: int): (r: State)
    ensures r == s.(live := r.live)
    ensures elapsedMs < 500 ==> r == s
    ensures elapsedMs >= 500 ==> r.live.Some?
  {
    match LiveStats(elapsedMs, LiveCorrect(s), LiveTyped(s))
    case None => s
    case Some(r) => s.(live := Some(r))
  }

  /** endTest: the final read-out, one new history entry for the session's
      level, and a save. */
  function EndTest(s: State, elapsedMs: int, date: string, saveOk: bool): (r: State)
    ensures r.phase == Ended && r.result.Some?
    ensures |r.history| == |s.history| + 1 && r.history[..|s.history|] == s.history
  {
    var s1 := UpdateLiveStats(s.(phase := Ended), elapsedMs);
    var fin := FinalStats(elapsedMs, LiveCorrect(s1), LiveTyped(s1));
    var entry := Entry(fin.wpm, fin.accuracy, RoundedSeconds(elapsedMs), s.level, date);
    var h := s.history + [entry];
    s1.(result := Some(fin), history := h, slot := Save(s.slot, h, saveOk))
  }

  /** One second of the running session: the clock goes down, the live
      read-outs are refreshed, and the session ends once no time is left. */
  function Tick(s: State, elapsedMs: int, date: string, saveOk: bool): (r: State)
    ensures s.timeLeft > 1 ==> r.phase == s.phase && r.timeLeft == s.timeLeft - 1 && r.history == s.history
    ensures s.timeLeft <= 1 ==> r.phase == Ended && |r.history| == |s.history| + 1
  {
    var s1 := UpdateLiveStats(s.(timeLeft := s.timeLeft - 1), elapsedMs);
    if s1.timeLeft <= 0 then EndTest(s1, elapsedMs, date, saveOk) else s1
  }

  /** The delayed re-enabling of the start controls. */
  function ReEnable(s: State): (r: State)
    ensures r.phase == Idle && r.(phase := s.phase) == s
  {
    s.(phase := Idle)
  }

  /** The clear-history button, after the confirmation dialog. */
  function ClearHistory(s: State, confirmed: bool, saveOk: bool): (r: State)
    ensures r.(history := s.history, slot := s.slot) == s
    ensures confirmed ==> r.history == []
    ensures !confirmed ==> r == s
  {
    if confirmed then s.(history := [], slot := Save(s.slot, [], saveOk)) else s
  }

  /** Everything the page reacts to. */
  datatype Event =
    | StartClicked
    | CountdownSecond(duration: int, level: string, idx: nat)
    | Typed(text: string)
    | AdvanceDue(idx: nat)
    | SessionSecond(elapsedMs: int, date: string, saveOk: bool)
    | ControlsDue
    | ClearClicked(confirmed: bool, saveOk: bool)

  /** Whether the event can reach the page in state `s`: a disabled control
      dispatches nothing, a cleared interval does not tick, a delayed callback
      runs only if it was scheduled, a random index is in range and the
      duration field holds a positive whole number. */
  predicate Enabled(s: State, e: Event)
  {
    match e
    case StartClicked => s.phase == Idle
    case CountdownSecond(d, l, i) => s.phase.Countdown? && d > 0 && i < |BuildPool(l)|
    case Typed(_) => s.phase == Running
    case AdvanceDue(i) => s.pendingAdvances > 0 && i < |s.pool|
    case SessionSecond(_, _, _) => s.phase == Running
    case ControlsDue => s.phase == Ended
    case ClearClicked(_, _) => true
  }

  function Step(s: State, e: Event): State
    requires Enabled(s, e)
  {
    match e
    case StartClicked => StartCountdown(s, CountdownSeconds)
    case CountdownSecond(d, l, i) => CountdownTick(s, d, l, i)
    case Typed(t) => HandleInput(s, t)
    case AdvanceDue(i) => Advance(s, i)
    case SessionSecond(ms, date, ok) => Tick(s, ms, date, ok)
    case ControlsDue => ReEnable(s)
    case ClearClicked(c, ok) => ClearHistory(s, c, ok)
  }

  /** The page after a sequence of events; events that cannot reach it are
      ignored. */
  function Run(s: State, es: seq<Event>): State
    decreases |es|
  {
    if es == [] then s
    else Run(if Enabled(s, es[0]) then Step(s, es[0]) else s, es[1..])
  }

  lemma LiveTallyBounded(s: State)
    requires Inv(s)
    ensures LiveCorrect(s) <= LiveTyped(s)
  {
  }

  lemma LiveTallyFromTotals(s: State)
    requires s.totalCorrect <= s.totalTyped
    ensures LiveCorrect(s) <= LiveTyped(s)
  {
  }

  /** The live read-outs stay in range while the tallies are consistent;
      updateLiveStats changes nothing else. */
  lemma LiveReadoutInRange(s: State, ms: int)
    requires s.totalCorrect <= s.totalTyped && InRange(s.live)
    ensures InRange(UpdateLiveStats(s, ms).live)
    ensures UpdateLiveStats(s, ms) == s.(live := UpdateLiveStats(s, ms).live)
  {
    LiveTallyFromTotals(s);
  }

  /** Typing is only possible while a session runs: a completion outside one
      could schedule an advance with no pool to draw from. */
  lemma HandleInputKeepsInv(s: State, typed: string)
    requires Inv(s) && s.phase == Running
    ensures Inv(HandleInput(s, typed))
  {
  }

  lemma CountdownTickKeepsInv(s: State, duration: int, level: string, idx: nat)
    requires Inv(s) && s.phase.Countdown? && duration > 0 && idx < |BuildPool(level)|
    ensures Inv(CountdownTick(s, duration, level, idx))
  {
    if s.phase.sec - 1 <= 0 {
      BeginTestResets(s, duration, level, idx);
    }
  }

  lemma AdvanceKeepsInv(s: State, idx: nat)
    requires Inv(s) && s.pendingAdvances > 0 && idx < |s.pool|
    ensures Inv(Advance(s, idx))
  {
  }

  lemma EndTestKeepsInv(s: State, ms: int, date: string, saveOk: bool)
    requires s.totalCorrect <= s.totalTyped && InRange(s.live) && InRange(s.result)
    requires s.pool != [] ==> UsablePool(s.pool) && s.currentText in s.pool
    requires s.pool != [] ==> s.pool == BuildPool(s.level)
    requires s.pendingAdvances > 0 ==> s.pool != []
    ensures Inv(EndTest(s, ms, date, saveOk))
  {
    var s2 := s.(phase := Ended);
    LiveReadoutInRange(s2, ms);
    LiveTallyFromTotals(UpdateLiveStats(s2, ms));
  }

  /** A running second keeps the invariant; in particular the session is
      still running only while time is left. */
  lemma TickKeepsInv(s: State, ms: int, date: string, saveOk: bool)
    requires Inv(s) && s.phase == Running
    ensures Inv(Tick(s, ms, date, saveOk))
  {
    var s0 := s.(timeLeft := s.timeLeft - 1);
    LiveReadoutInRange(s0, ms);
    var s1 := UpdateLiveStats(s0, ms);
    if s1.timeLeft <= 0 {
      EndTestKeepsInv(s1, ms, date, saveOk);
    }
  }

  /** Every event keeps the invariant, in particular totalCorrect <= totalTyped. */
  lemma StepPreservesInv(s: State, e: Event)
    requires Inv(s) && Enabled(s, e)
    ensures Inv(Step(s, e))
  {
    match e
    case CountdownSecond(d, l, i) => CountdownTickKeepsInv(s, d, l, i);
    case Typed(t) => HandleInputKeepsInv(s, t);
    case AdvanceDue(i) => AdvanceKeepsInv(s, i);
    case SessionSecond(ms, date, ok) => TickKeepsInv(s, ms, date, ok);
    case _ =>
  }

  /** Any sequence of events from an invariant state ends in one. */
  lemma {:induction false} RunPreservesInv(s: State, es: seq<Event>)
    requires Inv(s)
    ensures Inv(Run(s, es))
    decreases |es|
  {
    if es != [] {
      if Enabled(s, es[0]) {
        StepPreservesInv(s, es[0]);
      }
      RunPreservesInv(if Enabled(s, es[0]) then Step(s, es[0]) else s, es[1..]);
    }
  }

  /** Everything reachable from page load satisfies the invariant; so the
      live and final tallies never count more correct than typed characters,
      and the read-outs stay in range. */
  lemma ReachableTallies(slot: Slot, es: seq<Event>)
    ensures Inv(Run(Initial(slot), es))
    ensures LiveCorrect(Run(Initial(slot), es)) <= LiveTyped(Run(Initial(slot), es))
  {
    RunPreservesInv(Initial(slot), es);
  }

  lemma {:induction false} RunningIgnoresCountdown(s: State, es: seq<Event>)
    requires s.phase == Running
    requires forall i :: 0 <= i < |es| ==> es[i].CountdownSecond?
    ensures Run(s, es) == s
    decreases |es|
  {
    if es != [] {
      RunningIgnoresCountdown(s, es[1..]);
    }
  }

  /** A countdown from n >= 1 stays in the countdown for n - 1 seconds, and
      the n-th second runs beginTest exactly once (with what that second
      read); later countdown seconds cannot follow, its interval being
      cleared. */
  lemma CountdownBeginsOnce(s: State, n: int, es: seq<Event>)
    requires s.phase == Countdown(n) && n >= 1
    requires forall i :: 0 <= i < |es| ==>
               es[i].CountdownSecond? && es[i].duration > 0 && es[i].idx < |BuildPool(es[i].level)|
    ensures |es| < n ==> Run(s, es) == s.(phase := Countdown(n - |es|))
    ensures |es| >= n ==>
              Run(s, es) == BeginTest(s, es[n - 1].duration, es[n - 1].level, es[n - 1].idx)
  {
    if |es| < n {
      CountdownCounts(s, n, es);
    } else {
      CountdownBegins(s, n, es);
    }
  }

  /** The seconds before the last only lower the countdown. */
  lemma {:induction false} CountdownCounts(s: State, n: int, es: seq<Event>)
    requires s.phase == Countdown(n) && |es| < n
    requires forall i :: 0 <= i < |es| ==>
               es[i].CountdownSecond? && es[i].duration > 0 && es[i].idx < |BuildPool(es[i].level)|
    ensures Run(s, es) == s.(phase := Countdown(n - |es|))
    decreases |es|
  {
    if es != [] {
      var rest := es[1..];
      assert forall i :: 0 <= i < |rest| ==> rest[i] == es[i + 1];
      CountdownFirstSecond(s, n, es);
      CountdownCounts(s.(phase := Countdown(n - 1)), n - 1, rest);
    }
  }

  /** The n-th second begins the session and the later ones are ignored. */
  lemma {:induction false} CountdownBegins(s: State, n: int, es: seq<Event>)
    requires s.phase == Countdown(n) && n >= 1 && |es| >= n
    requires forall i :: 0 <= i < |es| ==>
               es[i].CountdownSecond? && es[i].duration > 0 && es[i].idx < |BuildPool(es[i].level)|
    ensures Run(s, es) == BeginTest(s, es[n - 1].duration, es[n - 1].level, es[n - 1].idx)
    decreases |es|
  {
    var rest := es[1..];
    assert forall i :: 0 <= i < |rest| ==> rest[i] == es[i + 1];
    CountdownFirstSecond(s, n, es);
    if n > 1 {
      CountdownBegins(s.(phase := Countdown(n - 1)), n - 1, rest);
      assert rest[n - 2] == es[n - 1];
      BeginTestIgnoresPhase(s, n - 1, es[n - 1].duration, es[n - 1].level, es[n - 1].idx);
    } else {
      RunningIgnoresCountdown(BeginTest(s, es[0].duration, es[0].level, es[0].idx), rest);
    }
  }

  /** The first countdown second of a run. */
  lemma CountdownFirstSecond(s: State, n: int, es: seq<Event>)
    requires s.phase == Countdown(n) && n >= 1 && es != []
    requires es[0].CountdownSecond? && es[0].duration > 0 && es[0].idx < |BuildPool(es[0].level)|
    ensures n > 1 ==> Run(s, es) == Run(s.(phase := Countdown(n - 1)), es[1..])
    ensures n == 1 ==> Run(s, es) == Run(BeginTest(s, es[0].duration, es[0].level, es[0].idx), es[1..])
  {
    assert Enabled(s, es[0]);
  }

  /** beginTest does not read the phase it replaces. */
  lemma BeginTestIgnoresPhase(s: State, n: int, duration: int, level: string, idx: nat)
    requires idx < |BuildPool(level)|
    ensures BeginTest(s.(phase := Countdown(n)), duration, level, idx) == BeginTest(s, duration, level, idx)
  {
  }

  /** The events that can come while a session runs, apart from the history
      dialog. */
  predicate InSession(e: Event)
  {
    e.Typed? || e.AdvanceDue? || e.SessionSecond?
  }

  /** How many running seconds a sequence of events holds. */
  function Seconds(es: seq<Event>): nat
  {
    if es == [] then 0 else (if es[0].SessionSecond? then 1 else 0) + Seconds(es[1..])
  }

  lemma {:induction false} EndedStaysEnded(s: State, es: seq<Event>)
    requires s.phase == Ended
    requires forall i :: 0 <= i < |es| ==> InSession(es[i])
    ensures Run(s, es).phase == Ended && Run(s, es).history == s.history
    decreases |es|
  {
    if es != [] {
      var s1 := if Enabled(s, es[0]) then Step(s, es[0]) else s;
      assert s1.phase == Ended && s1.history == s.history;
      EndedStaysEnded(s1, es[1..]);
    }
  }

  /** A session with t seconds left runs for exactly t more running seconds,
      however typing and sentence advances interleave with them, and then
      ends having appended exactly one entry to the history. */
  lemma {:induction false} SessionEndsOnce(s: State, es: seq<Event>)
    requires s.phase == Running && s.timeLeft >= 1
    requires forall i :: 0 <= i < |es| ==> InSession(es[i])
    ensures Seconds(es) < s.timeLeft ==>
              Run(s, es).phase == Running && Run(s, es).timeLeft == s.timeLeft - Seconds(es)
              && Run(s, es).history == s.history
    ensures Seconds(es) >= s.timeLeft ==>
              Run(s, es).phase == Ended && |Run(s, es).history| == |s.history| + 1
              && Run(s, es).history[..|s.history|] == s.history
    decreases |es|
  {
    if es != [] {
      var e := es[0];
      var s1 := if Enabled(s, e) then Step(s, e) else s;
      if e.SessionSecond? && s.timeLeft == 1 {
        assert s1.phase == Ended && s1.history[..|s.history|] == s.history;
        assert |s1.history| == |s.history| + 1;
        EndedStaysEnded(s1, es[1..]);
      } else {
        assert s1.phase == Running && s1.history == s.history;
        assert s1.timeLeft == s.timeLeft - (if e.SessionSecond? then 1 else 0);
        SessionEndsOnce(s1, es[1..]);
      }
    }
  }

  /** Events that neither advance the sentence nor begin a session. */
  predicate KeepsSentence(e: Event)
  {
    !e.AdvanceDue? && !e.CountdownSecond?
  }

  /** Between two sentence changes the completion rule fires at most once:
      once the flag is set nothing changes the totals, and otherwise they grow
      by one sentence's worth at most, with exactly one advance scheduled. */
  lemma {:induction false} CompletesAtMostOnce(s: State, es: seq<Event>)
    requires forall i :: 0 <= i < |es| ==> KeepsSentence(es[i])
    ensures Run(s, es).currentText == s.currentText && Run(s, es).pool == s.pool
    ensures s.sentenceComplete ==>
              Run(s, es).sentenceComplete
              && Run(s, es).totalTyped == s.totalTyped && Run(s, es).totalCorrect == s.totalCorrect
              && Run(s, es).pendingAdvances == s.pendingAdvances
    ensures (Run(s, es).totalTyped == s.totalTyped && Run(s, es).totalCorrect == s.totalCorrect
             && Run(s, es).pendingAdvances == s.pendingAdvances
             && Run(s, es).sentenceComplete == s.sentenceComplete)
            || (!s.sentenceComplete && Run(s, es).sentenceComplete
                && Run(s, es).totalTyped == s.totalTyped + |s.currentText|
                && s.totalCorrect <= Run(s, es).totalCorrect <= s.totalCorrect + |s.currentText|
                && Run(s, es).pendingAdvances == s.pendingAdvances + 1)
    decreases |es|
  {
    if es != [] {
      var s1 := if Enabled(s, es[0]) then Step(s, es[0]) else s;
      KeepsSentenceStep(s, es[0]);
      CompletesAtMostOnce(s1, es[1..]);
    }
  }

  /** One event of CompletesAtMostOnce. */
  lemma KeepsSentenceStep(s: State, e: Event)
    requires KeepsSentence(e)
    ensures var s1 := if Enabled(s, e) then Step(s, e) else s;
            s1.currentText == s.currentText && s1.pool == s.pool
            && (s.sentenceComplete ==>
                  s1.sentenceComplete && s1.totalTyped == s.totalTyped
                  && s1.totalCorrect == s.totalCorrect && s1.pendingAdvances == s.pendingAdvances)
            && ((s1.totalTyped == s.totalTyped && s1.totalCorrect == s.totalCorrect
                 && s1.pendingAdvances == s.pendingAdvances && s1.sentenceComplete == s.sentenceComplete)
                || (!s.sentenceComplete && s1.sentenceComplete
                    && s1.totalTyped == s.totalTyped + |s.currentText|
                    && s.totalCorrect <= s1.totalCorrect <= s.totalCorrect + |s.currentText|
                    && s1.pendingAdvances == s.pendingAdvances + 1))
  {
  }

  /** A stream of input values. */
  function Typings(ts: seq<string>): (es: seq<Event>)
    ensures |es| == |ts|
  {
    if ts == [] then [] else [Typed(ts[0])] + Typings(ts[1..])
  }

  /** While no input value is as long as the sentence, completion does not
      fire: nothing is folded into the totals. */
  lemma {:induction false} NoCompletionBeforeReach(s: State, ts: seq<string>)
    requires s.phase == Running && !s.sentenceComplete
    requires forall i :: 0 <= i < |ts| ==> |ts[i]| < |s.currentText|
    ensures !Run(s, Typings(ts)).sentenceComplete
    ensures Run(s, Typings(ts)).totalTyped == s.totalTyped
    ensures Run(s, Typings(ts)).totalCorrect == s.totalCorrect
    ensures Run(s, Typings(ts)).pendingAdvances == s.pendingAdvances
    ensures Run(s, Typings(ts)).phase == Running
    ensures Run(s, Typings(ts)).currentText == s.currentText
    decreases |ts|
  {
    if ts != [] {
      var es := Typings(ts);
      assert es[0] == Typed(ts[0]) && es[1..] == Typings(ts[1..]);
      var s1 := HandleInput(s, ts[0]);
      assert s1 == s.(typed := ts[0]);
      assert Run(s, es) == Run(s1, Typings(ts[1..]));
      NoCompletionBeforeReach(s1, ts[1..]);
    }
  }

  /** While a sentence is being typed, completion fires precisely at the first
      input value at least as long as the sentence, not before and not later,
      and folds in the sentence length and the correct count of that value. */
  lemma {:induction false} CompletesAtFirstReach(s: State, ts: seq<string>, k: nat)
    requires s.phase == Running && !s.sentenceComplete
    requires k < |ts| && |ts[k]| >= |s.currentText|
    requires forall j :: 0 <= j < k ==> |ts[j]| < |s.currentText|
    ensures Run(s, Typings(ts)).sentenceComplete
    ensures Run(s, Typings(ts)).totalTyped == s.totalTyped + |s.currentText|
    ensures Run(s, Typings(ts)).totalCorrect == s.totalCorrect + CorrectCount(s.currentText, ts[k])
    ensures Run(s, Typings(ts)).pendingAdvances == s.pendingAdvances + 1
  {
    var before, after := ts[..k], ts[k..];
    assert ts == before + after;
    TypingsConcat(before, after);
    RunConcat(s, Typings(before), Typings(after));
    NoCompletionBeforeReach(s, before);
    var m := Run(s, Typings(before));
    var es := Typings(after);
    assert es[0] == Typed(ts[k]) && es[1..] == Typings(after[1..]);
    var m1 := HandleInput(m, ts[k]);
    assert Run(m, es) == Run(m1, es[1..]);
    forall i | 0 <= i < |es[1..]| ensures KeepsSentence(es[1..][i]) {
      TypingsAt(after[1..], i);
    }
    CompletesAtMostOnce(m1, es[1..]);
  }

  lemma {:induction false} TypingsConcat(a: seq<string>, b: seq<string>)
    ensures Typings(a + b) == Typings(a) + Typings(b)
    decreases |a|
  {
    if a != [] {
      assert (a + b)[1..] == a[1..] + b;
      TypingsConcat(a[1..], b);
    } else {
      assert a + b == b;
    }
  }

  lemma {:induction false} RunConcat(s: State, a: seq<Event>, b: seq<Event>)
    ensures Run(s, a + b) == Run(Run(s, a), b)
    decreases |a|
  {
    if a != [] {
      assert (a + b)[1..] == a[1..] + b;
      RunConcat(if Enabled(s, a[0]) then Step(s, a[0]) else s, a[1..], b);
    } else {
      assert a + b == b;
    }
  }

  lemma {:induction false} TypingsAt(ts: seq<string>, i: nat)
    requires i < |ts|
    ensures Typings(ts)[i] == Typed(ts[i])
    decreases |ts|
  {
    if i > 0 {
      TypingsAt(ts[1..], i - 1);
    }
  }

  /** Until the delayed advance runs, the input box still holds the completed
      sentence, so the live and final tallies count it a second time on top
      of the totals it was folded into. */
  lemma CompletedSentenceCountedTwice(s: State, typed: string)
    requires Completes(s, typed)
    ensures LiveTyped(HandleInput(s, typed)) == s.totalTyped + |s.currentText| + |typed|
    ensures LiveCorrect(HandleInput(s, typed)) == s.totalCorrect + 2 * CorrectCount(s.currentText, typed)
  {
  }

  /** endTest records exactly one entry, on top of the listing, carrying the
      final read-out (in range), the rounded elapsed seconds, the level the
      session began with (the one whose list served its sentences) and the
      date; a successful save makes the slot load back the whole log. */
  lemma EndTestRecordsOneEntry(s: State, elapsedMs: int, date: string, saveOk: bool)
    requires Inv(s)
    ensures var r := EndTest(s, elapsedMs, date, saveOk);
      && r.phase == Ended && r.result.Some?
      && |r.history| == |s.history| + 1 && r.history[..|s.history|] == s.history
      && r.history[|s.history|]
         == Entry(r.result.value.wpm, r.result.value.accuracy, RoundedSeconds(elapsedMs), s.level, date)
      && (s.pool != [] ==> BuildPool(r.history[|s.history|].difficulty) == s.pool)
      && 0.0 <= r.result.value.accuracy <= 100.0 && r.result.value.wpm >= 0.0
      && Listing(r.history)[0] == r.history[|s.history|]
      && (saveOk ==> Load(r.slot) == r.history)
      && (!saveOk ==> r.slot == s.slot)
  {
    var s1 := UpdateLiveStats(s.(phase := Ended), elapsedMs);
    LiveReadoutInRange(s.(phase := Ended), elapsedMs);
    LiveTallyBounded(s1);
    ListingAppend(s.history, EndTest(s, elapsedMs, date, saveOk).history[|s.history|]);
  }

  /** A confirmed clear empties the log (and the slot, if the save works);
      a declined one changes nothing. */
  lemma ClearHistoryEmpties(s: State, confirmed: bool, saveOk: bool)
    ensures confirmed ==> ClearHistory(s, confirmed, saveOk).history == []
                          && Listing(ClearHistory(s, confirmed, saveOk).history) == []
    ensures confirmed && saveOk ==> Load(ClearHistory(s, confirmed, saveOk).slot) == []
    ensures !confirmed ==> ClearHistory(s, confirmed, saveOk) == s
  {
  }
}
