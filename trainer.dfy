/** The page's module-level state of script.js as an object, with one method
    per handler or timer callback. Each method updates the fields in place as
    the handler does, and its contract ties the new state to the matching
    event of the Session model, whose invariant it keeps. */
module App {
  import opened Wrappers
  import opened Scoring
  import opened Pools
  import opened Stats
  import opened History
  import Session

  class Trainer {
    var phase: Session.Phase
    /** The level field's value as beginTest read it. */
    var level: string
    var sentencePool: seq<string>
    var currentText: string
    /** The input box's value. */
    var inputValue: string
    var sentenceComplete: bool
    var totalTyped: nat
    var totalCorrect: nat
    var timeLeft: int
    /** Scheduled nextSentence callbacks that have not run yet. */
    var pendingAdvances: nat
    var live: Option<Readout>
    var result: Option<Readout>
    var history: seq<Entry>
    /** The storage slot the history is saved to. */
    var slot: Slot

    function Snapshot(): Session.State
      reads this
    {
      Session.State(phase, level, sentencePool, currentText, inputValue, sentenceComplete,
                    totalTyped, totalCorrect, timeLeft, pendingAdvances, live, result,
                    history, slot)
    }

    ghost predicate Valid()
      reads this
    {
      Session.Inv(Snapshot())
    }

    /** Page load: the history is read from the slot. */
    constructor (stored: Slot)
      ensures Snapshot() == Session.Initial(stored) && Valid()
    {
      phase := Session.Idle;
      level := "";
      sentencePool := [];
      currentText := "";
      inputValue := "";
      sentenceComplete := false;
      totalTyped := 0;
      totalCorrect := 0;
      timeLeft := 0;
      pendingAdvances := 0;
      live := None;
      result := None;
      history := Load(stored);
      slot := stored;
    }

    /** The start button's handler calls this with three seconds. */
    method StartCountdown(seconds: int)
      requires Valid() && phase == Session.Idle
      modifies this
      ensures Snapshot() == Session.StartCountdown(old(Snapshot()), seconds) && Valid()
    {
      phase := Session.Countdown(seconds);
    }

    /** One tick of the countdown interval. */
    method CountdownTick(duration: int, level: string, idx: nat)
      requires Valid() && phase.Countdown? && duration > 0 && idx < |BuildPool(level)|
      modifies this
      ensures Snapshot() == Session.CountdownTick(old(Snapshot()), duration, level, idx)
      ensures Valid()
    {
      ghost var before := Snapshot();
      var sec := phase.sec - 1;
      if sec > 0 {
        phase := Session.Countdown(sec);
      } else {
        BeginTest(duration, level, idx);
      }
      Session.CountdownTickKeepsInv(before, duration, level, idx);
    }

    method BeginTest(duration: int, level: string, idx: nat)
      requires idx < |BuildPool(level)|
      modifies this
      ensures Snapshot() == Session.BeginTest(old(Snapshot()), duration, level, idx)
    {
      ResetSession(duration, level);
      NextSentence(idx);
      phase := Session.Running;
    }

    /** The first half of beginTest: the clock, the read-outs, the counters
        and the pool for the level. */
    method ResetSession(duration: int, level: string)
      modifies this
      ensures Snapshot() == old(Snapshot()).(timeLeft := duration, live := None,
        totalTyped := 0, totalCorrect := 0, level := level, pool := BuildPool(level))
    {
      timeLeft := duration;
      live := None;
      totalTyped := 0;
      totalCorrect := 0;
      SelectPool(level);
    }

    /** `sentencePool = buildPool(levelEl.value)`, remembering the level read. */
    method SelectPool(level: string)
      modifies this
      ensures Snapshot() == old(Snapshot()).(level := level, pool := BuildPool(level))
    {
      this.level := level;
      sentencePool := BuildPool(level);
    }

    /** nextSentence; `idx` is the random index into the pool. */
    method NextSentence(idx: nat)
      requires idx < |sentencePool|
      modifies this
      ensures Snapshot() == Session.NextSentence(old(Snapshot()), idx)
    {
      sentenceComplete := false;
      inputValue := "";
      currentText := sentencePool[idx];
    }

    /** The input handler: renderTarget redraws the sentence (`spans`), then
        the completion rule runs. */
    method HandleInput(typed: string) returns (spans: seq<Span>)
      requires Valid() && phase == Session.Running
      modifies this
      ensures Classifies(spans, currentText, typed)
      ensures Snapshot() == Session.HandleInput(old(Snapshot()), typed) && Valid()
    {
      spans := RenderTarget(currentText, typed);
      ApplyCompletionRule(typed);
    }

    /** The input box now holds `typed`; the first time it reaches the
        sentence's length the sentence is folded into the totals and the
        120ms nextSentence callback is scheduled. */
    method ApplyCompletionRule(typed: string)
      requires Valid() && phase == Session.Running
      modifies this
      ensures Snapshot() == Session.HandleInput(old(Snapshot()), typed) && Valid()
    {
      ghost var before := Snapshot();
      inputValue := typed;
      if !sentenceComplete && |typed| >= |currentText| {
        CompleteSentence();
      }
      ghost var after := Snapshot();
      assert after == Session.HandleInput(before, typed);
      Session.HandleInputKeepsInv(before, typed);
    }

    /** The body of the completion branch: the sentence is marked done, its
        length and its correct count against the input box are added to the
        totals, and one more advance is pending. */
    method CompleteSentence()
      modifies this
      ensures Snapshot() == old(Snapshot()).(sentenceComplete := true,
        totalTyped := old(totalTyped) + |currentText|,
        totalCorrect := old(totalCorrect) + CorrectCount(currentText, inputValue),
        pendingAdvances := old(pendingAdvances) + 1)
    {
      sentenceComplete := true;
      totalTyped := totalTyped + |currentText|;
      var c := CountCorrectChars(currentText, inputValue);
      totalCorrect := totalCorrect + c;
      pendingAdvances := pendingAdvances + 1;
    }

    /** The delayed nextSentence callback scheduled by a completion. */
    method Advance(idx: nat)
      requires Valid() && pendingAdvances > 0 && idx < |sentencePool|
      modifies this
      ensures Snapshot() == Session.Advance(old(Snapshot()), idx) && Valid()
    {
      ghost var before := Snapshot();
      pendingAdvances := pendingAdvances - 1;
      NextSentence(idx);
      ghost var after := Snapshot();
      assert after == Session.Advance(before, idx);
      Session.AdvanceKeepsInv(before, idx);
    }

    method UpdateLiveStats(elapsedMs: int)
      modifies this
      ensures Snapshot() == Session.UpdateLiveStats(old(Snapshot()), elapsedMs)
    {
      if elapsedMs < 500 {
        return;
      }
      var minutes := Minutes(elapsedMs);
      var nowTyped := |inputValue|;
      var nowCorrect := CountCorrectChars(currentText, inputValue);
      var finalTotalTyped := totalTyped + nowTyped;
      var finalTotalCorrect := totalCorrect + nowCorrect;
      live := Some(Readout(LiveWpm(finalTotalCorrect, minutes), Accuracy(finalTotalCorrect, finalTotalTyped)));
    }

    /** One tick of the session interval; `date` and `saveOk` are
        what endTest reads or meets if this tick ends the session. */
    method Tick(elapsedMs: int, date: string, saveOk: bool)
      requires Valid() && phase == Session.Running
      modifies this
      ensures Snapshot() == Session.Tick(old(Snapshot()), elapsedMs, date, saveOk)
      ensures Valid()
    {
      ghost var before := Snapshot();
      TickOnce(elapsedMs, date, saveOk);
      Session.TickKeepsInv(before, elapsedMs, date, saveOk);
    }

    /** The interval callback itself: the clock goes down, the read-outs are
        refreshed, and endTest runs once no time is left. */
    method TickOnce(elapsedMs: int, date: string, saveOk: bool)
      modifies this
      ensures Snapshot() == Session.Tick(old(Snapshot()), elapsedMs, date, saveOk)
    {
      timeLeft := timeLeft - 1;
      UpdateLiveStats(elapsedMs);
      if timeLeft <= 0 {
        EndTest(elapsedMs, date, saveOk);
      }
    }

    method EndTest(elapsedMs: int, date: string, saveOk: bool)
      modifies this
      ensures Snapshot() == Session.EndTest(old(Snapshot()), elapsedMs, date, saveOk)
    {
      phase := Session.Ended;
      UpdateLiveStats(elapsedMs);
      RecordResult(elapsedMs, date);
      SaveHistory(saveOk);
    }

    /** The middle of endTest: the final read-out over the totals plus the
        input box, shown and appended to the log as one entry. */
    method RecordResult(elapsedMs: int, date: string)
      modifies this
      ensures var fin := FinalStats(elapsedMs, Session.LiveCorrect(old(Snapshot())),
                                    Session.LiveTyped(old(Snapshot())));
              Snapshot() == old(Snapshot()).(result := Some(fin),
                history := old(history) + [Entry(fin.wpm, fin.accuracy, RoundedSeconds(elapsedMs), old(level), date)])
    {
      var nowTyped := |inputValue|;
      var nowCorrect := CountCorrectChars(currentText, inputValue);
      var finalTotalTyped := totalTyped + nowTyped;
      var finalTotalCorrect := totalCorrect + nowCorrect;
      var wpm := FinalWpm(finalTotalCorrect, elapsedMs);
      var accuracy := Accuracy(finalTotalCorrect, finalTotalTyped);
      result := Some(Readout(wpm, accuracy));
      var entry := Entry(wpm, accuracy, RoundedSeconds(elapsedMs), level, date);
      history := history + [entry];
    }

    /** saveHistory; `ok` says whether the storage write succeeds. */
    method SaveHistory(ok: bool)
      modifies this
      ensures Snapshot() == old(Snapshot()).(slot := Save(old(slot), history, ok))
    {
      if ok {
        slot := Saved(history);
      }
    }

    /** The delayed callback re-enabling the start controls. */
    method ReEnableControls()
      requires Valid() && phase == Session.Ended
      modifies this
      ensures Snapshot() == Session.ReEnable(old(Snapshot())) && Valid()
    {
      phase := Session.Idle;
    }

    /** The clear button's handler; `confirmed` is the dialog's answer. */
    method ClearHistory(confirmed: bool, saveOk: bool)
      requires Valid()
      modifies this
      ensures Snapshot() == Session.ClearHistory(old(Snapshot()), confirmed, saveOk) && Valid()
    {
      if confirmed {
        history := [];
        SaveHistory(saveOk);
      }
    }

    /** The rows renderHistory shows, latest session first. */
    method ShowHistory() returns (rows: seq<Entry>)
      ensures |rows| == |history|
      ensures forall i :: 0 <= i < |rows| ==> rows[i] == history[|history| - 1 - i]
    {
      rows := Listing(history);
    }
  }
}
