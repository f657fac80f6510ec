# Typing speed trainer — a Dafny model of `script.js`

The page shows a random sentence from one of three difficulty lists and times
a session of a chosen length. After a three-second countdown, the user types
into an input box:

- Each character of the sentence is highlighted as untyped, correct or wrong.
- The first time the input is at least as long as the sentence, the sentence
  is folded into the running totals. After 120 ms the next sentence is drawn.
- A one-second timer counts the session down and refreshes the live
  words-per-minute and accuracy read-outs.
- At zero the final read-out is shown and appended to a history log. The log
  is saved to browser storage and listed latest first.

The model has these modules, following the program's own parts:

- `Html` — `escapeHtml`: three chained global replacements.
- `Scoring` — `countCorrectChars` and the highlighting loop of `renderTarget`.
- `Pools` — the three sentence lists and `buildPool`.
- `Stats` — the live and final WPM/accuracy arithmetic, over exact reals.
- `History` — history entries, the storage slot, `loadHistory`/`saveHistory`,
  and the latest-first order of `renderHistory`.
- `Session` — the page as a state machine over values:
  - a `State` holding the module-level variables;
  - one function per handler or timer callback;
  - the invariant `Inv` every event keeps;
  - an `Event` type with `Enabled`, `Step` and `Run` (events that cannot reach
    the page are ignored);
  - lemmas about whole event sequences.
- `App` — class `Trainer`. Its fields are the page's variables. Each method
  updates them in place as the handler does. Its contract ties the new state to
  the matching `Session` function applied to the old state, and says the
  invariant `Valid()` still holds.

How the page's state is represented:

- `Phase` (`Idle`, `Countdown(sec)`, `Running`, `Ended`) stands for which
  controls are disabled and which interval timer is live.
  - `Ended` is the 300 ms window after `endTest`, while the start controls are
    still disabled.
  - The delayed re-enable returns the page to `Idle`.
- The level field is read once per session, by `beginTest`, and kept in the
  state as `level`. The field is disabled from `startCountdown`
  (script.js:138) until the delayed re-enable (script.js:228), so the
  `levelEl.value` that `endTest` stores (script.js:219) is that same value.
- The 120 ms `nextSentence` callbacks are never cancelled in the source.
  `pendingAdvances` counts those that are scheduled and have not run yet.
- Inputs the page gets from the environment are parameters:
  - the random index (`Math.random`);
  - the elapsed milliseconds (`Date.now() - startTime`);
  - the date string (`toISOString`);
  - the answer of the confirmation dialog;
  - whether the storage write succeeds.

Behaviour the code has and the model keeps:

- The session ends on the tick where `timeLeft <= 0`. Every session starts with
  at least one second, so a session of `t` seconds ends on exactly the `t`-th
  running second (`Session.SessionEndsOnce`).
- The advance callbacks of earlier completions are not cancelled when a
  session ends or a new one begins: neither `endTest` nor `beginTest` clears
  them, and the model follows the code. Any pending advance may fire
  whenever it is due.
- Until the delayed advance runs, the input box still holds the completed
  sentence. So `updateLiveStats` and `endTest` count that sentence a second
  time, on top of the totals it was folded into
  (`Session.CompletedSentenceCountedTwice`).
- `updateLiveStats(true)` ignores its argument. The half-second guard also
  applies when `endTest` calls it.

## Model

| member | source | states |
|---|---|---|
| Html.ReplaceAll | script.js:102 | every character of the result is either a character of the input other than the replaced one or a character of the replacement |
| Html.EscapeHtml | script.js:101-103 | no `<` and no `>` survives escaping |
| Html.EscapeHtmlIsPerChar | script.js:101-103 | the three chained passes equal escaping each character on its own: the `&amp;` written by the first pass is never escaped again |
| Html.EscapeHtmlRoundTrip | script.js:101-103 | decoding the three entities after escaping gives back the original text |
| Html.EscapeHtmlChar | script.js:101-103 | a single character escapes to its own entity: `&`, `<` and `>` to `&amp;`, `&lt;`, `&gt;`, anything else to itself |
| Pools.BuildPool | script.js:57-61 | the pool is one of the three lists, non-empty and made of non-empty sentences |
| Pools.BuildPoolByLevel | script.js:57-61 | "Medium" selects the medium list and only it does; "Hard" likewise; every other value selects the easy list |
| Scoring.CorrectCount | script.js:122-128 | the number of matching positions is at most the length of either string |
| Scoring.CorrectCountSelf | script.js:122-128 | a string matched against itself counts every character |
| Scoring.PerfectIffPrefix | script.js:122-128 | for an input at least as long as the sentence, every character is correct exactly when the sentence is a prefix of the input |
| Scoring.CountCorrectChars | script.js:122-128 | the loop over the first min(len) positions returns the count of positions where both strings agree |
| Scoring.RenderTarget | script.js:75-96 | one span per sentence character, carrying that character escaped; a span is untyped exactly when the input is too short to reach it, correct exactly when the input has the same character there, wrong otherwise; the correct spans number the correct count |
| Stats.Accuracy | script.js:190 | 100 when nothing was typed; between 0 and 100 when correct <= typed; exactly 100 only when every typed character is correct |
| Stats.LiveWpm | script.js:189 | never negative, and zero when no time has elapsed |
| Stats.LiveStats | script.js:180-193 | the read-outs are refreshed exactly when at least 500 ms have elapsed, and are then in range |
| Stats.FinalMinutes | script.js:202 | the elapsed minutes, floored at one second |
| Stats.FinalWpm | script.js:207 | the final WPM is between 0 and twelve times the correct count |
| Stats.FinalStats | script.js:201-208 | the final WPM is never negative and the accuracy is between 0 and 100 |
| Stats.RoundedSeconds | script.js:218 | the stored time is the whole number of seconds nearest to the elapsed milliseconds, halves rounded up |
| Stats.WpmExample | script.js:207 | 250 correct characters in one minute make 50 WPM |
| Stats.AccuracyExample | script.js:208 | 180 correct out of 200 typed is 90% |
| History.Load | script.js:235-241 | a saved log is read back as it is; a missing or unreadable slot reads as the empty log |
| History.Save | script.js:243-247 | after a successful write the slot loads back the whole log; a failed write leaves the slot as it was |
| History.Listing | script.js:276 | the listing has the log's length and shows the i-th latest entry in row i |
| History.ListingAppend | script.js:276 | a newly pushed entry is the top row and the earlier rows keep their order below it |
| History.ListingReversible | script.js:276 | reversing the listing gives the log in insertion order |
| Session.StartCountdown | script.js:134-141 | the countdown starts from the given seconds; nothing else changes |
| Session.NextSentence | script.js:64-71 | the new sentence is one of the pool's, the input box is empty and the flag cleared; nothing else changes |
| Session.BeginTest | script.js:154-166 | running, with the full duration on the clock, the level recorded, that level's pool, zeroed counters and a sentence from that pool |
| Session.CountdownTick | script.js:142-151 | before the last second only the countdown goes down by one; the last second starts the session with the full duration |
| Session.HandleInput | script.js:106-119 | the input is stored, the sentence and phase are kept; the flag ends up set exactly when it was set or the input reaches the sentence's length; the totals never decrease, and the correct total grows no more than the typed total |
| Session.Advance | script.js:64-71 | one pending advance is used up; the new sentence is from the pool, the input box empty, the flag cleared, the totals unchanged |
| Session.UpdateLiveStats | script.js:180-193 | only the live read-out can change; before 500 ms nothing changes, from 500 ms on a read-out is shown |
| Session.EndTest | script.js:196-223 | ended, with a final read-out; the log grows by exactly one entry and keeps the earlier ones |
| Session.Tick | script.js:169-176 | with more than one second left, phase and log are kept and the clock goes down by one; otherwise the session ends and the log grows by one entry |
| Session.ReEnable | script.js:226-230 | back to idle; nothing else changes |
| Session.ClearHistory | script.js:262-268 | only the log and the slot can change; a confirmed clear empties the log and a declined one changes nothing |
| Stats.Minutes | script.js:183 | elapsed milliseconds as minutes; helper of `Stats.LiveStats` and `Stats.FinalMinutes` |
| Session.LiveTyped | script.js:184-187 | `finalTotalTyped`: the typed total plus the input box's length, read by both read-outs; its bound is stated by `Session.ReachableTallies` |
| Session.LiveCorrect | script.js:185-188 | `finalTotalCorrect`: the correct total plus the input box's correct count, read by both read-outs; its bound is stated by `Session.ReachableTallies` |
| Scoring.MarkAt | script.js:83-92 | the three-way test for one position; helper whose meaning `Scoring.RenderTarget`'s `Classifies` states |
| Session.Step | script.js:106-232 | the wiring of listeners and timer callbacks to the handler functions; its effect on the invariant is `Session.StepPreservesInv` |
| Session.Enabled | script.js:134-141 | which events reach the page: the start button only while idle (the controls are disabled at script.js:136-139 and re-enabled at 227-229), countdown seconds only during the countdown, typing and running seconds only while running (the input is enabled at 165 and disabled at 198 and 139), an advance only when one is pending |
| Session.Initial | script.js:46-54 | page load: idle, history read from the slot, invariant holds |
| Session.BeginTestResets | script.js:154-165 | beginTest: running with the full duration, zeroed counters, live read-out cleared, the level's pool, a sentence from it, empty input, flag cleared; log, slot and pending advances kept |
| Session.HandleInputKeepsInv | script.js:106-119 | an input event while running keeps the invariant |
| Session.CountdownTickKeepsInv | script.js:142-151 | a countdown second keeps the invariant, including the one that begins the session |
| Session.AdvanceKeepsInv | script.js:64-71 | the delayed nextSentence keeps the invariant: the new sentence is from the pool |
| Session.EndTestKeepsInv | script.js:196-223 | endTest keeps the invariant: the final read-out is in range |
| Session.TickKeepsInv | script.js:169-176 | a running second keeps the invariant: the session is still running only while at least one second is left |
| Session.LiveReadoutInRange | script.js:180-193 | updateLiveStats keeps the read-outs in range when correct <= typed, and changes nothing but the live read-out |
| Session.StepPreservesInv | script.js:106-232 | every event that can reach the page keeps the invariant: correct <= typed, sentence drawn from a usable pool that is the list of the session's level, a pool behind every pending advance, time left while running, read-outs in range |
| Session.RunPreservesInv | script.js:106-232 | any event sequence from an invariant state ends in one |
| Session.ReachableTallies | script.js:184-188 | in every state reachable from page load the invariant holds and the live correct tally never exceeds the live typed tally |
| Session.RunningIgnoresCountdown | script.js:147-148 | once the countdown interval is cleared, further countdown seconds change nothing |
| Session.CountdownBeginsOnce | script.js:135-152 | a countdown from n >= 1 shows n-k after k < n seconds, and its n-th second runs beginTest exactly once with what that second read |
| Session.CountdownCounts | script.js:142-146 | fewer than n seconds of a countdown from n only lower the number shown, to n minus the seconds elapsed |
| Session.CountdownBegins | script.js:142-151 | with at least n seconds, the run equals beginTest with what the n-th second read; the later seconds change nothing |
| Session.EndedStaysEnded | script.js:196-198 | after endTest, typing, advances and running seconds neither restart the session nor change the log |
| Session.SessionEndsOnce | script.js:169-176 | with t seconds left and any interleaving of typing and advances, the session runs for exactly t running seconds and then ends having appended exactly one entry |
| Session.CompletesAtMostOnce | script.js:112-118 | between two sentence changes the completion rule fires at most once, adding the sentence length to the typed total, at most that much to the correct total, and one pending advance |
| Session.NoCompletionBeforeReach | script.js:112 | while every input value is shorter than the sentence, nothing is folded into the totals |
| Session.CompletesAtFirstReach | script.js:112-117 | completion fires at the first input value as long as the sentence, folding in the sentence length and that value's correct count, and never again for the same sentence |
| Session.CompletedSentenceCountedTwice | script.js:184-188 | right after a completion the live tallies count the completed sentence twice: once in the totals and once from the input box |
| Session.EndTestRecordsOneEntry | script.js:196-223 | endTest: ended, one new entry on top of the listing carrying the in-range final read-out, the rounded seconds, the level the session began with (so the list for the recorded difficulty is the pool the session drew from) and the date; a successful save makes the slot load back the whole log; a failed one leaves the slot unchanged |
| Session.ClearHistoryEmpties | script.js:262-268 | a confirmed clear empties the log and its listing, and the slot too if the write succeeds; a declined one changes nothing |
| App.Trainer.constructor | script.js:46-54 | the object starts in the page-load state, invariant holding |
| App.Trainer.StartCountdown | script.js:130-141 | the start button begins a countdown from the given seconds; nothing else changes |
| App.Trainer.CountdownTick | script.js:142-151 | one countdown second: the new state is the countdown step of the old one, invariant kept |
| App.Trainer.BeginTest | script.js:154-166 | the fields become beginTest of the old state |
| App.Trainer.ResetSession | script.js:156-163 | clock, live read-out, counters, level and pool set as beginTest sets them, everything else unchanged |
| App.Trainer.SelectPool | script.js:162 | the level read and its pool are stored; nothing else changes |
| App.Trainer.NextSentence | script.js:64-71 | flag cleared, input box emptied, sentence taken from the pool at the given index |
| App.Trainer.HandleInput | script.js:106-119 | the returned spans classify the sentence against the input, and the fields become the input handler's step of the old state, invariant kept |
| App.Trainer.ApplyCompletionRule | script.js:112-118 | the completion rule applied in place, as the input handler's step, invariant kept |
| App.Trainer.CompleteSentence | script.js:113-117 | flag set, sentence length and correct count added to the totals, one more pending advance |
| App.Trainer.Advance | script.js:64-71 | the delayed nextSentence runs once, using up one pending advance, invariant kept |
| App.Trainer.UpdateLiveStats | script.js:180-193 | the live read-out becomes updateLiveStats of the old state |
| App.Trainer.Tick | script.js:169-176 | one running second as the session step, invariant kept |
| App.Trainer.TickOnce | script.js:169-176 | clock down, read-outs refreshed, endTest when no time is left |
| App.Trainer.EndTest | script.js:196-223 | the fields become endTest of the old state |
| App.Trainer.RecordResult | script.js:201-222 | the final read-out over the totals plus the input box is shown and appended as one entry carrying the session's level |
| App.Trainer.SaveHistory | script.js:243-247 | only the slot changes, as a save of the current log |
| App.Trainer.ReEnableControls | script.js:226-230 | the delayed re-enable returns an ended page to idle |
| App.Trainer.ClearHistory | script.js:262-268 | the clear button's step, invariant kept |
| App.Trainer.ShowHistory | script.js:270-284 | the rows are the log, latest first |

## Left out

- DOM output is not modelled: `textContent`/`innerHTML` writes, focus, the
  history dialog's show/hide/close, and the `toFixed(1)` text of the
  read-outs. The highlight is modelled as a sequence of spans, not as markup
  text. The "No sessions yet." placeholder is the empty listing.
- Timers are stored as events, not as times. A pending nextSentence advance
  may fire at any later point. The 120 ms and 300 ms delays and the one-second
  period are not modelled.
- `Math.random`, `Date.now`, `new Date().toISOString()`, `confirm` and the
  success of the storage write are parameters of the events and methods.
- The redraw that `nextSentence` does through `renderTarget` is not returned
  by `App.Trainer.NextSentence`. It is the same loop as the input handler's
  redraw, with an empty input.
- Entries store the unrounded WPM and accuracy: `Number(x.toFixed(1))` is not
  modelled, because it is decimal formatting of binary floating point.
- Floating point in general is not modelled. The statistics are exact reals.
- JSON encoding itself is not modelled; the slot is a value.
  `History.Load` takes any unparsable or missing slot as the empty log. A slot
  holding valid JSON that is not an array is not represented.
- `parseInt` of the duration field is not modelled. Every event that begins a
  session carries a positive duration (`Session.Enabled`,
  `App.Trainer.CountdownTick`), which the page's markup presumably ensures.
- `App.Trainer.UpdateLiveStats`, `App.Trainer.EndTest`, `App.Trainer.BeginTest`,
  `App.Trainer.ResetSession`, `App.Trainer.SelectPool`, `App.Trainer.NextSentence`,
  `App.Trainer.CompleteSentence`, `App.Trainer.TickOnce`,
  `App.Trainer.RecordResult` and `App.Trainer.SaveHistory` are stated without
  the invariant. They are intermediate steps; the handlers that call them
  state it.
- Strings are sequences of Unicode scalar values, while script.js measures
  and indexes strings in UTF-16 code units (`length`, `currentText[i]`,
  `typed[i]`). For text with characters outside the Basic Multilingual Plane
  the model measures differently: such a character has length 1 here and 2
  in the source, so completion, the typed totals, the correct count and the
  highlighting can differ. Lone surrogates are not represented.
- One elapsed-time value per running second stands for the three
  `Date.now()` reads of the source: the tick's `updateLiveStats`
  (script.js:181), the `updateLiveStats(true)` inside `endTest` (the same
  line, read again) and script.js:201. So the live read-out, the final
  read-out and the stored `time` always come from the same clock reading
  in the model, while in the source they may differ by the milliseconds
  between the reads.
- The input box is taken to be disabled at page load. The page's markup,
  which would say so, is not part of this model, and script.js does not
  disable the input before the first `startCountdown` (script.js:139). The
  model therefore delivers no input event outside a running session
  (`Session.Enabled`), which `Session.HandleInputKeepsInv`, the invariant's
  clause that a pending advance implies a non-empty pool, and
  `Session.AdvanceKeepsInv` rely on. Were the input enabled at page load,
  typing would complete the empty sentence (script.js:112), and the advance
  it schedules would set `currentText` to `sentencePool[idx]` of the empty
  pool, which is undefined, so `renderTarget` would throw at script.js:79.
  That path is not modelled.
- The storage key `tsp_history_v1` and the user-visible strings are not
  modelled.
