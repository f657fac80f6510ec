/** The live and final statistics of updateLiveStats and endTest (script.js),
    over exact reals, with elapsed time given in milliseconds. */
module Stats {
  import opened Wrappers

  /** What the WPM and accuracy read-outs show. */
  datatype Readout = Readout(wpm: real, accuracy: real)

  /** Percentage of typed characters that were correct; 100 when nothing
      has been typed yet. */
  function Accuracy(correct: nat, typed: nat): (a: real)
    ensures typed == 0 ==> a == 100.0
    ensures correct <= typed ==> 0.0 <= a <= 100.0
    ensures typed > 0 ==> (a == 100.0 <==> correct == typed)
  {
    if typed > 0 then AccuracyBounds(correct, typed); (correct as real) * 100.0 / (typed as real)
    else 100.0
  }

  lemma AccuracyBounds(correct: nat, typed: nat)
    requires typed > 0
    ensures correct <= typed ==> (correct as real) * 100.0 / (typed as real) <= 100.0
    ensures (correct as real) * 100.0 / (typed as real) == 100.0 <==> correct == typed
  {
    var t := typed as real;
    var q := (correct as real) * 100.0 / t;
    assert q * t == (correct as real) * 100.0;
    if correct <= typed {
      assert (correct as real) * 100.0 <= t * 100.0;
    }
  }

  /** Elapsed milliseconds as minutes. */
  function Minutes(elapsedMs: int): real
  {
    (elapsedMs as real) / 60000.0
  }

  /** Live words per minute: five characters make a word; zero when no time
      has passed. */
  function LiveWpm(correct: nat, minutes: real): (w: real)
    ensures w >= 0.0
    ensures minutes <= 0.0 ==> w == 0.0
  {
    if minutes > 0.0 then (correct as real) / 5.0 / minutes else 0.0
  }

  /** updateLiveStats: the read-outs are left as they were while less than
      half a second has elapsed. */
  function LiveStats(elapsedMs: int, correct: nat, typed: nat): (r: Option<Readout>)
    ensures r.None? <==> elapsedMs < 500
    ensures r.Some? && correct <= typed ==>
              0.0 <= r.value.accuracy <= 100.0 && r.value.wpm >= 0.0
  {
    if elapsedMs < 500 then None
    else Some(Readout(LiveWpm(correct, Minutes(elapsedMs)), Accuracy(correct, typed)))
  }

  /** The final elapsed time, floored at one second so the WPM is defined. */
  function FinalMinutes(elapsedMs: int): (m: real)
    ensures m >= 1.0 / 60.0 && m >= Minutes(elapsedMs)
    ensures m == 1.0 / 60.0 || m == Minutes(elapsedMs)
  {
    if Minutes(elapsedMs) > 1.0 / 60.0 then Minutes(elapsedMs) else 1.0 / 60.0
  }

  /** Final words per minute: never negative, and never more than twelve
      words for each correct character (the one-second floor). */
  function FinalWpm(correct: nat, elapsedMs: int): (w: real)
    ensures 0.0 <= w <= 12.0 * (correct as real)
  {
    var m := FinalMinutes(elapsedMs);
    var w := (correct as real) / 5.0 / m;
    assert w * m == (correct as real) / 5.0;
    assert w * (1.0 / 60.0) <= w * m;
    w
  }

  /** endTest's final read-outs. */
  function FinalStats(elapsedMs: int, correct: nat, typed: nat): (r: Readout)
    ensures correct <= typed ==> 0.0 <= r.accuracy <= 100.0
    ensures r.wpm >= 0.0
  {
    Readout(FinalWpm(correct, elapsedMs), Accuracy(correct, typed))
  }

  /** Math.round(elapsedMs / 1000): the nearest whole second, halves rounded up. */
  function RoundedSeconds(elapsedMs: int): (s: int)
    ensures -500 < s * 1000 - elapsedMs <= 500
  {
    (elapsedMs + 500) / 1000
  }

  /** Fifty words per minute from 250 correct characters in one minute. */
  lemma WpmExample()
    ensures FinalWpm(250, 60000) == 50.0
  {
  }

  /** 90% from 180 correct out of 200 typed. */
  lemma AccuracyExample()
    ensures Accuracy(180, 200) == 90.0
  {
  }
}
