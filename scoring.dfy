/** Character scoring of one sentence: countCorrectChars and the per-position
    classification that renderTarget draws (script.js). */
module Scoring {
  import opened Html

  function Min(a: nat, b: nat): nat
  {
    if a < b then a else b
  }

  /** Number of positions below `n` where the two texts agree. */
  function MatchesBelow(expected: string, typed: string, n: nat): (c: nat)
    requires n <= |expected| && n <= |typed|
    ensures c <= n
  {
    if n == 0 then 0
    else MatchesBelow(expected, typed, n - 1) + (if expected[n - 1] == typed[n - 1] then 1 else 0)
  }

  /** The correct-character count: agreeing positions within the shorter text.
      Characters typed beyond the sentence's end are ignored. */
  function CorrectCount(expected: string, typed: string): (c: nat)
    ensures c <= |expected| && c <= |typed|
  {
    MatchesBelow(expected, typed, Min(|expected|, |typed|))
  }

  lemma {:induction false} MatchesBelowSelf(s: string, n: nat)
    requires n <= |s|
    ensures MatchesBelow(s, s, n) == n
  {
    if n > 0 {
      MatchesBelowSelf(s, n - 1);
    }
  }

  /** Typing the sentence exactly scores every character. */
  lemma CorrectCountSelf(s: string)
    ensures CorrectCount(s, s) == |s|
  {
    MatchesBelowSelf(s, |s|);
  }

  lemma {:induction false} MatchesBelowAll(expected: string, typed: string, n: nat)
    requires n <= |expected| && n <= |typed|
    ensures MatchesBelow(expected, typed, n) == n <==> expected[..n] == typed[..n]
  {
    if n > 0 {
      MatchesBelowAll(expected, typed, n - 1);
      assert expected[..n] == expected[..n - 1] + [expected[n - 1]];
      assert typed[..n] == typed[..n - 1] + [typed[n - 1]];
      if expected[..n] == typed[..n] {
        assert expected[..n - 1] == expected[..n][..n - 1];
        assert typed[..n - 1] == typed[..n][..n - 1];
        assert expected[n - 1] == expected[..n][n - 1];
      }
    }
  }

  /** A sentence scores full marks exactly when what was typed starts with it. */
  lemma PerfectIffPrefix(expected: string, typed: string)
    requires |typed| >= |expected|
    ensures CorrectCount(expected, typed) == |expected| <==> expected <= typed
  {
    MatchesBelowAll(expected, typed, |expected|);
    assert expected[..|expected|] == expected;
  }

  /** countCorrectChars: the counting loop of the source. */
  method CountCorrectChars(expected: string, typed: string) returns (c: nat)
    ensures c == CorrectCount(expected, typed)
  {
    c := 0;
    var i := 0;
    while i < Min(|expected|, |typed|)
      invariant i <= Min(|expected|, |typed|)
      invariant c == MatchesBelow(expected, typed, i)
    {
      if expected[i] == typed[i] {
        c := c + 1;
      }
      i := i + 1;
    }
  }

  /** How renderTarget highlights one character of the sentence. */
  datatype Mark = Untouched | Correct | Wrong

  /** One `<span>` of the rendered sentence: its class and its escaped text. */
  datatype Span = Span(mark: Mark, text: string)

  /** Number of spans highlighted as correct. */
  function CorrectSpans(spans: seq<Span>): nat
  {
    if spans == [] then 0
    else CorrectSpans(spans[..|spans| - 1]) + (if spans[|spans| - 1].mark == Correct then 1 else 0)
  }

  lemma CorrectSpansSnoc(spans: seq<Span>, x: Span)
    ensures CorrectSpans(spans + [x]) == CorrectSpans(spans) + (if x.mark == Correct then 1 else 0)
  {
    assert (spans + [x])[..|spans|] == spans;
  }

  /** The class of position `k`: no typed character yet, a match, or a miss. */
  function MarkAt(target: string, typed: string, k: nat): Mark
  {
    if k >= |typed| then Untouched
    else if k < |target| && typed[k] == target[k] then Correct
    else Wrong
  }

  /** `spans` highlights `target` against `typed`: one span per character of
      the sentence, holding that character escaped, untouched where nothing
      has been typed at that position yet, correct where the typed character
      matches and wrong where it does not; the number of correct spans is the
      correct-character count, so the highlighting and the score agree. */
  predicate Classifies(spans: seq<Span>, target: string, typed: string)
  {
    && |spans| == |target|
    && (forall i :: 0 <= i < |spans| ==> spans[i].text == EscapeHtml([target[i]]))
    && (forall i :: 0 <= i < |spans| ==> (spans[i].mark == Untouched <==> i >= |typed|))
    && (forall i :: 0 <= i < |spans| ==>
          (spans[i].mark == Correct <==> i < |typed| && typed[i] == target[i]))
    && (forall i :: 0 <= i < |spans| ==>
          (spans[i].mark == Wrong <==> i < |typed| && typed[i] != target[i]))
    && CorrectSpans(spans) == CorrectCount(target, typed)
  }

  /** The first `i` spans drawn by the loop of renderTarget. */
  predicate RenderedUpTo(spans: seq<Span>, target: string, typed: string, i: nat)
  {
    && i <= |target| && |spans| == i
    && (forall k :: 0 <= k < i ==> spans[k] == Span(MarkAt(target, typed, k), EscapeHtml([target[k]])))
    && CorrectSpans(spans) == MatchesBelow(target, typed, Min(i, |typed|))
  }

  lemma RenderStep(spans: seq<Span>, target: string, typed: string, i: nat)
    requires RenderedUpTo(spans, target, typed, i) && i < |target|
    ensures RenderedUpTo(spans + [Span(MarkAt(target, typed, i), EscapeHtml([target[i]]))], target, typed, i + 1)
  {
    var x := Span(MarkAt(target, typed, i), EscapeHtml([target[i]]));
    CorrectSpansSnoc(spans, x);
    assert Min(i + 1, |typed|) == (if i < |typed| then Min(i, |typed|) + 1 else Min(i, |typed|));
  }

  lemma ClassifiesByMarkAt(spans: seq<Span>, target: string, typed: string)
    requires RenderedUpTo(spans, target, typed, |target|)
    ensures Classifies(spans, target, typed)
  {
  }

  /** renderTarget's loop over the sentence. */
  method RenderTarget(target: string, typed: string) returns (spans: seq<Span>)
    ensures Classifies(spans, target, typed)
  {
    spans := [];
    var i := 0;
    while i < |target|
      invariant RenderedUpTo(spans, target, typed, i)
    {
      var ch := target[i];
      var mark;
      if i >= |typed| {
        mark := Untouched;
      } else if typed[i] == ch {
        mark := Correct;
      } else {
        mark := Wrong;
      }
      RenderStep(spans, target, typed, i);
      spans := spans + [Span(mark, EscapeHtml([ch]))];
      i := i + 1;
    }
    ClassifiesByMarkAt(spans, target, typed);
  }
}
