/** HTML escaping of the target sentence's characters (escapeHtml in script.js).
    The source runs three global single-character replacements in a row:
    `&` first, then `<`, then `>`. */
module Html {

  /** Every occurrence of `c` in `s` replaced by `r`, left to right, as a
      global `String.prototype.replace` with a one-character pattern does. */
  function ReplaceAll(s: string, c: char, r: string): (out: string)
    ensures forall x :: x in out ==> (x in s && x != c) || x in r
  {
    if s == [] then []
    else (if s[0] == c then r else [s[0]]) + ReplaceAll(s[1..], c, r)
  }

  /** escapeHtml: the three passes, in the source's order. */
  function EscapeHtml(s: string): (out: string)
    ensures '<' !in out && '>' !in out
  {
    ReplaceAll(ReplaceAll(ReplaceAll(s, '&', "&amp;"), '<', "&lt;"), '>', "&gt;")
  }

  /** The entity a single character becomes. */
  function EscapeChar(ch: char): string
  {
    if ch == '&' then "&amp;"
    else if ch == '<' then "&lt;"
    else if ch == '>' then "&gt;"
    else [ch]
  }

  /** One-pass reference definition: each character escaped on its own. */
  function EscapeEach(s: string): string
  {
    if s == [] then [] else EscapeChar(s[0]) + EscapeEach(s[1..])
  }

  /** The inverse of escaping: decodes the three entities escaping produces. */
  function Unescape(s: string): string
    decreases |s|
  {
    if |s| >= 5 && s[..5] == "&amp;" then "&" + Unescape(s[5..])
    else if |s| >= 4 && s[..4] == "&lt;" then "<" + Unescape(s[4..])
    else if |s| >= 4 && s[..4] == "&gt;" then ">" + Unescape(s[4..])
    else if s == [] then []
    else [s[0]] + Unescape(s[1..])
  }

  lemma {:induction false} ReplaceAllConcat(a: string, b: string, c: char, r: string)
    ensures ReplaceAll(a + b, c, r) == ReplaceAll(a, c, r) + ReplaceAll(b, c, r)
  {
    if a != [] {
      assert (a + b)[1..] == a[1..] + b;
      ReplaceAllConcat(a[1..], b, c, r);
    } else {
      assert a + b == b;
    }
  }

  lemma {:induction false} ReplaceAllAbsent(s: string, c: char, r: string)
    requires c !in s
    ensures ReplaceAll(s, c, r) == s
  {
    if s != [] {
      ReplaceAllAbsent(s[1..], c, r);
    }
  }

  lemma ReplaceAllSingle(ch: char, c: char, r: string)
    ensures ReplaceAll([ch], c, r) == if ch == c then r else [ch]
  {
    assert [ch][1..] == [];
  }

  /** A single character escapes to its entity. */
  lemma EscapeHtmlChar(ch: char)
    ensures EscapeHtml([ch]) == EscapeChar(ch)
  {
    ReplaceAllSingle(ch, '&', "&amp;");
    if ch == '&' {
      ReplaceAllAbsent("&amp;", '<', "&lt;");
      ReplaceAllAbsent("&amp;", '>', "&gt;");
    } else {
      ReplaceAllSingle(ch, '<', "&lt;");
      if ch == '<' {
        ReplaceAllAbsent("&lt;", '>', "&gt;");
      } else {
        ReplaceAllSingle(ch, '>', "&gt;");
      }
    }
  }

  lemma EscapeHtmlConcat(a: string, b: string)
    ensures EscapeHtml(a + b) == EscapeHtml(a) + EscapeHtml(b)
  {
    ReplaceAllConcat(a, b, '&', "&amp;");
    var p, q := ReplaceAll(a, '&', "&amp;"), ReplaceAll(b, '&', "&amp;");
    ReplaceAllConcat(p, q, '<', "&lt;");
    ReplaceAllConcat(ReplaceAll(p, '<', "&lt;"), ReplaceAll(q, '<', "&lt;"), '>', "&gt;");
  }

  /** The three chained passes escape each character independently: the
      entities written by the `&` pass are not touched again by the later
      passes, so no `&amp;` is ever doubled. */
  lemma {:induction false} EscapeHtmlIsPerChar(s: string)
    ensures EscapeHtml(s) == EscapeEach(s)
  {
    if s == [] {
    } else {
      assert s == [s[0]] + s[1..];
      EscapeHtmlConcat([s[0]], s[1..]);
      EscapeHtmlChar(s[0]);
      EscapeHtmlIsPerChar(s[1..]);
    }
  }

  lemma {:induction false} UnescapeEscapeEach(s: string)
    ensures Unescape(EscapeEach(s)) == s
  {
    if s != [] {
      var rest := EscapeEach(s[1..]);
      var out := EscapeChar(s[0]) + rest;
      assert EscapeEach(s) == out;
      UnescapeEscapeEach(s[1..]);
      if s[0] == '&' {
        assert out[..5] == "&amp;" && out[5..] == rest;
      } else if s[0] == '<' {
        assert |out| >= 5 ==> out[..5] != "&amp;" by { assert out[1] != "&amp;"[1]; }
        assert out[..4] == "&lt;" && out[4..] == rest;
      } else if s[0] == '>' {
        assert |out| >= 5 ==> out[..5] != "&amp;" by { assert out[1] != "&amp;"[1]; }
        assert out[..4] != "&lt;" by { assert out[1] != "&lt;"[1]; }
        assert out[..4] == "&gt;" && out[4..] == rest;
      } else {
        assert out[0] == s[0] && out[1..] == rest;
        assert |out| >= 5 ==> out[..5] != "&amp;" by { assert |out| >= 5 ==> out[..5][0] == s[0]; }
        assert |out| >= 4 ==> out[..4] != "&lt;" && out[..4] != "&gt;" by { assert |out| >= 4 ==> out[..4][0] == s[0]; }
      }
    }
  }

  /** Escaping loses nothing: decoding the escaped text gives the original. */
  lemma EscapeHtmlRoundTrip(s: string)
    ensures Unescape(EscapeHtml(s)) == s
  {
    EscapeHtmlIsPerChar(s);
    UnescapeEscapeEach(s);
  }
}
