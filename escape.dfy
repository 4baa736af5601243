/**
 * `escapeHtml` (frontend/app.js) and `escapeHtmlChat` (frontend/chat.js),
 * which are the same code: the text is set as the `textContent` of a
 * detached element and its `innerHTML` is read back. That serialises a text
 * node, which escapes `&`, `<`, `>` and U+00A0 (NO-BREAK SPACE) as the HTML
 * Standard's "escaping a string" does outside attribute mode (section 13.3,
 * "Serializing HTML fragments"); quotes are left as they are.
 * Also `truncate` from frontend/app.js.
 */
module Escape {
  import opened Strings

  function EscapeChar(c: char): (r: string)
    ensures r != []
  {
    if c == '&' then "&amp;"
    else if c == '<' then "&lt;"
    else if c == '>' then "&gt;"
    else if c == '\U{00A0}' then "&nbsp;"
    else [c]
  }

  /**
   * The markup for `text` as a text node. An empty (or absent) text gives
   * the empty string, and the result never holds a raw `<` or `>`.
   */
  function EscapeHtml(text: string): (r: string)
    ensures r == [] <==> text == []
    ensures '<' !in r && '>' !in r
    ensures |r| >= |text|
  {
    if text == [] then [] else EscapeChar(text[0]) + EscapeHtml(text[1..])
  }

  /** Decodes the four entities `EscapeHtml` produces; every other character stands for itself. */
  function Unescape(html: string): string
    decreases |html|
  {
    if html == [] then []
    else if "&amp;" <= html then "&" + Unescape(html[5..])
    else if "&lt;" <= html then "<" + Unescape(html[4..])
    else if "&gt;" <= html then ">" + Unescape(html[4..])
    else if "&nbsp;" <= html then "\U{00A0}" + Unescape(html[6..])
    else [html[0]] + Unescape(html[1..])
  }

  lemma UnescapeAmp(rest: string)
    ensures Unescape("&amp;" + rest) == "&" + Unescape(rest)
  {
    assert ("&amp;" + rest)[5..] == rest;
  }

  lemma UnescapeLt(rest: string)
    ensures Unescape("&lt;" + rest) == "<" + Unescape(rest)
  {
    var h := "&lt;" + rest;
    assert !("&amp;" <= h) by { assert h[1] == 'l'; }
    assert h[4..] == rest;
  }

  lemma UnescapeGt(rest: string)
    ensures Unescape("&gt;" + rest) == ">" + Unescape(rest)
  {
    var h := "&gt;" + rest;
    assert !("&amp;" <= h) && !("&lt;" <= h) by { assert h[1] == 'g'; }
    assert h[4..] == rest;
  }

  lemma UnescapeNbsp(rest: string)
    ensures Unescape("&nbsp;" + rest) == "\U{00A0}" + Unescape(rest)
  {
    var h := "&nbsp;" + rest;
    assert !("&amp;" <= h) && !("&lt;" <= h) && !("&gt;" <= h) by { assert h[1] == 'n'; }
    assert h[6..] == rest;
  }

  lemma UnescapeOther(c: char, rest: string)
    requires c != '&'
    ensures Unescape([c] + rest) == [c] + Unescape(rest)
  {
    var h := [c] + rest;
    assert h[0] == c && h[1..] == rest;
  }

  /** Decoding an escaped character gives it back and leaves what follows to be decoded on its own. */
  lemma UnescapeChar(c: char, rest: string)
    ensures Unescape(EscapeChar(c) + rest) == [c] + Unescape(rest)
  {
    if c == '&' {
      UnescapeAmp(rest);
    } else if c == '<' {
      UnescapeLt(rest);
    } else if c == '>' {
      UnescapeGt(rest);
    } else if c == '\U{00A0}' {
      UnescapeNbsp(rest);
    } else {
      UnescapeOther(c, rest);
    }
  }

  lemma EscapeCons(text: string, rest: string)
    requires text != []
    ensures EscapeHtml(text) + rest == EscapeChar(text[0]) + (EscapeHtml(text[1..]) + rest)
  {
  }

  /** Decoding an escaped prefix gives back the text and leaves what follows to be decoded on its own. */
  lemma {:induction false} UnescapeEscaped(text: string, rest: string)
    ensures Unescape(EscapeHtml(text) + rest) == text + Unescape(rest)
    decreases |text|
  {
    if text == [] {
      assert EscapeHtml(text) + rest == rest;
    } else {
      var tail := EscapeHtml(text[1..]) + rest;
      calc {
        Unescape(EscapeHtml(text) + rest);
        { EscapeCons(text, rest); }
        Unescape(EscapeChar(text[0]) + tail);
        { UnescapeChar(text[0], tail); }
        [text[0]] + Unescape(tail);
        { UnescapeEscaped(text[1..], rest); }
        [text[0]] + (text[1..] + Unescape(rest));
        { assert text == [text[0]] + text[1..]; }
        text + Unescape(rest);
      }
    }
  }

  /** Decoding the entities of the markup gives back the text: escaping loses nothing. */
  lemma EscapeRoundTrip(text: string)
    ensures Unescape(EscapeHtml(text)) == text
  {
    UnescapeEscaped(text, []);
    assert EscapeHtml(text) + [] == EscapeHtml(text);
  }

  /** Escaping works character by character, so it distributes over concatenation. */
  lemma {:induction false} EscapeConcat(a: string, b: string)
    ensures EscapeHtml(a + b) == EscapeHtml(a) + EscapeHtml(b)
    decreases |a|
  {
    if a != [] {
      assert (a + b)[1..] == a[1..] + b;
      EscapeConcat(a[1..], b);
    } else {
      assert a + b == b;
    }
  }

  /** A piece of a text, escaped, is a piece of the escaped text. */
  lemma EscapeKeepsContains(text: string, part: string)
    requires Contains(text, part)
    ensures Contains(EscapeHtml(text), EscapeHtml(part))
  {
    ContainsAt(text, part);
    var i :| OccursAt(text, part, i);
    var a, b := text[..i], text[i + |part|..];
    assert text == a + part + b;
    EscapeConcat(a, part);
    EscapeConcat(a + part, b);
    ContainsAt(EscapeHtml(part), EscapeHtml(part));
    assert OccursAt(EscapeHtml(part), EscapeHtml(part), 0);
    ContainsInContext(EscapeHtml(a), EscapeHtml(part), EscapeHtml(b), EscapeHtml(part));
  }

  /**
   * `truncate(str, len)`: empty for an empty (or absent) string; otherwise
   * the escaped string when it has at most `len` characters, and else the
   * escaped first `len` characters followed by `...`. The result decodes to
   * exactly that text and holds no raw `<` or `>`.
   */
  function Truncate(str: string, len: nat): (r: string)
    ensures str == [] ==> r == []
    ensures '<' !in r && '>' !in r
    ensures Unescape(r) == if |str| > len then str[..len] + "..." else str
  {
    if str == [] then []
    else if |str| > len then
      UnescapeEscaped(str[..len], "...");
      EscapeHtml(str[..len]) + "..."
    else
      EscapeRoundTrip(str);
      EscapeHtml(str)
  }
}
