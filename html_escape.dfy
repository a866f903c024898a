/** `escapeHtml` of scripts/convert-docs-to-html.js: one left-to-right pass
    that replaces each of the five characters `& < > " '` by its entity and
    copies every other character. */
module HtmlEscape {

  /** The characters the regular expression `[&<>"']` matches. */
  predicate IsReserved(c: char) {
    c == '&' || c == '<' || c == '>' || c == '"' || c == '\''
  }

  /** The characters that must not appear bare in escaped text. */
  predicate IsMarkup(c: char) {
    c == '<' || c == '>' || c == '"' || c == '\''
  }

  /** The replacement the lookup table gives a character. */
  function EscapeChar(c: char): (e: string)
    ensures IsReserved(c) ==> |e| >= 4 && e[0] == '&' && e[|e| - 1] == ';'
    ensures !IsReserved(c) ==> e == [c]
    ensures forall i :: 0 <= i < |e| ==> !IsMarkup(e[i])
  {
    match c
    case '&' => "&amp;"
    case '<' => "&lt;"
    case '>' => "&gt;"
    case '"' => "&quot;"
    case '\'' => "&#039;"
    case _ => [c]
  }

  /** escapeHtml: the output holds no bare `<`, `>`, `"` or `'`. */
  function EscapeHtml(s: string): (r: string)
    ensures |r| >= |s|
    ensures forall i :: 0 <= i < |r| ==> !IsMarkup(r[i])
    decreases |s|
  {
    if s == [] then [] else EscapeChar(s[0]) + EscapeHtml(s[1..])
  }

  /** Reads the five entities back; any other text is copied. */
  function UnescapeHtml(s: string): string
    decreases |s|
  {
    if s == [] then []
    else if "&amp;" <= s then "&" + UnescapeHtml(s[5..])
    else if "&lt;" <= s then "<" + UnescapeHtml(s[4..])
    else if "&gt;" <= s then ">" + UnescapeHtml(s[4..])
    else if "&quot;" <= s then "\"" + UnescapeHtml(s[6..])
    else if "&#039;" <= s then "'" + UnescapeHtml(s[6..])
    else [s[0]] + UnescapeHtml(s[1..])
  }

  lemma {:induction false} UnescapeAfterEntity(c: char, rest: string)
    ensures UnescapeHtml(EscapeChar(c) + rest) == [c] + UnescapeHtml(rest)
  {
    var e := EscapeChar(c) + rest;
    assert e[|EscapeChar(c)|..] == rest;
    if c == '&' {
      assert "&amp;" <= e;
    } else if c == '<' {
      assert e[1] == 'l' && "&lt;" <= e;
    } else if c == '>' {
      assert e[1] == 'g' && "&gt;" <= e;
    } else if c == '"' {
      assert e[1] == 'q' && "&quot;" <= e;
    } else if c == '\'' {
      assert e[1] == '#' && "&#039;" <= e;
    } else {
      assert e[0] == c && e[1..] == rest;
    }
  }

  /** Each reserved character is replaced exactly once, so the entities can be
      read back: `&` is never escaped twice within one call. */
  lemma {:induction false} UnescapeEscape(s: string)
    ensures UnescapeHtml(EscapeHtml(s)) == s
    decreases |s|
  {
    if s != [] {
      UnescapeAfterEntity(s[0], EscapeHtml(s[1..]));
      UnescapeEscape(s[1..]);
      assert s == [s[0]] + s[1..];
    }
  }

  /** Different texts escape differently. */
  lemma {:induction false} EscapeInjective(a: string, b: string)
    requires EscapeHtml(a) == EscapeHtml(b)
    ensures a == b
  {
    UnescapeEscape(a);
    UnescapeEscape(b);
  }

  /** Escaping distributes over concatenation (the map is character-wise). */
  lemma {:induction false} EscapeAppend(a: string, b: string)
    ensures EscapeHtml(a + b) == EscapeHtml(a) + EscapeHtml(b)
    decreases |a|
  {
    if a == [] {
      assert a + b == b;
    } else {
      assert (a + b)[0] == a[0] && (a + b)[1..] == a[1..] + b;
      EscapeAppend(a[1..], b);
    }
  }

  /** Text free of the five characters is returned unchanged. */
  lemma {:induction false} EscapeIdentity(s: string)
    requires forall i :: 0 <= i < |s| ==> !IsReserved(s[i])
    ensures EscapeHtml(s) == s
    decreases |s|
  {
    if s != [] {
      EscapeIdentity(s[1..]);
      assert s == [s[0]] + s[1..];
    }
  }

  /** Every `&` of the output begins one of the five entities. */
  lemma {:induction false} AmpersandStartsEntity(s: string, i: nat)
    requires i < |EscapeHtml(s)| && EscapeHtml(s)[i] == '&'
    ensures var t := EscapeHtml(s)[i..];
            "&amp;" <= t || "&lt;" <= t || "&gt;" <= t || "&quot;" <= t || "&#039;" <= t
    decreases |s|
  {
    var e := EscapeChar(s[0]);
    var r := EscapeHtml(s);
    assert r == e + EscapeHtml(s[1..]);
    if i < |e| {
      assert IsReserved(s[0]) && i == 0;
      assert r[i..] == e + EscapeHtml(s[1..]);
    } else {
      AmpersandStartsEntity(s[1..], i - |e|);
      assert r[i..] == EscapeHtml(s[1..])[i - |e|..];
    }
  }
}
