/** The global (`g`) replacements of `convertMarkdownToHTML` that are not
    anchored to lines: emphasis, links, inline code and fenced code blocks
    (scripts/convert-docs-to-html.js:311-324). A global replacement scans
    left to right; at each position it either matches (the replacement is
    emitted and the scan resumes after the match, never re-reading the
    replacement) or emits the character and moves one position on. Each
    rule's matcher is written out from its regular expression: greedy and lazy
    quantifiers are resolved to the one match they produce. */
module MarkdownInline {
  import opened Options
  import opened JsText
  import opened HtmlEscape

  type StarCount = n: int | 1 <= n <= 3 witness 1

  datatype InlineRule =
    | Emphasis(stars: StarCount)  // /\*\*\*(.*?)\*\*\*/g, /\*\*(.*?)\*\*/g, /\*(.*?)\*/g
    | Link                        // /\[([^\]]+)\]\(([^)]+)\)/g
    | InlineCode                  // /`([^`]+)`/g
    | CodeBlock                   // /```(\w+)?\n([\s\S]*?)```/g with the escaping callback

  /** A match at the current position: what replaces it and how many characters it covers. */
  datatype Match = Match(replacement: string, length: nat)

  /** The character every match of the rule starts with. */
  function Lead(rule: InlineRule): char {
    match rule
    case Emphasis(_) => '*'
    case Link => '['
    case InlineCode => '`'
    case CodeBlock => '`'
  }

  function Stars(n: StarCount): string {
    if n == 1 then "*" else if n == 2 then "**" else "***"
  }

  function EmphasisOpen(n: StarCount): string {
    if n == 1 then "<em>" else if n == 2 then "<strong>" else "<strong><em>"
  }

  function EmphasisClose(n: StarCount): string {
    if n == 1 then "</em>" else if n == 2 then "</strong>" else "</em></strong>"
  }

  /** `(.*?)d`: the first index at which `d` occurs in `t` with no line
      terminator before it. */
  function LazyClose(t: string, d: string): (r: Option<nat>)
    ensures r.Some? ==> OccursAt(t, d, r.value) && NoBreak(t[..r.value])
                        && forall k :: 0 <= k < r.value ==> !OccursAt(t, d, k)
    ensures r.None? ==> forall k :: 0 <= k <= |t| && NoBreak(t[..k]) ==> !OccursAt(t, d, k)
    decreases |t|
  {
    if OccursAt(t, d, 0) then Some(0)
    else if t == [] || IsLineTerminator(t[0]) then None
    else
      var r := LazyClose(t[1..], d);
      LazyCloseShift(t, d, r);
      match r
      case Some(j) => Some(j + 1)
      case None => None
  }

  /** What `LazyClose` finds one character further on, seen from here. */
  lemma {:induction false} LazyCloseShift(t: string, d: string, r: Option<nat>)
    requires t != [] && !IsLineTerminator(t[0]) && !OccursAt(t, d, 0)
    requires r.Some? ==> OccursAt(t[1..], d, r.value) && NoBreak(t[1..][..r.value])
                         && forall k :: 0 <= k < r.value ==> !OccursAt(t[1..], d, k)
    requires r.None? ==> forall k :: 0 <= k <= |t[1..]| && NoBreak(t[1..][..k]) ==> !OccursAt(t[1..], d, k)
    ensures r.Some? ==> OccursAt(t, d, r.value + 1) && NoBreak(t[..r.value + 1])
                        && forall k :: 0 <= k < r.value + 1 ==> !OccursAt(t, d, k)
    ensures r.None? ==> forall k :: 0 <= k <= |t| && NoBreak(t[..k]) ==> !OccursAt(t, d, k)
  {
    if r.Some? {
      var j := r.value;
      OccursAtTail(t, d, j);
      assert t[..j + 1] == [t[0]] + t[1..][..j];
      NoBreakAppend([t[0]], t[1..][..j]);
      forall k | 0 < k < j + 1
        ensures !OccursAt(t, d, k)
      {
        OccursAtTail(t, d, k - 1);
      }
    } else {
      forall k | 0 < k <= |t| && NoBreak(t[..k])
        ensures !OccursAt(t, d, k)
      {
        OccursAtTail(t, d, k - 1);
        assert t[..k] == [t[0]] + t[1..][..k - 1];
        NoBreakAppend([t[0]], t[1..][..k - 1]);
      }
    }
  }

  /** Length of the run of word characters (`\w`, that is `[A-Za-z0-9_]`) that starts `s`. */
  predicate IsWordChar(c: char) {
    ('A' <= c <= 'Z') || ('a' <= c <= 'z') || ('0' <= c <= '9') || c == '_'
  }

  function WordRun(s: string): (n: nat)
    ensures n <= |s|
    ensures forall i :: 0 <= i < n ==> IsWordChar(s[i])
    ensures n < |s| ==> !IsWordChar(s[n])
    decreases |s|
  {
    if s != [] && IsWordChar(s[0]) then 1 + WordRun(s[1..]) else 0
  }

  function Anchor(href: string, text: string): string {
    "<a href=\"" + href + "\">" + text + "</a>"
  }

  /** The callback of the fenced-code rule: the tag, or `text` when there is
      none, and the trimmed body with its five reserved characters escaped. */
  function CodeBlockHtml(lang: string, code: string): string {
    "<pre><code class=\"language-" + (if lang == [] then "text" else lang) + "\">"
      + EscapeHtml(Trim(code)) + "</code></pre>"
  }

  function EmphasisAt(n: StarCount, s: string): Option<Match> {
    var d := Stars(n);
    if d <= s then
      match LazyClose(s[|d|..], d)
      case Some(j) => Some(Match(EmphasisOpen(n) + s[|d|..|d| + j] + EmphasisClose(n), |d| + j + |d|))
      case None => None
    else None
  }

  /** `[^\]]+` can only stop at the first `]`, and `[^)]+` at the first `)`. */
  function LinkAt(s: string): Option<Match> {
    if s != [] && s[0] == '[' then
      match IndexOf(s[1..], ']')
      case None => None
      case Some(k) =>
        var p := k + 2;  // where the `(` must stand
        if k >= 1 && p < |s| && s[p] == '(' then
          match IndexOf(s[p + 1..], ')')
          case None => None
          case Some(m) =>
            if m >= 1 then Some(Match(Anchor(s[p + 1..p + 1 + m], s[1..k + 1]), p + m + 2)) else None
        else None
    else None
  }

  function InlineCodeAt(s: string): Option<Match> {
    if s != [] && s[0] == '`' then
      match IndexOf(s[1..], '`')
      case None => None
      case Some(k) => if k >= 1 then Some(Match("<code>" + s[1..k + 1] + "</code>", k + 2)) else None
    else None
  }

  /** A fenced block found at the start of a text: its tag, its body and how
      many characters it covers. */
  datatype Fence = Fence(lang: string, code: string, length: nat)

  /** The optional tag `(\w+)?` must be followed at once by a newline (a
      shorter tag would leave a word character there); the body is lazy, so it
      ends at the first "```" after the newline. */
  function FenceAt(s: string): Option<Fence> {
    if "```" <= s then
      var p := 3 + WordRun(s[3..]);  // where the newline must stand
      if p < |s| && s[p] == '\n' then
        match FindFrom(s[p + 1..], "```", 0)
        case None => None
        case Some(j) => Some(Fence(s[3..p], s[p + 1..p + 1 + j], p + 1 + j + 3))
      else None
    else None
  }

  function CodeBlockAt(s: string): Option<Match> {
    match FenceAt(s)
    case None => None
    case Some(f) => Some(Match(CodeBlockHtml(f.lang, f.code), f.length))
  }

  /** The match the rule's regular expression finds starting exactly at the
      beginning of `s`, if any. */
  function MatchAt(rule: InlineRule, s: string): (r: Option<Match>)
    ensures r.Some? ==> s != [] && s[0] == Lead(rule) && 1 <= r.value.length <= |s|
  {
    match rule
    case Emphasis(n) => EmphasisAt(n, s)
    case Link => LinkAt(s)
    case InlineCode => InlineCodeAt(s)
    case CodeBlock => CodeBlockAt(s)
  }

  /** `text.replace(regex, ...)` with the `g` flag. */
  function ReplaceAll(rule: InlineRule, s: string): string
    decreases |s|
  {
    if s == [] then []
    else match MatchAt(rule, s)
      case Some(m) => m.replacement + ReplaceAll(rule, s[m.length..])
      case None => [s[0]] + ReplaceAll(rule, s[1..])
  }

  /** A text without the rule's first character is returned unchanged. */
  lemma {:induction false} ReplaceAllUnchanged(rule: InlineRule, s: string)
    requires forall i :: 0 <= i < |s| ==> s[i] != Lead(rule)
    ensures ReplaceAll(rule, s) == s
    decreases |s|
  {
    if s != [] {
      ReplaceAllUnchanged(rule, s[1..]);
      assert s == [s[0]] + s[1..];
    }
  }

  /** One step of the scan, at a position where the rule matches. */
  lemma {:induction false} ReplaceAllMatched(rule: InlineRule, s: string, m: Match)
    requires MatchAt(rule, s) == Some(m)
    ensures ReplaceAll(rule, s) == m.replacement + ReplaceAll(rule, s[m.length..])
  {
  }

  /** One step of the scan, at a position where the rule does not match. */
  lemma {:induction false} ReplaceAllSkipped(rule: InlineRule, s: string)
    requires s != [] && MatchAt(rule, s).None?
    ensures ReplaceAll(rule, s) == [s[0]] + ReplaceAll(rule, s[1..])
  {
  }

  /** `(.*?)d` over `x d rest`, `x` on one line holding no `d`, stops right after `x`. */
  lemma {:induction false} LazyCloseAfter(d: string, x: string, rest: string)
    requires NoBreak(x)
    requires forall k :: 0 <= k < |x| ==> !OccursAt(x + d + rest, d, k)
    ensures LazyClose(x + d + rest, d) == Some(|x|)
    ensures (d + x + d + rest)[|d|..] == x + d + rest
    ensures (d + x + d + rest)[|d|..|d| + |x|] == x
  {
    var t := x + d + rest;
    assert t[|x|..|x| + |d|] == d;
    assert OccursAt(t, d, |x|);
    assert t[..|x|] == x;
    var s := d + t;
    assert d + x + d + rest == s;
    assert s[|d|..] == t;
    assert s[|d|..|d| + |x|] == t[..|x|];
  }

  /** The emphasis matcher at `d x d rest`, `x` on one line without `d`. */
  lemma {:induction false} EmphasisMatch(n: StarCount, x: string, rest: string)
    requires NoBreak(x)
    requires forall k :: 0 <= k < |x| ==> !OccursAt(x + Stars(n) + rest, Stars(n), k)
    ensures EmphasisAt(n, Stars(n) + x + Stars(n) + rest)
            == Some(Match(EmphasisOpen(n) + x + EmphasisClose(n), |x| + 2 * |Stars(n)|))
  {
    LazyCloseAfter(Stars(n), x, rest);
  }

  /** Emphasis: a delimiter, a run `x` on one line holding no earlier
      delimiter, and the delimiter again become `x` between the tags. */
  lemma {:induction false} EmphasisSpan(n: StarCount, x: string, rest: string)
    requires NoBreak(x)
    requires forall k :: 0 <= k < |x| ==> !OccursAt(x + Stars(n) + rest, Stars(n), k)
    ensures ReplaceAll(Emphasis(n), Stars(n) + x + Stars(n) + rest)
            == EmphasisOpen(n) + x + EmphasisClose(n) + ReplaceAll(Emphasis(n), rest)
  {
    var d := Stars(n);
    var s := d + x + d + rest;
    EmphasisMatch(n, x, rest);
    var m := Match(EmphasisOpen(n) + x + EmphasisClose(n), |x| + 2 * |d|);
    ReplaceAllMatched(Emphasis(n), s, m);
    assert s[m.length..] == rest;
  }

  /** Conversely, every emphasis match is `d x d` on one line, with no
      delimiter starting inside `x`, replaced by `x` between the tags. */
  lemma {:induction false} EmphasisShape(n: StarCount, s: string, m: Match)
    requires EmphasisAt(n, s) == Some(m)
    ensures 2 * |Stars(n)| <= m.length <= |s|
    ensures var d := Stars(n);
            var x := s[|d|..m.length - |d|];
            var rest := s[m.length..];
            && s == d + x + d + rest
            && NoBreak(x)
            && (forall k :: 0 <= k < |x| ==> !OccursAt(x + d + rest, d, k))
            && m.replacement == EmphasisOpen(n) + x + EmphasisClose(n)
  {
    var d := Stars(n);
    var j := LazyClose(s[|d|..], d).value;
    LazyCloseShape(d, EmphasisOpen(n), EmphasisClose(n), s, j, m);
  }

  /** A lazy `d(.*?)d` match at the start of `s`, seen as a match. */
  lemma {:induction false} LazyCloseShape(d: string, open: string, close: string, s: string, j: nat, m: Match)
    requires d <= s && LazyClose(s[|d|..], d) == Some(j)
    requires m == Match(open + s[|d|..|d| + j] + close, |d| + j + |d|)
    ensures 2 * |d| <= m.length <= |s|
    ensures var x := s[|d|..m.length - |d|];
            var rest := s[m.length..];
            && s == d + x + d + rest
            && NoBreak(x)
            && (forall k :: 0 <= k < |x| ==> !OccursAt(x + d + rest, d, k))
            && m.replacement == open + x + close
  {
    LazyCloseParts(d, s, j);
    assert s[|d|..m.length - |d|] == s[|d|..|d| + j] && s[m.length..] == s[|d| + j + |d|..];
  }

  /** What a lazy `d(.*?)d` match found at the start of `s` consists of. */
  lemma {:induction false} LazyCloseParts(d: string, s: string, j: nat)
    requires d <= s && LazyClose(s[|d|..], d) == Some(j)
    ensures |d| + j + |d| <= |s|
    ensures var x := s[|d|..|d| + j];
            var rest := s[|d| + j + |d|..];
            && s == d + x + d + rest
            && NoBreak(x)
            && (forall k :: 0 <= k < |x| ==> !OccursAt(x + d + rest, d, k))
  {
    var t := s[|d|..];
    var x := s[|d|..|d| + j];
    var rest := s[|d| + j + |d|..];
    assert NoBreak(x) by {
      assert t[..j] == x;
    }
    assert s[|d| + j..|d| + j + |d|] == d by {
      assert t[j..j + |d|] == d;
    }
    DelimitedParts(s, d, j);
    forall k | 0 <= k < |x|
      ensures !OccursAt(x + d + rest, d, k)
    {
      assert !OccursAt(t, d, k);
    }
  }

  /** `s` read as a delimiter, `j` characters and the delimiter again. */
  lemma {:induction false} DelimitedParts(s: string, d: string, j: nat)
    requires |d| + j + |d| <= |s|
    requires s[..|d|] == d && s[|d| + j..|d| + j + |d|] == d
    ensures var x := s[|d|..|d| + j];
            var rest := s[|d| + j + |d|..];
            s[|d|..] == x + d + rest && s == d + x + d + rest
  {
    CutFour(s, |d|, |d| + j, |d| + j + |d|);
    var t := s[|d|..];
    assert t[..j] == s[|d|..|d| + j] && t[j..j + |d|] == d && t[j + |d|..] == s[|d| + j + |d|..];
    CutFour(t, j, j + |d|, |t|);
  }

  /** An emphasis match lies on one line, and so does its replacement. */
  lemma {:induction false} EmphasisMatchOnOneLine(n: StarCount, s: string, m: Match)
    requires EmphasisAt(n, s) == Some(m)
    ensures m.length <= |s| && Breaks(s[..m.length]) == [] && Breaks(m.replacement) == []
  {
    var d, o, c := Stars(n), EmphasisOpen(n), EmphasisClose(n);
    DelimitersOnOneLine(n);
    EmphasisShape(n, s, m);
    var x := s[|d|..m.length - |d|];
    assert s[..m.length] == d + x + d by {
      var rest := s[m.length..];
      assert (d + x + d + rest)[..|d| + |x| + |d|] == d + x + d;
    }
    NoBreakAppend(d, x);
    NoBreakAppend(d + x, d);
    BreaksOfNoBreak(d + x + d);
    NoBreakAppend(o, x);
    NoBreakAppend(o + x, c);
    BreaksOfNoBreak(o + x + c);
  }

  lemma {:induction false} DelimitersOnOneLine(n: StarCount)
    ensures NoBreak(Stars(n)) && NoBreak(EmphasisOpen(n)) && NoBreak(EmphasisClose(n))
  {
  }

  /** One step of `EmphasisKeepsBreaks` where the scan matches. */
  lemma {:induction false} BreaksAfterMatch(n: StarCount, s: string, m: Match)
    requires EmphasisAt(n, s) == Some(m) && m.length <= |s|
    requires Breaks(ReplaceAll(Emphasis(n), s[m.length..])) == Breaks(s[m.length..])
    requires ReplaceAll(Emphasis(n), s) == m.replacement + ReplaceAll(Emphasis(n), s[m.length..])
    ensures Breaks(ReplaceAll(Emphasis(n), s)) == Breaks(s)
  {
    EmphasisMatchOnOneLine(n, s, m);
    BreaksOfReplacedLine(s, m.length, m.replacement, ReplaceAll(Emphasis(n), s[m.length..]));
  }

  /** Replacing a prefix that holds no line terminator by a text that holds
      none either keeps the line terminators, given that the rest keeps them. */
  lemma {:induction false} BreaksOfReplacedLine(s: string, k: nat, replacement: string, r: string)
    requires k <= |s| && Breaks(s[..k]) == [] && Breaks(replacement) == []
    requires Breaks(r) == Breaks(s[k..])
    ensures Breaks(replacement + r) == Breaks(s)
  {
    assert s == s[..k] + s[k..];
    BreaksAppend(s[..k], s[k..]);
    BreaksAppend(replacement, r);
  }

  /** One step of `EmphasisKeepsBreaks` where the scan copies a character. */
  lemma {:induction false} BreaksAfterSkip(n: StarCount, s: string)
    requires s != []
    requires ReplaceAll(Emphasis(n), s) == [s[0]] + ReplaceAll(Emphasis(n), s[1..])
    requires Breaks(ReplaceAll(Emphasis(n), s[1..])) == Breaks(s[1..])
    ensures Breaks(ReplaceAll(Emphasis(n), s)) == Breaks(s)
  {
    BreaksAppend([s[0]], ReplaceAll(Emphasis(n), s[1..]));
    BreaksAppend([s[0]], s[1..]);
    assert s == [s[0]] + s[1..];
  }

  /** Emphasis never spans lines: the line terminators stay as they were. */
  lemma {:induction false} EmphasisKeepsBreaks(n: StarCount, s: string)
    ensures Breaks(ReplaceAll(Emphasis(n), s)) == Breaks(s)
    decreases |s|
  {
    if s != [] {
      match MatchAt(Emphasis(n), s)
      case Some(m) =>
        ReplaceAllMatched(Emphasis(n), s, m);
        EmphasisKeepsBreaks(n, s[m.length..]);
        BreaksAfterMatch(n, s, m);
      case None =>
        ReplaceAllSkipped(Emphasis(n), s);
        EmphasisKeepsBreaks(n, s[1..]);
        BreaksAfterSkip(n, s);
    }
  }

  lemma {:induction false} LinkMatch(t: string, u: string, rest: string)
    requires t != [] && forall i :: 0 <= i < |t| ==> t[i] != ']'
    requires u != [] && forall i :: 0 <= i < |u| ==> u[i] != ')'
    ensures LinkAt("[" + t + "](" + u + ")" + rest) == Some(Match(Anchor(u, t), |t| + |u| + 4))
  {
    var s := "[" + t + "](" + u + ")" + rest;
    var k := |t|;
    var p := k + 2;
    LinkLayout(t, u, rest, s);
    IndexOfFirst(s[1..], ']', k);
    IndexOfFirst(s[p + 1..], ')', |u|);
  }

  /** `s` starts with the link `[t](u)` and `m` is its replacement: `t` has
      no `]`, `u` no `)`, and neither is empty. */
  predicate IsLink(s: string, m: Match, t: string, u: string) {
    && t != [] && (forall i :: 0 <= i < |t| ==> t[i] != ']')
    && u != [] && (forall i :: 0 <= i < |u| ==> u[i] != ')')
    && m == Match(Anchor(u, t), |t| + |u| + 4)
    && m.length <= |s|
    && s == "[" + t + "](" + u + ")" + s[m.length..]
  }

  /** Conversely, every link match has the shape of the expression. */
  lemma {:induction false} LinkShape(s: string, m: Match)
    requires LinkAt(s) == Some(m)
    ensures exists t, u :: IsLink(s, m, t, u)
  {
    var k := IndexOf(s[1..], ']').value;
    var p := k + 2;
    var j := IndexOf(s[p + 1..], ')').value;
    assert s[k + 1] == ']' by {
      assert s[1..][k] == ']';
    }
    assert s[p + 1 + j] == ')' by {
      assert s[p + 1..][j] == ')';
    }
    var t := s[1..k + 1];
    var u := s[p + 1..p + 1 + j];
    assert forall i :: 0 <= i < |t| ==> t[i] != ']' by {
      assert forall i :: 0 <= i < |t| ==> t[i] == s[1..][i];
    }
    assert forall i :: 0 <= i < |u| ==> u[i] != ')' by {
      assert forall i :: 0 <= i < |u| ==> u[i] == s[p + 1..][i];
    }
    assert m == Match(Anchor(u, t), |t| + |u| + 4) by {
      assert |t| == k && |u| == j;
      assert LinkAt(s) == Some(Match(Anchor(u, t), p + j + 2));
    }
    LinkParts(s, t, u, m);
  }

  /** `s` read as `[`, `t`, `](`, `u`, `)` and the rest. */
  lemma {:induction false} LinkParts(s: string, t: string, u: string, m: Match)
    requires t != [] && u != [] && |t| + |u| + 4 <= |s|
    requires t == s[1..|t| + 1] && u == s[|t| + 3..|t| + 3 + |u|]
    requires s[0] == '[' && s[|t| + 1] == ']' && s[|t| + 2] == '(' && s[|t| + 3 + |u|] == ')'
    requires forall i :: 0 <= i < |t| ==> t[i] != ']'
    requires forall i :: 0 <= i < |u| ==> u[i] != ')'
    requires m == Match(Anchor(u, t), |t| + |u| + 4)
    ensures IsLink(s, m, t, u)
  {
    var k, j := |t|, |u|;
    assert s[..k + 1] == "[" + t by {
      assert s[..1] == "[";
      PrefixSlices(s, 1, k + 1);
    }
    assert s[..k + 3] == "[" + t + "](" by {
      assert s[k + 1..k + 3] == "](";
      PrefixSlices(s, k + 1, k + 3);
    }
    assert s[..k + 3 + j] == "[" + t + "](" + u by {
      PrefixSlices(s, k + 3, k + 3 + j);
    }
    assert s[..k + j + 4] == "[" + t + "](" + u + ")" by {
      assert s[k + 3 + j..k + j + 4] == ")";
      PrefixSlices(s, k + 3 + j, k + j + 4);
    }
    PrefixSlices(s, k + j + 4, |s|);
  }

  /** Where the parts of `[t](u)rest` lie. */
  lemma {:induction false} LinkLayout(t: string, u: string, rest: string, s: string)
    requires s == "[" + t + "](" + u + ")" + rest
    ensures |s| == |t| + |u| + 4 + |rest| && s[0] == '[' && s[|t| + 2] == '('
    ensures s[1..][..|t|] == t && s[1..][|t|] == ']'
    ensures s[|t| + 3..][..|u|] == u && s[|t| + 3..][|u|] == ')'
    ensures s[1..|t| + 1] == t && s[|t| + 3..|t| + 3 + |u|] == u
  {
    assert s[1..] == t + ("](" + u + ")" + rest);
    assert s[|t| + 3..] == u + (")" + rest);
  }

  /** The first occurrence of `c` in `s` is at `k`. */
  lemma {:induction false} IndexOfFirst(s: string, c: char, k: nat)
    requires k < |s| && s[k] == c && forall i :: 0 <= i < k ==> s[i] != c
    ensures IndexOf(s, c) == Some(k)
  {
    match IndexOf(s, c)
    case None =>
    case Some(j) => assert !(j < k) && !(k < j);
  }

  /** Links: `[t](u)` becomes `<a href="u">t</a>`, both parts copied as they
      are (no escaping), when `t` has no `]` and `u` no `)`. */
  lemma {:induction false} LinkSpan(t: string, u: string, rest: string)
    requires t != [] && forall i :: 0 <= i < |t| ==> t[i] != ']'
    requires u != [] && forall i :: 0 <= i < |u| ==> u[i] != ')'
    ensures ReplaceAll(Link, "[" + t + "](" + u + ")" + rest) == Anchor(u, t) + ReplaceAll(Link, rest)
  {
    var s := "[" + t + "](" + u + ")" + rest;
    LinkMatch(t, u, rest);
    var m := Match(Anchor(u, t), |t| + |u| + 4);
    ReplaceAllMatched(Link, s, m);
    assert s[m.length..] == rest;
  }

  /** Inline code: `` `x` `` becomes `<code>x</code>` when `x` is not empty and has no backtick. */
  lemma {:induction false} InlineCodeSpan(x: string, rest: string)
    requires x != [] && forall i :: 0 <= i < |x| ==> x[i] != '`'
    ensures ReplaceAll(InlineCode, "`" + x + "`" + rest) == "<code>" + x + "</code>" + ReplaceAll(InlineCode, rest)
  {
    var s := "`" + x + "`" + rest;
    assert s[1..] == x + "`" + rest;
    assert IndexOf(s[1..], '`') == Some(|x|) by {
      assert s[1..][|x|] == '`';
      assert forall i :: 0 <= i < |x| ==> s[1..][i] == x[i];
    }
    assert s[1..|x| + 1] == x;
    assert s[|x| + 2..] == rest;
  }

  /** Conversely, every inline-code match is a backtick, a non-empty run
      without backticks and a backtick, replaced by the run inside `<code>`. */
  lemma {:induction false} InlineCodeShape(s: string, m: Match)
    requires InlineCodeAt(s) == Some(m)
    ensures 3 <= m.length <= |s|
    ensures var x := s[1..m.length - 1];
            && (forall i :: 0 <= i < |x| ==> x[i] != '`')
            && s == "`" + x + "`" + s[m.length..]
            && m.replacement == "<code>" + x + "</code>"
  {
    var k := IndexOf(s[1..], '`').value;
    var x := s[1..k + 1];
    assert m == Match("<code>" + x + "</code>", k + 2);
    assert forall i :: 0 <= i < |x| ==> x[i] != '`' by {
      assert forall i :: 0 <= i < |x| ==> x[i] == s[1..][i];
    }
    assert s == "`" + x + "`" + s[k + 2..] by {
      assert s[1 + k..1 + k + 1] == "`" by {
        assert s[1..][k] == '`';
      }
      assert s[..1] == "`";
      DelimitedParts(s, "`", k);
    }
  }

  /** The word run of `w + rest` is `w` when `rest` starts with a non-word character. */
  lemma {:induction false} WordRunOf(w: string, rest: string)
    requires forall i :: 0 <= i < |w| ==> IsWordChar(w[i])
    requires rest != [] && !IsWordChar(rest[0])
    ensures WordRun(w + rest) == |w|
  {
    var s := w + rest;
    assert s[|w|] == rest[0];
    assert forall i :: 0 <= i < |w| ==> s[i] == w[i];
  }

  /** The first "```" of `code + "```" + rest`, when `code` starts none. */
  lemma {:induction false} FenceCloseAt(code: string, rest: string)
    requires forall k :: 0 <= k < |code| ==> !OccursAt(code + "```" + rest, "```", k)
    ensures FindFrom(code + "```" + rest, "```", 0) == Some(|code|)
  {
    var t := code + "```" + rest;
    assert OccursAt(t, "```", |code|);
  }

  lemma {:induction false} FenceLayout(lang: string, code: string, rest: string, s: string)
    requires forall i :: 0 <= i < |lang| ==> IsWordChar(lang[i])
    requires s == "```" + lang + "\n" + code + "```" + rest
    ensures "```" <= s && WordRun(s[3..]) == |lang| && 3 + |lang| < |s| && s[3 + |lang|] == '\n'
    ensures s[4 + |lang|..] == code + "```" + rest
    ensures s[3..3 + |lang|] == lang && s[4 + |lang|..4 + |lang| + |code|] == code
  {
    var t := code + "```" + rest;
    assert s == "```" + lang + "\n" + t;
    assert s[3..] == lang + ("\n" + t);
    WordRunOf(lang, "\n" + t);
  }

  lemma {:induction false} FenceMatch(lang: string, code: string, rest: string)
    requires forall i :: 0 <= i < |lang| ==> IsWordChar(lang[i])
    requires forall k :: 0 <= k < |code| ==> !OccursAt(code + "```" + rest, "```", k)
    ensures FenceAt("```" + lang + "\n" + code + "```" + rest) == Some(Fence(lang, code, |lang| + |code| + 7))
  {
    var s := "```" + lang + "\n" + code + "```" + rest;
    FenceLayout(lang, code, rest, s);
    FenceCloseAt(code, rest);
    var p := 3 + |lang|;
    assert FindFrom(s[p + 1..], "```", 0) == Some(|code|);
    assert s[3..p] == lang && s[p + 1..p + 1 + |code|] == code;
  }

  /** Conversely, every fence found is three backticks, a tag of word
      characters, a newline, a body in which no "```" starts, and three
      backticks. */
  lemma {:induction false} FenceShape(s: string, f: Fence)
    requires FenceAt(s) == Some(f)
    ensures f.length == |f.lang| + |f.code| + 7 <= |s|
    ensures forall i :: 0 <= i < |f.lang| ==> IsWordChar(f.lang[i])
    ensures forall k :: 0 <= k < |f.code| ==> !OccursAt(f.code + "```" + s[f.length..], "```", k)
    ensures s == "```" + f.lang + "\n" + f.code + "```" + s[f.length..]
  {
    var p := 3 + WordRun(s[3..]);
    var t := s[p + 1..];
    var j := FindFrom(t, "```", 0).value;
    assert f == Fence(s[3..p], s[p + 1..p + 1 + j], p + 4 + j) by {
      assert t[..j] == s[p + 1..p + 1 + j];
    }
    assert forall i :: 0 <= i < |f.lang| ==> IsWordChar(f.lang[i]) by {
      assert forall i :: 0 <= i < |f.lang| ==> f.lang[i] == s[3..][i];
    }
    assert s[p + 1 + j..p + 4 + j] == "```" by {
      assert t[j..j + 3] == "```";
    }
    FenceParts(s, p, j);
    forall k | 0 <= k < |f.code|
      ensures !OccursAt(f.code + "```" + s[f.length..], "```", k)
    {
      assert !OccursAt(t, "```", k);
    }
  }

  /** `s` read as "```", a tag, a newline, a body of `j` characters, "```" and the rest. */
  lemma {:induction false} FenceParts(s: string, p: nat, j: nat)
    requires 3 <= p && p + 4 + j <= |s|
    requires s[..3] == "```" && s[p] == '\n' && s[p + 1 + j..p + 4 + j] == "```"
    ensures s[p + 1..] == s[p + 1..p + 1 + j] + "```" + s[p + 4 + j..]
    ensures s == "```" + s[3..p] + "\n" + s[p + 1..p + 1 + j] + "```" + s[p + 4 + j..]
  {
    var t := s[p + 1..];
    assert t == s[p + 1..p + 1 + j] + "```" + s[p + 4 + j..] by {
      assert t[..j] == s[p + 1..p + 1 + j] && t[j..j + 3] == "```" && t[j + 3..] == s[p + 4 + j..];
      PrefixSlices(t, j, j + 3);
      PrefixSlices(t, j + 3, |t|);
    }
    assert s[p..p + 1] == "\n";
    PrefixSlices(s, 3, p);
    PrefixSlices(s, p, p + 1);
    PrefixSlices(s, p + 1, |s|);
  }

  /** The fenced-code callback, met with a fence: "```L\nB```" becomes
      `<pre><code class="language-L">escape(trim(B))</code></pre>`, with
      `text` for an absent tag, when the body holds no "```". */
  lemma {:induction false} CodeBlockSpan(lang: string, code: string, rest: string)
    requires forall i :: 0 <= i < |lang| ==> IsWordChar(lang[i])
    requires forall k :: 0 <= k < |code| ==> !OccursAt(code + "```" + rest, "```", k)
    ensures ReplaceAll(CodeBlock, "```" + lang + "\n" + code + "```" + rest)
            == CodeBlockHtml(lang, code) + ReplaceAll(CodeBlock, rest)
  {
    var s := "```" + lang + "\n" + code + "```" + rest;
    FenceMatch(lang, code, rest);
    FenceReplaced(s, Fence(lang, code, |lang| + |code| + 7));
    assert s[|lang| + |code| + 7..] == rest;
  }

  /** One step of the fenced-code scan, at a fence. */
  lemma {:induction false} FenceReplaced(s: string, f: Fence)
    requires FenceAt(s) == Some(f) && f.length <= |s|
    ensures ReplaceAll(CodeBlock, s) == CodeBlockHtml(f.lang, f.code) + ReplaceAll(CodeBlock, s[f.length..])
  {
    ReplaceAllMatched(CodeBlock, s, Match(CodeBlockHtml(f.lang, f.code), f.length));
  }

  /** A text with no three backticks in a row is left alone by the fenced-code rule. */
  lemma {:induction false} CodeBlockUnchanged(s: string)
    requires forall k :: 0 <= k < |s| ==> !OccursAt(s, "```", k)
    ensures ReplaceAll(CodeBlock, s) == s
    decreases |s|
  {
    if s != [] {
      assert !OccursAt(s, "```", 0);
      forall k | 0 <= k < |s[1..]|
        ensures !OccursAt(s[1..], "```", k)
      {
        OccursAtTail(s, "```", k);
      }
      CodeBlockUnchanged(s[1..]);
      assert s == [s[0]] + s[1..];
    }
  }

  /** Two backticks alone are left alone by the inline-code rule. */
  lemma {:induction false} InlineCodeOfTwoTicks()
    ensures ReplaceAll(InlineCode, "``") == "``"
  {
    assert InlineCodeAt("`") == None;
    ReplaceAllSkipped(InlineCode, "`");
    assert "`"[1..] == [];
    assert InlineCodeAt("``") == None by {
      assert "``"[1..][0] == '`';
    }
    ReplaceAllSkipped(InlineCode, "``");
    assert "``"[1..] == "`";
  }

  /** "```x```" and "``<code>x</code>``" taken apart at the inline-code rule's steps. */
  lemma {:induction false} FenceShapes(x: string)
    ensures "`" + ("`" + ("`" + x + "`" + "``")) == "```" + x + "```"
    ensures "`" + ("`" + ("<code>" + x + "</code>" + "``")) == "``<code>" + x + "</code>``"
  {
    var a, b := "`" + ("`" + ("`" + x + "`" + "``")), "```" + x + "```";
    forall i | 0 <= i < |a|
      ensures a[i] == b[i]
    {
      if 3 <= i < 3 + |x| {
        assert a[i] == x[i - 3] && b[i] == x[i - 3];
      }
    }
    var c, d := "`" + ("`" + ("<code>" + x + "</code>" + "``")), "``<code>" + x + "</code>``";
    forall i | 0 <= i < |c|
      ensures c[i] == d[i]
    {
      if 8 <= i < 8 + |x| {
        assert c[i] == x[i - 8] && d[i] == x[i - 8];
      } else if 8 + |x| <= i {
        assert c[i] == "</code>``"[i - 8 - |x|] == d[i];
      }
    }
  }

  /** At "```x```" the inline-code rule fails twice (an empty span) and then
      takes "`x`". */
  lemma {:induction false} InlineCodeOfFence(x: string)
    requires x != [] && forall i :: 0 <= i < |x| ==> x[i] != '`'
    ensures ReplaceAll(InlineCode, "```" + x + "```") == "``<code>" + x + "</code>``"
  {
    var f2 := "`" + x + "`" + "``";
    var f1 := "`" + f2;
    var fence := "`" + f1;
    FenceShapes(x);
    assert f1[1..] == f2 && fence[1..] == f1;
    assert InlineCodeAt(fence) == None by {
      assert fence[1..][0] == '`';
    }
    assert InlineCodeAt(f1) == None by {
      assert f1[1..][0] == '`';
    }
    ReplaceAllSkipped(InlineCode, fence);
    ReplaceAllSkipped(InlineCode, f1);
    InlineCodeSpan(x, "``");
    InlineCodeOfTwoTicks();
  }

  /** "``<code>x</code>``" with no backtick in `x` holds no three backticks in a row. */
  lemma {:induction false} NoFenceInCode(x: string)
    requires forall i :: 0 <= i < |x| ==> x[i] != '`'
    ensures var out := "``<code>" + x + "</code>``";
            forall k :: 0 <= k < |out| ==> !OccursAt(out, "```", k)
  {
    var out := "``<code>" + x + "</code>``";
    var n := |out|;
    assert forall i :: 8 <= i < n - 9 ==> out[i] == x[i - 8];
    assert forall i :: 2 <= i < 8 ==> out[i] == "<code>"[i - 2];
    assert forall i :: n - 9 <= i < n - 2 ==> out[i] == "</code>"[i - (n - 9)];
    forall k | 0 <= k < n
      ensures !OccursAt(out, "```", k)
    {
      if k + 3 <= n {
        if k <= 1 {
          assert out[k..k + 3][2 - k] == out[2] == '<';
        } else {
          assert out[k..k + 3][0] == out[k] != '`';
        }
      }
    }
  }

  /** The inline-code rule runs before the fenced-code rule, and it eats a
      fence first: "```L\nB```" (no backtick in `L` or `B`) becomes
      "``<code>L\nB</code>``", which holds no "```", so the fenced-code rule
      never sees it and the body is not escaped. */
  lemma {:induction false} FenceConsumedByInlineCode(lang: string, code: string)
    requires forall i :: 0 <= i < |lang| ==> IsWordChar(lang[i])
    requires forall i :: 0 <= i < |code| ==> code[i] != '`'
    ensures var fence := "```" + lang + "\n" + code + "```";
            var out := "``<code>" + lang + "\n" + code + "</code>``";
            ReplaceAll(InlineCode, fence) == out && ReplaceAll(CodeBlock, out) == out
  {
    var x := lang + "\n" + code;
    forall i | 0 <= i < |x|
      ensures x[i] != '`'
    {
      if i < |lang| { assert x[i] == lang[i]; }
      else if i > |lang| { assert x[i] == code[i - |lang| - 1]; }
    }
    assert "```" + lang + "\n" + code + "```" == "```" + x + "```";
    assert "``<code>" + lang + "\n" + code + "</code>``" == "``<code>" + x + "</code>``";
    InlineCodeOfFence(x);
    NoFenceInCode(x);
    CodeBlockUnchanged("``<code>" + x + "</code>``");
  }
}
