/** The rules of `convertMarkdownToHTML` (scripts/convert-docs-to-html.js)
    whose regular expressions are anchored with `^` and `$` under the `m`
    flag. Such a rule matches within one line: `.` never crosses a line
    terminator, and a successful match ends at the end of a line, so the
    global replacement rewrites every line on its own and keeps the line
    terminators. It is modelled as exactly that: split into lines, rewrite
    each line, join with the original terminators. */
module MarkdownLines {
  import opened JsText

  type HeadingLevel = n: int | 1 <= n <= 4 witness 1

  datatype LineRule =
    | Heading(level: HeadingLevel)  // /^#### (.*$)/gim ... /^# (.*$)/gim -> <hN>$1</hN>
    | Bullet                        // /^\* (.+)$/gim -> <li>$1</li>
    | Numbered                      // /^\d+\. (.+)$/gim -> <li>$1</li>
    | Quote                         // /^> (.+)$/gim -> <blockquote>$1</blockquote>

  /** `<tag>x</tag>`. */
  function Wrap(tag: string, x: string): (r: string)
    ensures "<" <= r
    ensures NoBreak(tag) && NoBreak(x) ==> NoBreak(r)
  {
    var r := "<" + tag + ">" + x + "</" + tag + ">";
    NoBreakAppend("<" + tag + ">", x);
    NoBreakAppend("<" + tag + ">" + x, "</" + tag + ">");
    NoBreakAppend("<", tag);
    NoBreakAppend("<" + tag, ">");
    NoBreakAppend("</", tag);
    NoBreakAppend("</" + tag, ">");
    r
  }

  function HeadingMarker(level: HeadingLevel): string {
    if level == 1 then "# " else if level == 2 then "## " else if level == 3 then "### " else "#### "
  }

  function HeadingTag(level: HeadingLevel): (tag: string)
    ensures NoBreak(tag)
  {
    if level == 1 then "h1" else if level == 2 then "h2" else if level == 3 then "h3" else "h4"
  }

  predicate IsDigit(c: char) { '0' <= c <= '9' }

  /** Length of the run of ASCII digits (`\d`) that starts `s`. */
  function DigitRun(s: string): (n: nat)
    ensures n <= |s|
    ensures forall i :: 0 <= i < n ==> IsDigit(s[i])
    ensures n < |s| ==> !IsDigit(s[n])
    decreases |s|
  {
    if s != [] && IsDigit(s[0]) then 1 + DigitRun(s[1..]) else 0
  }

  /** The replacement `<tag>$1</tag>`, `$1` being the line from index `k` on. */
  function Rewritten(tag: string, line: string, k: nat): (r: string)
    requires k <= |line|
    ensures "<" <= r
    ensures NoBreak(tag) && NoBreak(line) ==> NoBreak(r)
  {
    assert NoBreak(line) ==> NoBreak(line[k..]) by {
      assert forall i :: 0 <= i < |line| - k ==> line[k..][i] == line[k + i];
    }
    Wrap(tag, line[k..])
  }

  /** One line under one rule. A heading keeps a possibly empty rest (`.*`),
      the other rules need at least one character after the marker (`.+`). */
  function RewriteLine(rule: LineRule, line: string): (r: string)
    ensures NoBreak(line) ==> NoBreak(r)
    ensures r == line || "<" <= r
  {
    match rule
    case Heading(n) =>
      var m := HeadingMarker(n);
      if m <= line then Rewritten(HeadingTag(n), line, |m|) else line
    case Bullet =>
      if "* " <= line && |line| > 2 then Rewritten("li", line, 2) else line
    case Numbered =>
      var d := DigitRun(line);
      if d > 0 && OccursAt(line, ". ", d) && |line| > d + 2 then Rewritten("li", line, d + 2) else line
    case Quote =>
      if "> " <= line && |line| > 2 then Rewritten("blockquote", line, 2) else line
  }

  function RewriteAll(rule: LineRule, ls: seq<string>): (rs: seq<string>)
    ensures |rs| == |ls|
    ensures forall k :: 0 <= k < |ls| ==> rs[k] == RewriteLine(rule, ls[k])
  {
    seq(|ls|, k requires 0 <= k < |ls| => RewriteLine(rule, ls[k]))
  }

  /** `text.replace(/^...$/gim, ...)` for one of the line rules. */
  function RewriteLines(rule: LineRule, s: string): string {
    JoinLines(RewriteAll(rule, Lines(s)), Breaks(s))
  }

  /** A line rule keeps the number of lines and every terminator, and the k-th
      line of the result is the k-th line of the input rewritten. */
  lemma {:induction false} LinesOfRewrite(rule: LineRule, s: string)
    ensures Lines(RewriteLines(rule, s)) == RewriteAll(rule, Lines(s))
    ensures Breaks(RewriteLines(rule, s)) == Breaks(s)
  {
    LinesOfJoin(RewriteAll(rule, Lines(s)), Breaks(s));
  }

  /** A text none of whose lines the rule matches is returned unchanged. */
  lemma {:induction false} RewriteLinesUnchanged(rule: LineRule, s: string)
    requires forall k :: 0 <= k < |Lines(s)| ==> RewriteLine(rule, Lines(s)[k]) == Lines(s)[k]
    ensures RewriteLines(rule, s) == s
  {
    assert RewriteAll(rule, Lines(s)) == Lines(s);
    JoinOfLines(s);
  }

  /** A text without line terminators is a single line. */
  lemma {:induction false} SingleLine(t: string)
    requires NoBreak(t)
    ensures Lines(t) == [t] && Breaks(t) == []
  {
    LinesOfJoin([t], []);
  }

  /** The four heading passes in the source order: `####` first, `#` last. */
  function Headings(s: string): string {
    RewriteLines(Heading(1), RewriteLines(Heading(2), RewriteLines(Heading(3), RewriteLines(Heading(4), s))))
  }

  /** What the four heading passes do to one line, decided in one step. */
  function HeadingOf(line: string): string {
    if "#### " <= line then Wrap("h4", line[5..])
    else if "### " <= line then Wrap("h3", line[4..])
    else if "## " <= line then Wrap("h2", line[3..])
    else if "# " <= line then Wrap("h1", line[2..])
    else line
  }

  /** The four sequential passes agree with the one-step decision on each
      line: a later pass never re-matches an earlier pass's output. */
  lemma {:induction false} HeadingPassesCompose(line: string)
    ensures RewriteLine(Heading(1), RewriteLine(Heading(2), RewriteLine(Heading(3), RewriteLine(Heading(4), line))))
            == HeadingOf(line)
  {
    var l4 := RewriteLine(Heading(4), line);
    var l3 := RewriteLine(Heading(3), l4);
    var l2 := RewriteLine(Heading(2), l3);
    if "#### " <= line {
      assert l4[0] == '<';
    } else if "### " <= line {
      assert l4 == line && l3[0] == '<';
    } else if "## " <= line {
      assert l4 == line && l3 == line && l2[0] == '<';
    }
  }

  /** Header rules: the heading passes keep the lines and their terminators,
      and turn each line into `HeadingOf` that line. */
  lemma {:induction false} HeadingsLineByLine(s: string)
    ensures |Lines(Headings(s))| == |Lines(s)|
    ensures forall k :: 0 <= k < |Lines(s)| ==> Lines(Headings(s))[k] == HeadingOf(Lines(s)[k])
    ensures Breaks(Headings(s)) == Breaks(s)
  {
    var s4 := RewriteLines(Heading(4), s);
    var s3 := RewriteLines(Heading(3), s4);
    var s2 := RewriteLines(Heading(2), s3);
    LinesOfRewrite(Heading(4), s);
    LinesOfRewrite(Heading(3), s4);
    LinesOfRewrite(Heading(2), s3);
    LinesOfRewrite(Heading(1), s2);
    forall k | 0 <= k < |Lines(s)|
      ensures Lines(Headings(s))[k] == HeadingOf(Lines(s)[k])
    {
      HeadingPassesCompose(Lines(s)[k]);
    }
  }

  /** A line `#### x`, `### x`, `## x` or `# x` becomes `<h4>x</h4>`,
      `<h3>x</h3>`, `<h2>x</h2>` or `<h1>x</h1>`. */
  lemma {:induction false} HeadingOfMarked(level: HeadingLevel, x: string)
    ensures HeadingOf(HeadingMarker(level) + x) == Wrap(HeadingTag(level), x)
  {
    var l := HeadingMarker(level) + x;
    if level == 4 {
      assert "#### " <= l && l[5..] == x;
    } else if level == 3 {
      assert l[3] == ' ' && !("#### " <= l);
      assert "### " <= l && l[4..] == x;
    } else if level == 2 {
      assert l[2] == ' ' && !("#### " <= l) && !("### " <= l);
      assert "## " <= l && l[3..] == x;
    } else {
      assert l[1] == ' ' && !("#### " <= l) && !("### " <= l) && !("## " <= l);
      assert "# " <= l && l[2..] == x;
    }
  }
}
