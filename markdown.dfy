/** `convertMarkdownToHTML` (scripts/convert-docs-to-html.js:301-343): the
    rules applied one after the other, each to the previous one's output, in
    the order the source lists them. */
module Markdown {
  import opened JsText
  import opened MarkdownLines
  import opened MarkdownInline
  import opened MarkdownBlocks

  /** The emphasis, link, inline-code and fenced-code passes (lines 311-324). */
  function InlineRules(s: string): string {
    var e := ReplaceAll(Emphasis(1), ReplaceAll(Emphasis(2), ReplaceAll(Emphasis(3), s)));
    ReplaceAll(CodeBlock, ReplaceAll(InlineCode, ReplaceAll(Link, e)))
  }

  function ConvertMarkdownToHtml(markdown: string): string {
    Blockquotes(Paragraphs(Lists(InlineRules(Headings(markdown)))))
  }

  /** A character none of the rules reacts to, and that keeps a text on one line. */
  predicate IsPlainChar(c: char) {
    !IsLineTerminator(c) && c != '#' && c != '*' && c != '[' && c != '`' && c != '<' && c != '>'
  }

  predicate IsPlain(x: string) {
    forall i :: 0 <= i < |x| ==> IsPlainChar(x[i])
  }

  /** A single line that a line rule leaves alone is left alone by its pass. */
  lemma {:induction false} LineKept(rule: LineRule, l: string)
    requires NoBreak(l) && RewriteLine(rule, l) == l
    ensures RewriteLines(rule, l) == l
  {
    SingleLine(l);
    assert RewriteAll(rule, [l]) == [l];
  }

  /** Text without `*`, `[` and backticks goes through the inline passes unchanged. */
  lemma {:induction false} InlineRulesKeep(s: string)
    requires forall i :: 0 <= i < |s| ==> s[i] != '*' && s[i] != '[' && s[i] != '`'
    ensures InlineRules(s) == s
  {
    ReplaceAllUnchanged(Emphasis(3), s);
    ReplaceAllUnchanged(Emphasis(2), s);
    ReplaceAllUnchanged(Emphasis(1), s);
    ReplaceAllUnchanged(Link, s);
    ReplaceAllUnchanged(InlineCode, s);
    ReplaceAllUnchanged(CodeBlock, s);
  }

  /** One line with no list marker and no `<li>` goes through the list passes unchanged. */
  lemma {:induction false} ListsKeep(l: string)
    requires NoBreak(l) && l != [] && l[0] != '*' && !IsDigit(l[0])
    requires forall k :: 0 <= k <= |l| ==> !OccursAt(l, "<li>", k)
    ensures Lists(l) == l
  {
    LineKept(Bullet, l);
    assert WrapList(l) == l;
    assert DigitRun(l) == 0;
    LineKept(MarkdownLines.Numbered, l);
  }

  /** Plain text holds no `<li>`. */
  lemma {:induction false} PlainHasNoItem(x: string)
    requires IsPlain(x)
    ensures forall k :: 0 <= k <= |x| ==> !OccursAt(x, "<li>", k)
  {
    forall k | 0 <= k <= |x|
      ensures !OccursAt(x, "<li>", k)
    {
      if k + 4 <= |x| {
        assert x[k..k + 4][0] == x[k];
      }
    }
  }

  /** A line of plain text (nothing any rule reacts to, not starting with a
      digit, not all white space) comes out as one paragraph. */
  lemma {:induction false} PlainLineIsParagraph(x: string)
    requires x != [] && IsPlain(x) && !IsDigit(x[0]) && !AllWhiteSpace(x)
    ensures ConvertMarkdownToHtml(x) == "<p>" + x + "</p>"
  {
    assert NoBreak(x);
    LineKept(Heading(4), x);
    LineKept(Heading(3), x);
    LineKept(Heading(2), x);
    LineKept(Heading(1), x);
    InlineRulesKeep(x);
    PlainHasNoItem(x);
    ListsKeep(x);
    NoBreakNoSeparator(x);
    ParagraphOfOneChunk(x);
    ParagraphOnOneLine(x);
  }

  lemma {:induction false} ParagraphOnOneLine(x: string)
    requires NoBreak(x)
    ensures Blockquotes("<p>" + x + "</p>") == "<p>" + x + "</p>"
  {
    var p := "<p>" + x + "</p>";
    LiteralsOnOneLine();
    NoBreakAppend("<p>", x);
    NoBreakAppend("<p>" + x, "</p>");
    assert !("> " <= p) by {
      assert p[..2][0] == '<';
    }
    BlockquoteOfOtherLine(p);
  }

  /** The heading passes turn `# x` into `<h1>x</h1>`. */
  lemma {:induction false} HeadingsOfLevelOne(x: string)
    requires NoBreak(x)
    ensures Headings("# " + x) == Wrap("h1", x)
  {
    var l := "# " + x;
    assert NoBreak("# ");
    NoBreakAppend("# ", x);
    assert !("#### " <= l) && !("### " <= l) && !("## " <= l) by {
      assert l[1] == ' ';
    }
    LineKept(Heading(4), l);
    LineKept(Heading(3), l);
    LineKept(Heading(2), l);
    assert l[2..] == x;
    SingleLine(l);
    assert RewriteAll(Heading(1), [l]) == [Wrap("h1", x)];
  }

  lemma {:induction false} WrapLevelOne(x: string)
    ensures Wrap("h1", x) == "<h1>" + x + "</h1>"
  {
    var a, b := Wrap("h1", x), "<h1>" + x + "</h1>";
    assert |a| == |b|;
    forall i | 0 <= i < |a|
      ensures a[i] == b[i]
    {
      if 4 <= i < 4 + |x| {
        assert a[i] == x[i - 4] == b[i];
      } else if i >= 4 + |x| {
        assert a[i] == "</h1>"[i - 4 - |x|] == b[i];
      }
    }
  }

  /** `<h1>x</h1>` with plain `x` goes through every later pass unchanged. */
  lemma {:induction false} HeadingKept(x: string)
    requires IsPlain(x)
    ensures var h := "<h1>" + x + "</h1>";
            Blockquotes(Paragraphs(Lists(InlineRules(h)))) == h
  {
    var h := "<h1>" + x + "</h1>";
    assert NoBreak(h) by {
      assert NoBreak(x);
      assert NoBreak("<h1>") && NoBreak("</h1>");
      NoBreakAppend("<h1>", x);
      NoBreakAppend("<h1>" + x, "</h1>");
    }
    assert forall i :: 0 <= i < |h| ==> h[i] != '*' && h[i] != '[' && h[i] != '`' by {
      forall i | 0 <= i < |h|
        ensures h[i] != '*' && h[i] != '[' && h[i] != '`'
      {
        if 4 <= i < 4 + |x| {
          assert h[i] == x[i - 4];
        }
      }
    }
    assert forall k :: 0 <= k <= |h| ==> !OccursAt(h, "<li>", k) by {
      forall k | 0 <= k <= |h|
        ensures !OccursAt(h, "<li>", k)
      {
        if k + 4 <= |h| {
          if 4 <= k < 4 + |x| {
            assert h[k..k + 4][0] == x[k - 4];
          } else if k == 0 || k == 4 + |x| {
            assert h[k..k + 4][1] == h[k + 1] != 'l';
          } else {
            assert h[k..k + 4][0] == h[k] != '<';
          }
        }
      }
    }
    MarkupLineKept(h);
  }

  /** One line that opens with a tag and holds nothing the inline and list
      rules react to goes through the inline, list, paragraph and blockquote
      passes unchanged. */
  lemma {:induction false} MarkupLineKept(h: string)
    requires NoBreak(h) && h != [] && h[0] == '<'
    requires forall i :: 0 <= i < |h| ==> h[i] != '*' && h[i] != '[' && h[i] != '`'
    requires forall k :: 0 <= k <= |h| ==> !OccursAt(h, "<li>", k)
    ensures Blockquotes(Paragraphs(Lists(InlineRules(h)))) == h
  {
    InlineRulesKeep(h);
    ListsKeep(h);
    NoBreakNoSeparator(h);
    ChunksOfChunk(h);
    assert WrapAll([h]) == [h];
    assert !("> " <= h) by {
      assert |h| >= 2 ==> h[..2][0] == '<';
    }
    BlockquoteOfOtherLine(h);
  }

  /** A heading line `# x` with plain `x` comes out as `<h1>x</h1>` and is
      not wrapped as a paragraph. */
  lemma {:induction false} HeadingLineIsHeading(x: string)
    requires IsPlain(x)
    ensures ConvertMarkdownToHtml("# " + x) == "<h1>" + x + "</h1>"
  {
    assert NoBreak(x);
    HeadingsOfLevelOne(x);
    WrapLevelOne(x);
    HeadingKept(x);
  }
}
