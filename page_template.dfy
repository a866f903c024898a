/** `htmlTemplate` (scripts/convert-docs-to-html.js:11-298): a template
    literal with five interpolations, the title four times and the content
    once, and nothing else that depends on the arguments. Neither argument is
    escaped. The properties are proved for any fixed text (a `Shell`) and
    hold for the one the converter uses, `Candlefish`, whose lines around
    each interpolation are written out; the long runs of fixed markup
    between them (the document start, the fonts, stylesheet and navigation,
    the header end and the footer) are constants whose value the model
    leaves open. */
module PageTemplate {
  import opened JsText

  /** The fixed text of a page: what comes before, between and after the
      four copies of the title and the one of the content. */
  datatype Shell = Shell(
    documentStart: string,
    titleOpen: string, titleClose: string,
    descriptionOpen: string, descriptionClose: string,
    ogTitleOpen: string, ogTitleClose: string,
    styleAndNavigation: string,
    headingOpen: string, headingClose: string,
    headerEnd: string,
    foot: string)
  {
    /** The length of the page without its arguments. */
    function FixedLength(): nat {
      |documentStart| + |titleOpen| + |titleClose| + |descriptionOpen| + |descriptionClose|
        + |ogTitleOpen| + |ogTitleClose| + |styleAndNavigation| + |headingOpen| + |headingClose|
        + |headerEnd| + |foot|
    }

    /** Where the k-th copy of a title of length n starts (k = 0..3: the
        `<title>`, the description meta, the og:title meta, the `<h1>`). */
    function TitleAt(k: nat, n: nat): nat
      requires k < 4
    {
      var first := |documentStart| + |titleOpen|;
      var second := first + n + |titleClose| + |descriptionOpen|;
      var third := second + n + |descriptionClose| + |ogTitleOpen|;
      if k == 0 then first
      else if k == 1 then second
      else if k == 2 then third
      else third + n + |ogTitleClose| + |styleAndNavigation| + |headingOpen|
    }

    /** Where the content starts, after a title of length n. */
    function ContentAt(n: nat): nat {
      TitleAt(3, n) + n + |headingClose| + |headerEnd|
    }
  }

  /** Lines 11-16 up to the `<title>` tag: the doctype, `<html>`, `<head>`
      and the charset and viewport metas. */
  const DocumentStart: string

  /** Lines 19-285 up to the heading tag: the og:image meta, the canonical
      link, the fonts, the stylesheet, the closing `</head>`, the navigation
      and the opening of the page header. */
  const StyleAndNavigation: string

  /** Lines 286-290 up to the content: the author line, the end of the
      header and the opening of the `doc-content` block. */
  const HeaderEnd: string

  /** Lines 290-298 after the content: the end of the content block, the
      footer and the end of the document. */
  const Foot: string

  /** The converter's fixed text, with the text right around each copy of
      the title as lines 16, 17, 18 and 285 write it. */
  const Candlefish: Shell := Shell(
    DocumentStart,
    "<title>", " - Candlefish AI Documentation</title>",
    "\n    <meta name=\"description\" content=\"", " for Claude Code development environment\">",
    "\n    <meta property=\"og:title\" content=\"", " - Candlefish AI\">\n",
    StyleAndNavigation,
    "<h1 class=\"doc-title\">", "</h1>",
    HeaderEnd,
    Foot)

  /** The page built from a shell: the title put in four times and the
      content once, both as they are. */
  function Render(sh: Shell, title: string, content: string): (page: string)
    ensures |page| == sh.FixedLength() + 4 * |title| + |content|
  {
    sh.documentStart + (sh.titleOpen + (title + (sh.titleClose
      + (sh.descriptionOpen + (title + (sh.descriptionClose
      + (sh.ogTitleOpen + (title + (sh.ogTitleClose
      + (sh.styleAndNavigation + (sh.headingOpen + (title + (sh.headingClose
      + (sh.headerEnd + (content + sh.foot)))))))))))))))
  }

  /** Reading three texts `a`, `x`, `b` in a row at `i` of a page. */
  lemma {:induction false} ReadThree(page: string, i: nat, a: string, x: string, b: string,
                                     rest: string)
    requires i <= |page| && page[i..] == a + (x + (b + rest))
    ensures OccursAt(page, a + x + b, i)
  {
    var w := a + x + b;
    assert a + (x + (b + rest)) == w + rest;
    assert page[i..i + |w|] == page[i..][..|w|];
  }

  /** Reading the three texts `a`, `x`, `b` that end a page, from `i`. */
  lemma {:induction false} ReadLastThree(page: string, i: nat, a: string, x: string, b: string)
    requires i <= |page| && page[i..] == a + (x + b)
    ensures OccursAt(page, a + x + b, i) && i + |a| + |x| + |b| == |page|
  {
    assert a + (x + b) == a + x + b;
    assert page[i..i + |a + x + b|] == page[i..];
  }

  /** The first copy of the title sits between `titleOpen` and `titleClose`. */
  lemma {:induction false} RenderTitle(sh: Shell, title: string, content: string)
    ensures OccursAt(Render(sh, title, content), sh.titleOpen + title + sh.titleClose,
                     sh.TitleAt(0, |title|) - |sh.titleOpen|)
  {
    var page := Render(sh, title, content);
    ReadThree(page, |sh.documentStart|, sh.titleOpen, title, sh.titleClose,
              page[sh.TitleAt(0, |title|) + |title| + |sh.titleClose|..]);
  }

  /** The second copy sits in the description meta. */
  lemma {:induction false} RenderDescription(sh: Shell, title: string, content: string)
    ensures OccursAt(Render(sh, title, content), sh.descriptionOpen + title + sh.descriptionClose,
                     sh.TitleAt(1, |title|) - |sh.descriptionOpen|)
  {
    var page := Render(sh, title, content);
    var i := sh.TitleAt(1, |title|) - |sh.descriptionOpen|;
    ReadThree(page, i, sh.descriptionOpen, title, sh.descriptionClose,
              page[sh.TitleAt(1, |title|) + |title| + |sh.descriptionClose|..]);
  }

  /** The third copy sits in the og:title meta. */
  lemma {:induction false} RenderOgTitle(sh: Shell, title: string, content: string)
    ensures OccursAt(Render(sh, title, content), sh.ogTitleOpen + title + sh.ogTitleClose,
                     sh.TitleAt(2, |title|) - |sh.ogTitleOpen|)
  {
    var page := Render(sh, title, content);
    var i := sh.TitleAt(2, |title|) - |sh.ogTitleOpen|;
    ReadThree(page, i, sh.ogTitleOpen, title, sh.ogTitleClose,
              page[sh.TitleAt(2, |title|) + |title| + |sh.ogTitleClose|..]);
  }

  /** Between the third and the fourth copy stands the fixed style and
      navigation markup, and nothing else. */
  lemma {:induction false} RenderStyle(sh: Shell, title: string, content: string)
    ensures OccursAt(Render(sh, title, content), sh.ogTitleClose + sh.styleAndNavigation + sh.headingOpen,
                     sh.TitleAt(2, |title|) + |title|)
  {
    var page := Render(sh, title, content);
    var i := sh.TitleAt(2, |title|) + |title|;
    ReadThree(page, i, sh.ogTitleClose, sh.styleAndNavigation, sh.headingOpen,
              page[sh.TitleAt(3, |title|)..]);
  }

  /** The fourth copy is the page heading. */
  lemma {:induction false} RenderHeading(sh: Shell, title: string, content: string)
    ensures OccursAt(Render(sh, title, content), sh.headingOpen + title + sh.headingClose,
                     sh.TitleAt(3, |title|) - |sh.headingOpen|)
  {
    var page := Render(sh, title, content);
    var i := sh.TitleAt(3, |title|) - |sh.headingOpen|;
    ReadThree(page, i, sh.headingOpen, title, sh.headingClose,
              page[sh.TitleAt(3, |title|) + |title| + |sh.headingClose|..]);
  }

  /** The content sits right after the header and right before the footer,
      which ends the page. */
  lemma {:induction false} RenderContent(sh: Shell, title: string, content: string)
    ensures var page := Render(sh, title, content);
      && OccursAt(page, sh.headerEnd + content + sh.foot, sh.ContentAt(|title|) - |sh.headerEnd|)
      && sh.ContentAt(|title|) + |content| + |sh.foot| == |page|
  {
    var page := Render(sh, title, content);
    var i := sh.ContentAt(|title|) - |sh.headerEnd|;
    ReadLastThree(page, i, sh.headerEnd, content, sh.foot);
  }

  /** Whatever the arguments, the page starts with the document start and
      the opening of the `<title>` element. */
  lemma {:induction false} RenderStart(sh: Shell, title: string, content: string)
    ensures OccursAt(Render(sh, title, content), sh.documentStart + sh.titleOpen, 0)
  {
    var page := Render(sh, title, content);
    ReadThree(page, 0, sh.documentStart, sh.titleOpen, [], page[|sh.documentStart| + |sh.titleOpen|..]);
  }

  /** `htmlTemplate(title, content)`: the converter's shell with both
      arguments put in as they are, unescaped. */
  function HtmlTemplate(title: string, content: string): (page: string)
    ensures |page| == Candlefish.FixedLength() + 4 * |title| + |content|
  {
    Render(Candlefish, title, content)
  }

  /** Line 16: the first copy of the title, unescaped, is the text of the
      `<title>` element, followed by the site suffix. */
  lemma {:induction false} TitleInTitleElement(title: string, content: string)
    ensures OccursAt(HtmlTemplate(title, content),
                     "<title>" + title + " - Candlefish AI Documentation</title>",
                     Candlefish.TitleAt(0, |title|) - 7)
  {
    RenderTitle(Candlefish, title, content);
  }

  /** Line 17: the second copy, unescaped, is the description meta's
      `content` attribute. */
  lemma {:induction false} TitleInDescription(title: string, content: string)
    ensures OccursAt(HtmlTemplate(title, content),
                     "\n    <meta name=\"description\" content=\"" + title
                       + " for Claude Code development environment\">",
                     Candlefish.TitleAt(1, |title|) - 39)
  {
    RenderDescription(Candlefish, title, content);
  }

  /** Line 18: the third copy, unescaped, is the og:title meta's `content`
      attribute. */
  lemma {:induction false} TitleInOgTitle(title: string, content: string)
    ensures OccursAt(HtmlTemplate(title, content),
                     "\n    <meta property=\"og:title\" content=\"" + title + " - Candlefish AI\">\n",
                     Candlefish.TitleAt(2, |title|) - 40)
  {
    RenderOgTitle(Candlefish, title, content);
  }

  /** Lines 18-285: right after the og:title meta comes the fixed markup of
      lines 19-284, whatever the arguments, and then the heading tag. With
      the lemmas around it, every fixed piece of the page is placed, one
      after the other from the start of the page to its end, so the
      arguments reach the page only where the title and the content go. */
  lemma {:induction false} StyleAndNavigationInPlace(title: string, content: string)
    ensures OccursAt(HtmlTemplate(title, content),
                     " - Candlefish AI\">\n" + StyleAndNavigation + "<h1 class=\"doc-title\">",
                     Candlefish.TitleAt(2, |title|) + |title|)
  {
    RenderStyle(Candlefish, title, content);
  }

  /** Line 285: the fourth copy, unescaped, is the page heading. */
  lemma {:induction false} TitleInHeading(title: string, content: string)
    ensures OccursAt(HtmlTemplate(title, content),
                     "<h1 class=\"doc-title\">" + title + "</h1>",
                     Candlefish.TitleAt(3, |title|) - 22)
  {
    RenderHeading(Candlefish, title, content);
  }

  /** The content goes, unescaped, into the document body (line 290); and
      whatever the arguments the page opens with the same doctype and head
      (lines 11-16) and closes with the same footer (lines 290-298). */
  lemma {:induction false} ContentAndShell(title: string, content: string)
    ensures var page := HtmlTemplate(title, content);
      && OccursAt(page, HeaderEnd + content + Foot, Candlefish.ContentAt(|title|) - |HeaderEnd|)
      && |page| == Candlefish.ContentAt(|title|) + |content| + |Foot|
      && OccursAt(page, DocumentStart + "<title>", 0)
  {
    RenderContent(Candlefish, title, content);
    RenderStart(Candlefish, title, content);
  }
}
