/** The block-level rules of `convertMarkdownToHTML`
    (scripts/convert-docs-to-html.js:326-340): list items and the single
    `<ul>` wrap, numbered items, paragraphs over `\n\n`-separated chunks and
    blockquotes. */
module MarkdownBlocks {
  import opened Options
  import opened JsText
  import opened MarkdownLines

  /** `html.replace(/^\* (.+)$/gim, '<li>$1</li>')`. */
  function Bullets(s: string): string {
    RewriteLines(Bullet, s)
  }

  /** `html.replace(/^\d+\. (.+)$/gim, '<li>$1</li>')`. */
  function Numbered(s: string): string {
    RewriteLines(MarkdownLines.Numbered, s)
  }

  /** `html.replace(/^> (.+)$/gim, '<blockquote>$1</blockquote>')`. */
  function Blockquotes(s: string): string {
    RewriteLines(Quote, s)
  }

  /** `<li>x</li>`. */
  lemma {:induction false} WrapItem(x: string)
    ensures Wrap("li", x) == "<li>" + x + "</li>"
  {
    var a, b := Wrap("li", x), "<li>" + x + "</li>";
    assert |a| == |b|;
    forall i | 0 <= i < |a|
      ensures a[i] == b[i]
    {
      if 4 <= i < 4 + |x| {
        assert a[i] == x[i - 4] == b[i];
      } else if i >= 4 + |x| {
        assert a[i] == "</li>"[i - 4 - |x|] == b[i];
      }
    }
  }

  /** A line `* x` with `x` not empty is a list item. */
  lemma {:induction false} BulletItem(x: string)
    requires x != []
    ensures RewriteLine(Bullet, "* " + x) == "<li>" + x + "</li>"
  {
    assert ("* " + x)[2..] == x;
    WrapItem(x);
  }

  /** The digit run of `N. x` is `N`. */
  lemma {:induction false} DigitRunOfItem(digits: string, x: string)
    requires digits != [] && forall i :: 0 <= i < |digits| ==> IsDigit(digits[i])
    ensures var line := digits + ". " + x;
            DigitRun(line) == |digits| && OccursAt(line, ". ", |digits|) && line[|digits| + 2..] == x
  {
    var line := digits + ". " + x;
    assert line[|digits|] == '.';
    assert forall i :: 0 <= i < |digits| ==> line[i] == digits[i];
    assert line[|digits|..|digits| + 2] == ". ";
    assert line[|digits| + 2..] == x;
  }

  /** A line `N. x`, `N` a run of digits and `x` not empty, is a list item too. */
  lemma {:induction false} NumberedItem(digits: string, x: string)
    requires digits != [] && forall i :: 0 <= i < |digits| ==> IsDigit(digits[i])
    requires x != []
    ensures RewriteLine(MarkdownLines.Numbered, digits + ". " + x) == "<li>" + x + "</li>"
  {
    DigitRunOfItem(digits, x);
    WrapItem(x);
  }

  /** The first `<li>` and the end of the last `</li>` after it. */
  datatype Span = Span(first: nat, last: nat)

  /** Where `/(<li>.*<\/li>)/s` matches: it has no `g` flag, so it matches
      once; it starts at the first `<li>` and, `.*` being greedy and `s` letting
      it cross lines, ends with the last `</li>` that follows. */
  function ListSpan(s: string): (r: Option<Span>)
    ensures r.Some? ==>
              && OccursAt(s, "<li>", r.value.first)
              && r.value.first + 4 <= r.value.last && OccursAt(s, "</li>", r.value.last)
              && (forall k :: 0 <= k < r.value.first ==> !OccursAt(s, "<li>", k))
              && (forall k :: r.value.last < k <= |s| ==> !OccursAt(s, "</li>", k))
    ensures r.None? ==>
              forall a, b :: OccursAt(s, "<li>", a) && OccursAt(s, "</li>", b) ==> b < a + 4
  {
    match FindFrom(s, "<li>", 0)
    case None => None
    case Some(i) =>
      match FindLastFrom(s, "</li>", i + 4)
      case None =>
        assert forall a, b :: OccursAt(s, "<li>", a) && OccursAt(s, "</li>", b) ==> b < a + 4 by {
          forall a, b | OccursAt(s, "<li>", a) && OccursAt(s, "</li>", b)
            ensures b < a + 4
          {
            assert i <= a;
          }
        }
        None
      case Some(j) => Some(Span(i, j))
  }

  /** `s` with `<ul>` put in at `i` and `</ul>` at `j`. */
  lemma {:induction false} InsertTags(s: string, i: nat, j: nat)
    requires i <= j <= |s|
    ensures var r := s[..i] + "<ul>" + s[i..j] + "</ul>" + s[j..];
            && |r| == |s| + 9
            && r[i..i + 4] == "<ul>" && r[j + 4..j + 9] == "</ul>"
            && r[..i] + r[i + 4..j + 4] + r[j + 9..] == s
  {
    var r := s[..i] + "<ul>" + s[i..j] + "</ul>" + s[j..];
    assert r[..i] == s[..i] && r[i + 4..j + 4] == s[i..j] && r[j + 9..] == s[j..];
    assert s[..i] + s[i..j] + s[j..] == s;
  }

  /** `html.replace(/(<li>.*<\/li>)/s, '<ul>$1</ul>')`. */
  function WrapList(s: string): (r: string)
    ensures ListSpan(s).None? ==> r == s
    ensures ListSpan(s).Some? ==>
              var i, j := ListSpan(s).value.first, ListSpan(s).value.last + 5;
              && j <= |s| && |r| == |s| + 9
              && r[i..i + 4] == "<ul>" && r[j + 4..j + 9] == "</ul>"
              && r[..i] + r[i + 4..j + 4] + r[j + 9..] == s
  {
    match ListSpan(s)
    case None => s
    case Some(sp) =>
      var i, j := sp.first, sp.last + 5;
      InsertTags(s, i, j);
      s[..i] + "<ul>" + s[i..j] + "</ul>" + s[j..]
  }

  /** Every complete item `<li>…</li>` of the text lies inside the one
      `<ul>…</ul>` the wrap adds. */
  lemma {:induction false} WrapCoversItems(s: string, a: nat, b: nat)
    requires OccursAt(s, "<li>", a) && OccursAt(s, "</li>", b) && a + 4 <= b
    ensures ListSpan(s).Some?
    ensures ListSpan(s).value.first <= a && b <= ListSpan(s).value.last
  {
  }

  /** The three list passes in the source order. */
  function Lists(s: string): string {
    Numbered(WrapList(Bullets(s)))
  }

  /** The numbered rule runs after the wrap, so a numbered item is never put
      in a list: `N. x` alone becomes `<li>x</li>` and nothing more. */
  lemma {:induction false} NumberedItemNotWrapped(digits: string, x: string)
    requires digits != [] && forall i :: 0 <= i < |digits| ==> IsDigit(digits[i])
    requires x != [] && NoBreak(x) && forall i :: 0 <= i < |x| ==> x[i] != '<'
    ensures Lists(digits + ". " + x) == "<li>" + x + "</li>"
  {
    var line := digits + ". " + x;
    NoBreakAppend(digits + ". ", x);
    assert NoBreak(digits + ". ") by {
      assert forall i :: 0 <= i < |digits| ==> (digits + ". ")[i] == digits[i];
    }
    SingleLine(line);
    assert line[0] != '*' by {
      assert line[0] == digits[0];
    }
    assert RewriteAll(Bullet, [line]) == [line];
    assert Bullets(line) == line;
    forall k | 0 <= k <= |line|
      ensures !OccursAt(line, "<li>", k)
    {
      if k + 4 <= |line| {
        if k < |digits| {
          assert line[k] == digits[k];
        } else if k >= |digits| + 2 {
          assert line[k] == x[k - |digits| - 2];
        }
        assert line[k..k + 4][0] == line[k] != '<';
      }
    }
    assert WrapList(line) == line;
    NumberedItem(digits, x);
    assert RewriteAll(MarkdownLines.Numbered, [line]) == ["<li>" + x + "</li>"];
  }

  /** More generally, the wrap only sees what the bullet pass produced: in a
      text with no bullet line and no `<li>` of its own the list passes come
      down to the numbered pass, and no `<ul>` is added however many numbered
      lines there are. */
  lemma {:induction false} ListsWithoutBullets(s: string)
    requires forall k :: 0 <= k < |Lines(s)| ==> !("* " <= Lines(s)[k] && |Lines(s)[k]| > 2)
    requires forall k :: 0 <= k <= |s| ==> !OccursAt(s, "<li>", k)
    ensures Lists(s) == Numbered(s)
  {
    RewriteLinesUnchanged(Bullet, s);
    assert ListSpan(s).None?;
  }

  // Paragraphs: html.split('\n\n').map(wrap).join('\n\n')

  /** The separator `\n\n` stands at index `k` of `s`. */
  predicate SeparatorAt(s: string, k: int) {
    0 <= k && k + 1 < |s| && s[k] == '\n' && s[k + 1] == '\n'
  }

  /** `c` holds no `\n\n`. */
  predicate NoSeparator(c: string) {
    forall k :: 0 <= k < |c| ==> !SeparatorAt(c, k)
  }

  predicate EndsInNewline(c: string) {
    c != [] && c[|c| - 1] == '\n'
  }

  /** The chunks `split('\n\n')` can give: none holds a separator, and none
      but the last ends with a newline (the split, scanning left to right,
      would have cut one character earlier). */
  predicate WellFormedChunks(cs: seq<string>) {
    && |cs| >= 1
    && (forall k :: 0 <= k < |cs| ==> NoSeparator(cs[k]))
    && (forall k :: 0 <= k < |cs| - 1 ==> !EndsInNewline(cs[k]))
  }

  /** Prefixing a character adds a separator only at the front. */
  lemma {:induction false} SeparatorAtCons(c: char, t: string, k: nat)
    ensures SeparatorAt([c] + t, k + 1) <==> SeparatorAt(t, k)
  {
    if k + 1 < |t| {
      assert ([c] + t)[k + 1] == t[k] && ([c] + t)[k + 2] == t[k + 1];
    }
  }

  /** A first chunk that grows by one character keeps the chunk shape. */
  lemma {:induction false} ConsChunk(s: string, rest: seq<string>)
    requires s != [] && !SeparatorAt(s, 0) && WellFormedChunks(rest)
    requires rest[0] <= s[1..]
    requires |rest| > 1 && rest[0] == [] ==> SeparatorAt(s[1..], 0)
    ensures var c := [s[0]] + rest[0];
            && c <= s && NoSeparator(c) && (|rest| > 1 ==> !EndsInNewline(c))
  {
    var c := [s[0]] + rest[0];
    assert s == [s[0]] + s[1..];
    forall k | 0 <= k < |c|
      ensures !SeparatorAt(c, k)
    {
      if k > 0 {
        SeparatorAtCons(s[0], rest[0], k - 1);
      } else if |c| >= 2 {
        assert c[1] == s[1];
      }
    }
    if |rest| > 1 && rest[0] == [] {
      assert s[1] == '\n';
    }
  }

  /** `s.split('\n\n')`: cut at each leftmost `\n\n`, scanning left to right. */
  function Chunks(s: string): (cs: seq<string>)
    ensures WellFormedChunks(cs)
    ensures cs[0] <= s
    ensures |cs| > 1 && cs[0] == [] ==> SeparatorAt(s, 0)
    decreases |s|
  {
    if s == [] then [[]]
    else if SeparatorAt(s, 0) then [[]] + Chunks(s[2..])
    else
      var rest := Chunks(s[1..]);
      ConsChunk(s, rest);
      var cs := [[s[0]] + rest[0]] + rest[1..];
      assert forall k :: 1 <= k < |cs| ==> cs[k] == rest[k];
      cs
  }

  lemma {:induction false} NoBreakNoSeparator(c: string)
    requires NoBreak(c)
    ensures NoSeparator(c)
  {
  }

  /** `cs.join('\n\n')`. */
  function JoinChunks(cs: seq<string>): string
    requires |cs| >= 1
    decreases |cs|
  {
    if |cs| == 1 then cs[0] else cs[0] + "\n\n" + JoinChunks(cs[1..])
  }

  /** `JoinOfChunks` at a text that starts with the separator. */
  lemma {:induction false} JoinOfChunksAtSeparator(s: string)
    requires SeparatorAt(s, 0)
    requires JoinChunks(Chunks(s[2..])) == s[2..]
    ensures JoinChunks(Chunks(s)) == s
  {
    var cs := Chunks(s);
    assert cs[0] == [] && cs[1..] == Chunks(s[2..]);
    assert s == "\n\n" + s[2..];
  }

  /** A character added to the first chunk comes out in front of the join. */
  lemma {:induction false} JoinChunksCons(c: char, rest: seq<string>)
    requires |rest| >= 1
    ensures JoinChunks([[c] + rest[0]] + rest[1..]) == [c] + JoinChunks(rest)
  {
    var cs := [[c] + rest[0]] + rest[1..];
    assert cs[0] == [c] + rest[0] && cs[1..] == rest[1..];
    if |rest| > 1 {
      var j := JoinChunks(rest[1..]);
      var sep := "\n\n";
      assert JoinChunks(cs) == ([c] + rest[0]) + sep + j;
      assert JoinChunks(rest) == rest[0] + sep + j;
      assert ([c] + rest[0]) + sep + j == [c] + (rest[0] + sep + j);
    }
  }

  /** `JoinOfChunks` at a text whose first character stays in the first chunk. */
  lemma {:induction false} JoinOfChunksAtChar(s: string)
    requires s != [] && !SeparatorAt(s, 0)
    requires JoinChunks(Chunks(s[1..])) == s[1..]
    ensures JoinChunks(Chunks(s)) == s
  {
    var rest := Chunks(s[1..]);
    assert Chunks(s) == [[s[0]] + rest[0]] + rest[1..];
    JoinChunksCons(s[0], rest);
    assert s == [s[0]] + s[1..];
  }

  /** Splitting and joining again gives the text back. */
  lemma {:induction false} JoinOfChunks(s: string)
    ensures JoinChunks(Chunks(s)) == s
    decreases |s|
  {
    if s == [] {
    } else if SeparatorAt(s, 0) {
      JoinOfChunks(s[2..]);
      JoinOfChunksAtSeparator(s);
    } else {
      JoinOfChunks(s[1..]);
      JoinOfChunksAtChar(s);
    }
  }

  /** Dropping the first character keeps a text free of the separator. */
  lemma {:induction false} NoSeparatorTail(c: string)
    requires c != [] && NoSeparator(c)
    ensures NoSeparator(c[1..])
  {
    forall k | 0 <= k < |c[1..]|
      ensures !SeparatorAt(c[1..], k)
    {
      assert c == [c[0]] + c[1..];
      SeparatorAtCons(c[0], c[1..], k);
    }
  }

  /** `ChunksOfPrefix` for a chunk, given it for the chunk without its first character. */
  lemma {:induction false} ChunksOfPrefixStep(c: string, t: string)
    requires c != [] && NoSeparator(c) && !EndsInNewline(c)
    requires Chunks(c[1..] + "\n\n" + t) == [c[1..]] + Chunks(t)
    ensures Chunks(c + "\n\n" + t) == [c] + Chunks(t)
  {
    var s := c + "\n\n" + t;
    assert !SeparatorAt(s, 0) by {
      assert s[0] == c[0];
      if |c| == 1 {
        assert c[0] != '\n';
      } else {
        assert !SeparatorAt(c, 0);
        assert s[1] == c[1];
      }
    }
    assert Chunks(s) == [[s[0]] + c[1..]] + Chunks(t) by {
      assert s[1..] == c[1..] + "\n\n" + t;
      ChunksOfCons(s, c[1..], Chunks(t));
    }
    assert [s[0]] + c[1..] == c by {
      assert s[0] == c[0];
    }
  }

  /** Away from a separator, the first character joins the first chunk of
      the rest. */
  lemma {:induction false} ChunksOfCons(s: string, x: string, cs: seq<string>)
    requires s != [] && !SeparatorAt(s, 0) && Chunks(s[1..]) == [x] + cs
    ensures Chunks(s) == [[s[0]] + x] + cs
  {
    var rest := Chunks(s[1..]);
    assert rest[0] == x && rest[1..] == cs;
  }

  /** A chunk followed by the separator is split off exactly. */
  lemma {:induction false} ChunksOfPrefix(c: string, t: string)
    requires NoSeparator(c) && !EndsInNewline(c)
    ensures Chunks(c + "\n\n" + t) == [c] + Chunks(t)
    decreases |c|
  {
    if c == [] {
      var s := c + "\n\n" + t;
      assert SeparatorAt(s, 0);
      assert s[2..] == t;
    } else {
      NoSeparatorTail(c);
      assert !EndsInNewline(c[1..]) by {
        if c[1..] != [] { assert c[1..][|c[1..]| - 1] == c[|c| - 1]; }
      }
      ChunksOfPrefix(c[1..], t);
      ChunksOfPrefixStep(c, t);
    }
  }

  /** A chunk on its own is one chunk. */
  lemma {:induction false} ChunksOfChunk(c: string)
    requires NoSeparator(c)
    ensures Chunks(c) == [c]
    decreases |c|
  {
    if c != [] {
      NoSeparatorTail(c);
      ChunksOfChunk(c[1..]);
      assert !SeparatorAt(c, 0);
      assert c == [c[0]] + c[1..];
    }
  }

  /** Joining well-formed chunks and splitting again gives them back. */
  lemma {:induction false} ChunksOfJoin(cs: seq<string>)
    requires WellFormedChunks(cs)
    ensures Chunks(JoinChunks(cs)) == cs
    decreases |cs|
  {
    if |cs| == 1 {
      ChunksOfChunk(cs[0]);
    } else {
      assert WellFormedChunks(cs[1..]) by {
        assert forall k :: 0 <= k < |cs[1..]| ==> cs[1..][k] == cs[k + 1];
      }
      ChunksOfJoin(cs[1..]);
      ChunksOfPrefix(cs[0], JoinChunks(cs[1..]));
      assert cs == [cs[0]] + cs[1..];
    }
  }

  /** The map callback: wrap a chunk that does not start with `<` and whose
      trimmed text is not empty. */
  function WrapChunk(c: string): (r: string)
    ensures !("<" <= c) && !AllWhiteSpace(c) ==> r == "<p>" + c + "</p>"
    ensures "<" <= c || AllWhiteSpace(c) ==> r == c
  {
    if !("<" <= c) && Trim(c) != [] then "<p>" + c + "</p>" else c
  }

  function WrapAll(cs: seq<string>): (rs: seq<string>)
    ensures |rs| == |cs|
    ensures forall k :: 0 <= k < |cs| ==> rs[k] == WrapChunk(cs[k])
  {
    seq(|cs|, k requires 0 <= k < |cs| => WrapChunk(cs[k]))
  }

  /** The paragraph pass. */
  function Paragraphs(s: string): string {
    JoinChunks(WrapAll(Chunks(s)))
  }

  /** `<p>c</p>` holds a separator only where `c` does. */
  lemma {:induction false} ParagraphNoSeparator(c: string)
    requires NoSeparator(c)
    ensures NoSeparator("<p>" + c + "</p>")
  {
    var r := "<p>" + c + "</p>";
    var n := |r|;
    assert forall i :: 3 <= i < n - 4 ==> r[i] == c[i - 3];
    assert forall i :: 0 <= i < 3 ==> r[i] == "<p>"[i];
    assert forall i :: n - 4 <= i < n ==> r[i] == "</p>"[i - (n - 4)];
    forall k | 0 <= k < n
      ensures !SeparatorAt(r, k)
    {
      if 3 <= k < n - 5 {
        assert !SeparatorAt(c, k - 3);
      }
    }
  }

  /** A wrapped chunk is still a chunk: no separator appears and it does not
      end with a newline. */
  lemma {:induction false} WrapChunkWellFormed(c: string, last: bool)
    requires NoSeparator(c) && (last || !EndsInNewline(c))
    ensures NoSeparator(WrapChunk(c)) && (last || !EndsInNewline(WrapChunk(c)))
  {
    if WrapChunk(c) != c {
      ParagraphNoSeparator(c);
    }
  }

  /** Paragraph wrapping keeps the chunks, their number and their order, and
      wraps the k-th chunk exactly when it does not start with `<` and is not
      all white space. */
  lemma {:induction false} ParagraphsKeepChunks(s: string)
    ensures |Chunks(Paragraphs(s))| == |Chunks(s)|
    ensures forall k :: 0 <= k < |Chunks(s)| ==>
              var c := Chunks(s)[k];
              Chunks(Paragraphs(s))[k] == if !("<" <= c) && !AllWhiteSpace(c) then "<p>" + c + "</p>" else c
  {
    var cs := Chunks(s);
    var rs := WrapAll(cs);
    forall k | 0 <= k < |cs|
      ensures NoSeparator(rs[k]) && (k == |cs| - 1 || !EndsInNewline(rs[k]))
    {
      WrapChunkWellFormed(cs[k], k == |cs| - 1);
    }
    ChunksOfJoin(rs);
  }

  /** A single chunk that the callback wraps becomes one paragraph. */
  lemma {:induction false} ParagraphOfOneChunk(c: string)
    requires NoSeparator(c) && !("<" <= c) && !AllWhiteSpace(c)
    ensures Paragraphs(c) == "<p>" + c + "</p>"
  {
    ChunksOfChunk(c);
    assert WrapAll([c]) == ["<p>" + c + "</p>"];
  }

  /** `<blockquote>x</blockquote>`. */
  lemma {:induction false} WrapQuote(x: string)
    ensures Wrap("blockquote", x) == "<blockquote>" + x + "</blockquote>"
  {
    var a, b := Wrap("blockquote", x), "<blockquote>" + x + "</blockquote>";
    assert |a| == |b|;
    forall i | 0 <= i < |a|
      ensures a[i] == b[i]
    {
      if 12 <= i < 12 + |x| {
        assert a[i] == x[i - 12] == b[i];
      } else if i >= 12 + |x| {
        assert a[i] == "</blockquote>"[i - 12 - |x|] == b[i];
      }
    }
  }

  /** A line `> q` with `q` not empty becomes a blockquote. */
  lemma {:induction false} QuoteLine(q: string)
    requires q != []
    ensures RewriteLine(Quote, "> " + q) == "<blockquote>" + q + "</blockquote>"
  {
    assert ("> " + q)[2..] == q;
    WrapQuote(q);
  }

  /** The blockquote pass on a text that is one such line. */
  lemma {:induction false} BlockquoteOfQuoteLine(q: string)
    requires q != [] && NoBreak(q)
    ensures Blockquotes("> " + q) == "<blockquote>" + q + "</blockquote>"
  {
    var l := "> " + q;
    assert NoBreak(l) by {
      assert NoBreak("> ");
      NoBreakAppend("> ", q);
    }
    SingleLine(l);
    QuoteLine(q);
    assert RewriteAll(Quote, [l]) == ["<blockquote>" + q + "</blockquote>"];
  }

  /** A single line that does not start with `> ` is left alone by the blockquote rule. */
  lemma {:induction false} BlockquoteOfOtherLine(l: string)
    requires NoBreak(l) && !("> " <= l)
    ensures Blockquotes(l) == l
  {
    SingleLine(l);
    assert RewriteAll(Quote, [l]) == [l];
  }

  lemma {:induction false} LiteralsOnOneLine()
    ensures NoBreak("> ") && NoBreak("<p>") && NoBreak("</p>")
  {
  }

  /** A quote that opens a chunk is wrapped as a paragraph first, and the
      blockquote rule, which runs last, no longer sees `> ` at the start of
      the line: `> q` alone becomes `<p>> q</p>`. */
  lemma {:induction false} QuoteShadowedByParagraph(q: string)
    requires q != [] && NoBreak(q)
    ensures Blockquotes(Paragraphs("> " + q)) == "<p>" + "> " + q + "</p>"
  {
    var c := "> " + q;
    LiteralsOnOneLine();
    NoBreakAppend("> ", q);
    NoBreakNoSeparator(c);
    assert !IsWhiteSpace(c[0]);
    ParagraphOfOneChunk(c);
    var p := "<p>" + c + "</p>";
    NoBreakAppend("<p>", c);
    NoBreakAppend("<p>" + c, "</p>");
    assert NoBreak(p);
    assert !("> " <= p) by {
      assert p[0] == '<';
      assert |p| >= 2 ==> p[..2][0] == '<';
    }
    BlockquoteOfOtherLine(p);
    Regroup("<p>", "> ", q, "</p>");
  }

  /** Regrouping a concatenation of four texts. */
  lemma {:induction false} Regroup(a: string, b: string, c: string, d: string)
    ensures a + (b + c) + d == a + b + c + d
  {
  }
}
