# Candlefish documentation converter and Porkbun DNS reconciler, modelled in Dafny

This project models two small pieces of logic from the Candlefish AI
documentation repository and proves properties about them.

- **The Markdown-to-HTML converter** in `scripts/convert-docs-to-html.js`:
  - `escapeHtml`;
  - every rewrite rule of `convertMarkdownToHTML` and their composition in source order. The rules are headers, emphasis, links, inline code, fenced code, list items with the single `<ul>` wrap, numbered items, paragraphs over `\n\n` chunks, and blockquotes;
  - the `htmlTemplate` page shell.

  Each regular-expression rule is written out as the one match it produces. None of it goes through a general regex engine.
  - Rules anchored with `^…$` under the `m` flag rewrite line by line and keep the line terminators (`MarkdownLines`).
  - The other global rules scan left to right (`MarkdownInline.ReplaceAll`). At each position they either replace a match and resume after it, or copy one character.
  - The list wrap (no `g` flag, greedy, dot-all) spans from the first `<li>` to the last `</li>`.
  - `split('\n\n')`/`join('\n\n')` is modelled by `Chunks`/`JoinChunks`.
- **The Porkbun DNS client** in `scripts/configure-dns-porkbun-v2.py`:
  - `_make_request` adds the credentials to the caller's dict in place, and every failure comes back as an `ERROR` dict.
  - `find_existing_record` is a first-match search.
  - `configure_dns` either changes nothing, updates by id, or creates. It exits through `error()` when the ping or the retrieval fails.

  How the DNS side is modelled:
  - **Requests.** The HTTP transport is an oracle, `Api.server`, that maps the sequence of requests sent so far to a transport outcome. `Api.sent` records every request in order.
  - **Dict and client.** `PorkbunDns` is a class with the credentials and the API as constants, since `__init__` sets them once. The caller's dict is a `Dict` object whose `entries` the request helper reassigns.
  - **Reference function.** `Configure` is the pure reference for one run. `PorkbunDns.ConfigureDns` is proved to produce exactly its outcome and its request log.
  - **Outcomes.** `error()` is the terminal outcome `Exited(message)`. An uncaught Python exception is `Crashed`: `len` of a `records` value without a length, or reaching, in the loop over the records, an element that has no `.get`.

Where the code and the converter's intended behaviour differ, the model follows the code. One such case is fenced code blocks:
- They are meant to come out as preformatted blocks with their body escaped.
- In the code, the inline-code rule (line 319) runs before the fenced-block rule (line 322). A fence such as ```` ```js\nx\n``` ```` is therefore consumed by inline code first: the middle backtick pair becomes `<code>…</code>`. The fenced rule then finds no fence left.
- `MarkdownInline.FenceConsumedByInlineCode` proves this for every fence whose tag is a word and whose body has no backtick.
- The fenced-block callback itself is modelled (`CodeBlockAt`, `CodeBlockSpan`). It only applies to text that still holds a fence when that rule runs.

## Model

| member | source | states |
|---|---|---|
| HtmlEscape.EscapeHtml | scripts/convert-docs-to-html.js:345-354 | the output is at least as long as the input and contains no bare `<`, `>`, `"` or `'` |
| HtmlEscape.EscapeChar | scripts/convert-docs-to-html.js:346-353 | each of `& < > " '` becomes an entity `&…;` free of markup characters; every other character is copied unchanged |
| HtmlEscape.UnescapeEscape | scripts/convert-docs-to-html.js:346-353 | each reserved character is replaced exactly once (single pass, `&` never escaped twice): reading the entities back gives the input |
| HtmlEscape.EscapeInjective | scripts/convert-docs-to-html.js:345-354 | different texts escape to different outputs |
| HtmlEscape.EscapeAppend | scripts/convert-docs-to-html.js:353 | escape(a + b) = escape(a) + escape(b) |
| HtmlEscape.EscapeIdentity | scripts/convert-docs-to-html.js:353 | text free of the five characters is returned unchanged |
| HtmlEscape.AmpersandStartsEntity | scripts/convert-docs-to-html.js:346-353 | every `&` of the output begins one of `&amp;`, `&lt;`, `&gt;`, `&quot;`, `&#039;` |
| JsText.Trim | scripts/convert-docs-to-html.js:323 | `code.trim()`: a slice of the input with only white space around it, whose ends are not white space, empty exactly when the input is all white space |
| JsText.JoinOfLines | scripts/convert-docs-to-html.js:305 | splitting a text into lines and terminators and joining them back gives the text |
| JsText.LinesOfJoin | scripts/convert-docs-to-html.js:305 | joining terminator-free lines and splitting again gives back the same lines and terminators |
| MarkdownLines.RewriteLines | scripts/convert-docs-to-html.js:305-308 | one `^…$`/`m` rule: the lines, each rewritten on its own, joined with the original terminators. It has no contract of its own; LinesOfRewrite and RewriteLinesUnchanged state what it does |
| MarkdownLines.LinesOfRewrite | scripts/convert-docs-to-html.js:305-308 | a `^…$`/`m` rule keeps the number of lines and every terminator, and line k of the output is line k of the input rewritten |
| MarkdownLines.RewriteLinesUnchanged | scripts/convert-docs-to-html.js:305-308 | a text none of whose lines the rule matches is returned unchanged |
| MarkdownLines.Headings | scripts/convert-docs-to-html.js:305-308 | the four header passes, `####` first and `#` last. It has no contract of its own; HeadingsLineByLine and HeadingPassesCompose state what it does |
| MarkdownLines.HeadingsLineByLine | scripts/convert-docs-to-html.js:305-308 | the four header passes together turn each line into the one-step heading decision for that line and keep all terminators |
| MarkdownLines.HeadingOfMarked | scripts/convert-docs-to-html.js:305-308 | `#### x`, `### x`, `## x`, `# x` become `<h4>x</h4>`, `<h3>x</h3>`, `<h2>x</h2>`, `<h1>x</h1>` |
| MarkdownLines.HeadingPassesCompose | scripts/convert-docs-to-html.js:305-308 | a later header pass never re-matches the output of an earlier one; lines without a marker are untouched |
| MarkdownInline.LazyClose | scripts/convert-docs-to-html.js:311-313 | `(.*?)d` ends at the first occurrence of `d` with no line terminator before it, and at none when no such occurrence exists |
| MarkdownInline.MatchAt | scripts/convert-docs-to-html.js:311-324 | a match starts with the rule's lead character and covers between 1 and all remaining characters. What a match of each rule is, is stated in both directions: EmphasisShape, LinkShape, InlineCodeShape and FenceShape say every match has the expression's shape, and EmphasisMatch, LinkMatch, InlineCodeSpan and FenceMatch say every text of that shape matches |
| MarkdownInline.ReplaceAllUnchanged | scripts/convert-docs-to-html.js:311-324 | a text without the rule's lead character is returned unchanged |
| MarkdownInline.ReplaceAll | scripts/convert-docs-to-html.js:311-324 | `replace` with the `g` flag: left to right, a match is replaced and the scan resumes after it, never re-reading the replacement, otherwise one character is copied. It has no contract of its own; ReplaceAllUnchanged, EmphasisKeepsBreaks and the Span lemmas below state what it does |
| MarkdownInline.EmphasisSpan | scripts/convert-docs-to-html.js:311-313 | `***x***`, `**x**`, `*x*` on one line, with no delimiter inside, become `<strong><em>x</em></strong>`, `<strong>x</strong>`, `<em>x</em>` and the scan goes on after them |
| MarkdownInline.EmphasisMatch | scripts/convert-docs-to-html.js:311-313 | the delimiter, a run x on one line in which no delimiter starts, and the delimiter again match, with x between the tags as the replacement |
| MarkdownInline.EmphasisShape | scripts/convert-docs-to-html.js:311-313 | conversely, every emphasis match is the delimiter, a run x on one line in which no delimiter starts, and the delimiter again, and its replacement is x between the tags |
| MarkdownInline.EmphasisKeepsBreaks | scripts/convert-docs-to-html.js:311-313 | the emphasis passes keep every line terminator in order |
| MarkdownInline.LinkSpan | scripts/convert-docs-to-html.js:316 | `[t](u)` with t free of `]` and u free of `)` becomes `<a href="u">t</a>`, both copied unescaped |
| MarkdownInline.LinkMatch | scripts/convert-docs-to-html.js:316 | `[t](u)` with t and u not empty, t free of `]` and u free of `)` matches, covering exactly those characters, with `<a href="u">t</a>` as the replacement |
| MarkdownInline.LinkShape | scripts/convert-docs-to-html.js:316 | conversely, every link match is such a `[t](u)`, and its replacement is `<a href="u">t</a>` |
| MarkdownInline.InlineCodeSpan | scripts/convert-docs-to-html.js:319 | `` `x` `` with x free of backticks becomes `<code>x</code>` |
| MarkdownInline.InlineCodeShape | scripts/convert-docs-to-html.js:319 | conversely, every inline-code match is a backtick, a run of at least one character without backticks and a backtick, and its replacement is `<code>`, the run and `</code>` |
| MarkdownInline.FenceMatch | scripts/convert-docs-to-html.js:322 | a fence ```` ```lang\ncode``` ```` matches with its word tag and the body up to the first closing fence |
| MarkdownInline.FenceShape | scripts/convert-docs-to-html.js:322 | conversely, every fence found is three backticks, a tag of word characters, a newline, a body in which no triple backtick starts, and three backticks, and it covers exactly these |
| MarkdownInline.CodeBlockHtml | scripts/convert-docs-to-html.js:322-324 | the callback's output: the tag or `text`, and the trimmed body escaped. It has no contract of its own; CodeBlockSpan states it for every fence that reaches the rule |
| MarkdownInline.CodeBlockSpan | scripts/convert-docs-to-html.js:322-324 | a fence that reaches this rule becomes `<pre><code class="language-L">` + escape(trim(code)) + `</code></pre>`, L being the tag or `text` |
| MarkdownInline.CodeBlockUnchanged | scripts/convert-docs-to-html.js:322 | text without a triple backtick is untouched by the fenced rule |
| MarkdownInline.FenceConsumedByInlineCode | scripts/convert-docs-to-html.js:319-324 | because inline code runs first, a fence becomes ``` ``<code>lang\ncode</code>`` ``` and the fenced rule then leaves it as it is |
| MarkdownBlocks.Bullets | scripts/convert-docs-to-html.js:327 | the bullet rule as a line rule. It has no contract of its own; BulletItem states what it does to a bullet line, RewriteLinesUnchanged that other lines are kept |
| MarkdownBlocks.Numbered | scripts/convert-docs-to-html.js:329 | the numbered rule as a line rule. It has no contract of its own; NumberedItem states what it does to a numbered line |
| MarkdownBlocks.BulletItem | scripts/convert-docs-to-html.js:327 | a line `* x` with x not empty becomes `<li>x</li>` |
| MarkdownBlocks.NumberedItem | scripts/convert-docs-to-html.js:329 | a line `N. x` (N one or more digits, x not empty) becomes `<li>x</li>` |
| MarkdownBlocks.ListSpan | scripts/convert-docs-to-html.js:328 | the greedy dot-all match spans from the first `<li>` to the last `</li>` after it, and there is none exactly when no `</li>` follows any `<li>` |
| MarkdownBlocks.WrapList | scripts/convert-docs-to-html.js:328 | at most one `<ul>…</ul>` is inserted, around that span; removing the two tags gives back the input, and without a span the text is unchanged |
| MarkdownBlocks.WrapCoversItems | scripts/convert-docs-to-html.js:328 | the one wrap covers every `<li>…</li>` pair in the text |
| MarkdownBlocks.Lists | scripts/convert-docs-to-html.js:327-329 | the bullet pass, the wrap and the numbered pass in that order. It has no contract of its own; ListsWithoutBullets and NumberedItemNotWrapped state what it does |
| MarkdownBlocks.NumberedItemNotWrapped | scripts/convert-docs-to-html.js:327-329 | a text that is a single numbered line `N. x`, x on one line and free of `<`, comes out of the list passes as `<li>x</li>` with no `<ul>`, because the numbered rule runs after the wrap. This is about a lone numbered line: a numbered line between two bullet lines does fall inside the wrap, which spans from the first `<li>` to the last `</li>` |
| MarkdownBlocks.ListsWithoutBullets | scripts/convert-docs-to-html.js:327-329 | in a text with no bullet line and no `<li>` of its own, the list passes come down to the numbered pass alone: no `<ul>` is added, however many numbered lines there are |
| MarkdownBlocks.Chunks | scripts/convert-docs-to-html.js:332 | `split('\n\n')` yields chunks without the separator, none but the last ending in a newline |
| MarkdownBlocks.JoinOfChunks | scripts/convert-docs-to-html.js:332-337 | joining the chunks with `\n\n` gives back the text |
| MarkdownBlocks.ChunksOfJoin | scripts/convert-docs-to-html.js:332-337 | splitting a join of well-formed chunks gives back the same chunks |
| MarkdownBlocks.WrapChunk | scripts/convert-docs-to-html.js:333-336 | a chunk is wrapped in `<p>…</p>` exactly when it does not start with `<` and is not all white space; otherwise it is unchanged |
| MarkdownBlocks.Paragraphs | scripts/convert-docs-to-html.js:332-337 | split at `\n\n`, wrap each chunk, join with `\n\n`. It has no contract of its own; ParagraphsKeepChunks and ParagraphOfOneChunk state what it does |
| MarkdownBlocks.ParagraphsKeepChunks | scripts/convert-docs-to-html.js:332-337 | paragraph wrapping keeps the number and order of chunks, chunk k coming out wrapped or unchanged by that rule |
| MarkdownBlocks.ParagraphOfOneChunk | scripts/convert-docs-to-html.js:332-337 | a single chunk that does not start with `<` and is not all white space becomes `<p>…</p>` |
| MarkdownBlocks.Blockquotes | scripts/convert-docs-to-html.js:340 | the blockquote rule as a line rule. It has no contract of its own; QuoteLine, BlockquoteOfQuoteLine and BlockquoteOfOtherLine state what it does |
| MarkdownBlocks.QuoteLine | scripts/convert-docs-to-html.js:340 | a line `> q` with q not empty becomes `<blockquote>q</blockquote>` |
| MarkdownBlocks.BlockquoteOfQuoteLine | scripts/convert-docs-to-html.js:340 | the blockquote pass turns a text that is one such line, q on one line, into `<blockquote>q</blockquote>` |
| MarkdownBlocks.BlockquoteOfOtherLine | scripts/convert-docs-to-html.js:340 | the blockquote pass leaves a single line that does not start with `> ` as it is |
| MarkdownBlocks.QuoteShadowedByParagraph | scripts/convert-docs-to-html.js:332-340 | a lone `> q` line is wrapped as a paragraph first, so the blockquote rule no longer sees it at a line start |
| Markdown.ConvertMarkdownToHtml | scripts/convert-docs-to-html.js:301-343 | every rule, composed in source order. It has no contract of its own; PlainLineIsParagraph and HeadingLineIsHeading state its result end to end |
| Markdown.PlainLineIsParagraph | scripts/convert-docs-to-html.js:301-343 | a line of plain text, not starting with a digit and not all white space, comes out of the whole pipeline as `<p>x</p>` |
| Markdown.HeadingLineIsHeading | scripts/convert-docs-to-html.js:301-343 | `# x` with plain x comes out of the whole pipeline as `<h1>x</h1>`, not wrapped as a paragraph |
| PageTemplate.HtmlTemplate | scripts/convert-docs-to-html.js:11-298 | the page is as long as the fixed text plus four copies of the title and one of the content. With TitleInTitleElement, TitleInDescription, TitleInOgTitle, StyleAndNavigationInPlace, TitleInHeading and ContentAndShell, every fixed piece is placed one after the other from the start of the page to its end, so the arguments reach the page only at the four title slots and the content slot |
| PageTemplate.StyleAndNavigationInPlace | scripts/convert-docs-to-html.js:18-285 | right after the third copy of the title come the end of the og:title meta, the fixed style and navigation markup of lines 19-284 and the heading tag, whatever the arguments |
| PageTemplate.TitleInTitleElement | scripts/convert-docs-to-html.js:16 | the title appears unescaped as the text of `<title>`, followed by ` - Candlefish AI Documentation</title>` |
| PageTemplate.TitleInDescription | scripts/convert-docs-to-html.js:17 | the title appears unescaped as the start of the description meta's `content` attribute |
| PageTemplate.TitleInOgTitle | scripts/convert-docs-to-html.js:18 | the title appears unescaped as the start of the og:title meta's `content` attribute |
| PageTemplate.TitleInHeading | scripts/convert-docs-to-html.js:285 | the title appears unescaped as the text of `<h1 class="doc-title">` |
| PageTemplate.ContentAndShell | scripts/convert-docs-to-html.js:11-298 | the content appears unescaped between the header and the footer, the footer ends the page, and whatever the arguments the page starts with the same doctype and head up to `<title>` |
| Porkbun.PorkbunDns.MakeRequest | scripts/configure-dns-porkbun-v2.py:76-104 | the caller's dict gains the credentials in place, the dict as updated is what gets posted, and the result is the normalised reply |
| Porkbun.WithCredentials | scripts/configure-dns-porkbun-v2.py:81-84 | `data.update` with the two credentials. It has no contract of its own; WithCredentialsKeepsOthers states what it does |
| Porkbun.WithCredentialsKeepsOthers | scripts/configure-dns-porkbun-v2.py:80-84 | the update adds or overwrites `apikey` and `secretapikey` and leaves every other key as it was |
| Porkbun.Normalise | scripts/configure-dns-porkbun-v2.py:91-104 | the dict `_make_request` returns for a transport outcome. It has no contract of its own; NormaliseErrors and NormaliseIdempotent state what it does |
| Porkbun.NormaliseErrors | scripts/configure-dns-porkbun-v2.py:91-104 | a decoded reply whose status is not `ERROR` is returned unchanged; everything else (request failures, non-JSON bodies and `ERROR` replies) becomes exactly `{status: ERROR, message}`, with the message defaulting to `Unknown error` |
| Porkbun.NormaliseIdempotent | scripts/configure-dns-porkbun-v2.py:96-99 | a normalised result, replied again, is unchanged |
| Porkbun.PorkbunDns.TestAuthentication | scripts/configure-dns-porkbun-v2.py:106-117 | sends one ping carrying only the credentials and returns whether its reply has status `SUCCESS` |
| Porkbun.PorkbunDns.GetDnsRecords | scripts/configure-dns-porkbun-v2.py:119-131 | sends one retrieval; `None` unless the status is `SUCCESS`; `records` defaults to `[]`; a value without a length raises at `len` |
| Porkbun.FindRecord | scripts/configure-dns-porkbun-v2.py:133-141 | the result is the first element named `jonathon.candlefish.ai` with type `CNAME`; no match exactly when every element is a non-matching dict; a non-dict element before any match raises |
| Porkbun.FindIn | scripts/configure-dns-porkbun-v2.py:137-141 | the loop over what the retrieval returned: on a list it is the search for the first matching record (FindRecord), and a result found is a matching dict element of that list; there is no match exactly when the value is a list of passed-over dicts, an empty string or an empty dict. Any other value raises: a non-empty string or dict iterates over strings, which have no `.get` |
| Porkbun.PorkbunDns.FindExistingRecord | scripts/configure-dns-porkbun-v2.py:133-141 | the loop's result is that first-match search over what the records iterate as |
| Porkbun.CnameBody | scripts/configure-dns-porkbun-v2.py:147-152 | the write body has exactly name `jonathon`, type `CNAME`, content `zippy-macaron-c28bbf.netlify.app`, ttl `"300"` and the two credentials |
| Porkbun.PorkbunDns.CreateCnameRecord | scripts/configure-dns-porkbun-v2.py:143-161 | posts that body to the create path and returns whether it succeeded |
| Porkbun.PorkbunDns.UpdateCnameRecord | scripts/configure-dns-porkbun-v2.py:163-181 | posts the same body to the record's edit path and returns whether it succeeded |
| Porkbun.PorkbunDns.DeleteRecord | scripts/configure-dns-porkbun-v2.py:183-194 | posts the credentials alone to the record's delete path and returns whether it succeeded |
| Porkbun.PorkbunDns.ConfigureDns | scripts/configure-dns-porkbun-v2.py:196-229 | the outcome and every request sent are those of the reference run `Configure` |
| Porkbun.Configure | scripts/configure-dns-porkbun-v2.py:196-229 | the reference run of `configure_dns`. It has no contract of its own; ConfigureDns is proved to match it, and the lemmas below state what it does |
| Porkbun.FailedPingExits | scripts/configure-dns-porkbun-v2.py:202-203 | a failed ping exits through `error()` with only the ping sent |
| Porkbun.FailedRetrievalExits | scripts/configure-dns-porkbun-v2.py:206-208 | a failed retrieval exits through `error()` with only the ping and the retrieval sent |
| Porkbun.NoWriteUnlessFinished | scripts/configure-dns-porkbun-v2.py:27-30 | a run that exits or crashes has sent no create, update or delete |
| Porkbun.RequestsInOrder | scripts/configure-dns-porkbun-v2.py:196-229 | every run sends the ping first and the retrieval second, and at most one request after them, which is the only one that writes |
| Porkbun.AtMostOneWrite | scripts/configure-dns-porkbun-v2.py:196-229 | the one write, if any, is a create or an update carrying the CNAME body, sent only after both checks succeeded and the records could be searched; never a delete |
| Porkbun.UpToDateIsNoOp | scripts/configure-dns-porkbun-v2.py:213-218 | an existing CNAME already pointing at the target gives success with no write sent |
| Porkbun.StaleRecordRewritten | scripts/configure-dns-porkbun-v2.py:219-226 | a CNAME pointing elsewhere is updated by its id when the id is truthy and a create is sent otherwise; the write's success is the result |
| Porkbun.MissingRecordCreated | scripts/configure-dns-porkbun-v2.py:227-229 | with no matching record exactly one create is sent and its success is the result |

## Left out

- `scripts/netlify-api-config.js` is not part of this model. It is an HTTPS client with no logic beyond accepting a status code.
- The converter's file-system work and its document drivers are left out: directory creation, reads, writes, and the lists of pages and their literal contents (lines 356-506).
- PageTemplate.HtmlTemplate: the long runs of fixed markup (the document start of lines 11-15, the fonts, stylesheet and navigation of lines 19-284, the header end of lines 286-289 and the footer of lines 291-298) are constants whose value is left open. Every property is proved for any fixed text (`PageTemplate.Shell`). The text around each interpolation, on lines 16, 17, 18 and 285, is written out exactly.
- Markdown.ConvertMarkdownToHtml: the whole pipeline is proved on two families of inputs: plain lines and level-one headings. No general end-to-end theorem is stated, since the rules interfere by design.
- The rules on their own are proved to different extents. The header, list-item and paragraph rules are proved for every input. Each inline matcher is characterised in both directions at the scan position, and the scan is proved for texts that start with a match or hold none; the emphasis scan keeps every line terminator for every input. The blockquote rule is proved for a text of one line.
- Strings are sequences of Unicode scalar values. JavaScript works on UTF-16 code units, which only changes lengths for characters outside the Basic Multilingual Plane. No rule matches on such characters.
- The credential lookup through the AWS CLI (`get_porkbun_credentials`), the `dig` propagation check (`verify_dns_propagation`) and `main` are left out. These are subprocess and file work. The credentials are constructor parameters.
- Logging, colours, timestamps and the `print` of the separator line are left out. They have no effect on the decision.
- The URL (`BASE_URL` plus the path), the headers and the timeout are left out. The `Endpoint` datatype names the path and keeps the record id as the JSON value that goes into it.
- Porkbun.PorkbunDns.MakeRequest: a reply body that is valid JSON but not an object is not modelled. The oracle's `Decoded` outcome always carries an object. In the source, `.get` on such a body raises an uncaught `AttributeError`.
- Porkbun.PorkbunDns.MakeRequest: the text of a `requests` exception and the raw body of a non-JSON reply are parameters of the oracle's outcome.
- Porkbun.PorkbunDns.MakeRequest: the model follows the handlers in the order written, with a JSON decoding failure caught by the second handler. With `requests` 2.27 or later, the decoding error is also a `RequestException`. The first handler then catches it, so the message reads `Request failed: …`. Either way the status is `ERROR`, and no decision depends on the message.
- JSON numbers with a fraction are not modelled. Python's `True == 1` is not modelled either, because the code only compares JSON values with strings.
- The dict's key order is not modelled; dicts are maps.
- `configure_dns` tests `if existing:`. The model does not test it again, because a found record has a `name` key and so is never an empty dict.
