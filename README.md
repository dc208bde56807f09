# LCTT.Server collector core, modelled in Dafny

LCTT.Server is the back end used by the Linux China translation project
(LCTT). It collects English articles and proposes them for translation.
Given an article URL, it does the following:

- picks a site parser from the URL's host;
- walks the page's HTML tree and turns it into Markdown paragraphs plus a
  numbered list of reference links;
- fills the site's Markdown template;
- names the article file and git branch from the publication date, a
  per-day counter, a star rating and the title;
- opens a pull request.

It also serves a feed of recent, not-yet-collected articles from the
configured sites, with each summary cleaned of inline HTML.

The model covers these parts:

- **Parser tree walk** (`render.dfy`, `parser.dfy`). `Render` is a pure
  specification of every node handler: headings, images with `srcset`,
  links, code, quotes, emphasis, lists, tables, `div`, `iframe` and text.
  The `Parsing.Parser` class keeps the parser's fields (`texts`, `urls`,
  `urlIndex`, `itemIndex`, `url`, `host`, `baseUrl`) and mutates them in
  its methods. Each method is proved to yield what `Render` specifies.
- **Site overrides** (`sites.dfy`). The variants are the LCTT and COSSIG
  parsers and the `news.itsfoss.com`, `blog.centos.org` and
  `debugpointnews.com` overrides. Also here: host-to-type-name
  derivation, title, author and date extraction, and URL resolution.
- **`Article`** (`article.dfy`). Covers path- and branch-safe titles, the
  star rating, the `Filename` and `Branch` formats, and the per-day counter
  with its text serialisation. The `Articles.CounterStore` class holds the
  static dictionary.
- **`CollectorService`**:
  - `Generate` (`generate.dfy`): template substitution and the reference list.
  - `Collect` (`collect.dfy`): duplicate check, plan, effects, counter
    update and URL record, as a step function and as the
    `Collecting.Collector` class.
  - `Feed` (`feed.dfy`): validation, date window, filtering, stable sort
    and grouping by day.
  - `CleanSummary` and `RemoveTag` (`summary.dfy`).
- **Supporting modules**. `strings.dfy` models the .NET string operations
  the code relies on (`Trim`, `IndexOf`, `Replace`, `Split`, `int.Parse`
  and others). `dates.dfy` holds calendar dates with the `yyyyMMdd` and
  `yyyy-MM-dd` formats. `html.dfy` holds the HTML node tree and the
  image-token regular expression.

Some operations the code calls are not modelled and enter as function
parameters:

- `HttpUtility.HtmlDecode` (`decode`);
- `UriBuilder` removal of the `ref` query parameter (`stripRef`);
- `DateTimeOffset.Parse` (`parseDate`);
- the regex class `\W` (`isWord`);
- XPath selection (`select`);
- the GitHub pull request call (`prOf`).

The current time is a parameter (`today`). A `StringBuilder` is an
`Option<string>`: `None` is a null builder. Exceptions are `Result`
failures.

## Model

| member | source | states |
|---|---|---|
| Sites.TopLevelHeading | LCTT.Server/Services/Parsers/LCTTParser.cs:8 | LCTT-derived parsers use `##` as the top heading mark and COSSIG-derived parsers use `#`, each exactly for its own variants |
| Sites.Capitalize | LCTT.Server/Services/Parsers/Parser.cs:64-69 | a host label keeps its length and its tail; only its first character is upper-cased |
| Sites.TypeName | LCTT.Server/Services/Parsers/Parser.cs:62-70 | a type name is derived exactly when every dot-separated label of the host is non-empty |
| Sites.TypeNameOfLabels | LCTT.Server/Services/Parsers/Parser.cs:62-70 | joining the labels with dots and deriving the name gives the concatenation of the capitalised labels |
| Sites.ThreeLabels | LCTT.Server/Services/Parsers/Parser.cs:62-70 | a three-label host `x.y.z` names the type `Capitalize(x)+Capitalize(y)+Capitalize(z)` |
| Sites.DecideVariant | LCTT.Server/Services/Parsers/Parser.cs:70-73 | each override is chosen if and only if its class name is the derived name; any other name falls back to the LCTT parser |
| Sites.VariantForHost | LCTT.Server/Services/Parsers/Parser.cs:60-74 | a host yields a parser exactly when its type name can be derived |
| Sites.NewsItsfossHostReachesOverride | LCTT.Server/Services/Parsers/NewsItsfossCom.cs:6 | `news.itsfoss.com` selects the `NewsItsfossCom` override |
| Sites.CentosHostReachesOverride | LCTT.Server/Services/Parsers/BlogCentosOrg.cs:6 | `blog.centos.org` selects the `BlogCentosOrg` override |
| Sites.DebugpointHostReachesOverride | LCTT.Server/Services/Parsers/DebugpointnewsCom.cs:7 | `debugpointnews.com` selects the `DebugpointnewsCom` override |
| Sites.ResolveUrl | LCTT.Server/Services/Parsers/Parser.cs:408 | a link starting with `http` is kept as is; any other link is prefixed by the base URL |
| Sites.ResolveUrlKeepsLink | LCTT.Server/Services/Parsers/Parser.cs:408 | a resolved link always ends with the original link, and a relative one starts with the base URL |
| Sites.ParseTitle | LCTT.Server/Services/Parsers/Parser.cs:119-125 | the title is the decoded, trimmed inner text of the selected node, and parsing fails exactly when the title selector matches nothing |
| Sites.DefaultAuthor | LCTT.Server/Services/Parsers/Parser.cs:149-168 | without an author rule or match the author is empty; otherwise the name is the trimmed inner text and the URL is the node's `href` when it starts with `http`, else the base URL followed by the `href` (so it always ends with the `href`) |
| Sites.CentosAuthor | LCTT.Server/Services/Parsers/BlogCentosOrg.cs:8-17 | the configured author splits at its last space: it succeeds exactly when a space exists, name + " " + URL gives back the configured text, and the URL has no space |
| Sites.ParseAuthor | LCTT.Server/Services/Parsers/DebugpointnewsCom.cs:9-13 | the CentOS override uses the configured author, the Debugpoint override a fixed author, and every other parser the selected node |
| Sites.ParseDate | LCTT.Server/Services/Parsers/Parser.cs:170-185 | without a date rule or match the date is the current time, and only a matched date whose text does not parse fails |
| Render.Emit | LCTT.Server/Services/Parsers/Parser.cs:433-441 | text goes to the builder when there is one, otherwise it becomes a new paragraph; links and counters are untouched |
| Render.Candidate | LCTT.Server/Services/Parsers/Parser.cs:390-394 | a `srcset` entry is a candidate exactly when, trimmed, it is non-empty and splits at spaces into two parts, and URL + " " + width gives back the trimmed entry |
| Render.Widths | LCTT.Server/Services/Parsers/Parser.cs:395 | each candidate's width is the `int.Parse` of its descriptor without `w`; the list is missing exactly when some descriptor does not parse |
| Render.WidestIndex | LCTT.Server/Services/Parsers/Parser.cs:395-397 | the chosen width is the maximum, and it is the first occurrence of that maximum |
| Render.SrcsetUrl | LCTT.Server/Services/Parsers/Parser.cs:388-398 | a `srcset` without candidates gives the empty URL, and a failure happens exactly when some candidate's width does not parse |
| Render.ImageSource | LCTT.Server/Services/Parsers/Parser.cs:381-404 | finding the image address fails exactly when a non-empty `srcset` has an unparsable width |
| Render.RenderNode | LCTT.Server/Services/Parsers/Parser.cs:212-337 | every handler only appends paragraphs and links, keeps `urlIndex` equal to the number of links, and leaves the item counter as an unordered context expects |
| Render.Inner | LCTT.Server/Services/Parsers/Parser.cs:681-686 | walking the children into a fresh builder only grows the parser state |
| Render.ChildrenUpTo | LCTT.Server/Services/Parsers/Parser.cs:681-686 | walking any prefix of the children preserves the same growth invariant |
| Render.LinkTo | LCTT.Server/Services/Parsers/Parser.cs:451-478 | rendering a link text only appends and never touches the item counter |
| Render.YouTubeIframe | LCTT.Server/Services/Parsers/Parser.cs:667-675 | corrected video handler: only appends output |
| Render.YouTubeIframeAsWritten | LCTT.Server/Services/Parsers/Parser.cs:667-675 | the video handler as written (label `urlIndex++`): only appends output |
| Render.EmbedIframe | LCTT.Server/Services/Parsers/NewsItsfossCom.cs:21-36 | the embed handler only appends output |
| Render.SummaryStage | LCTT.Server/Services/Parsers/Parser.cs:127-136 | the summary stage only appends, with no builder |
| Render.CoverStage | LCTT.Server/Services/Parsers/Parser.cs:138-147 | the cover stage only appends, with no builder |
| Render.ContentStage | LCTT.Server/Services/Parsers/Parser.cs:187-196 | the content stage only appends, with no builder |
| Render.RenderPage | LCTT.Server/Services/Parsers/Parser.cs:95-117 | a page walk leaves the item counter as it found it or at 0 |
| Render.Children | LCTT.Server/Services/Parsers/Parser.cs:681-686 | walking the children in order only appends paragraphs and links, keeps `urlIndex` in step with the link count, and keeps the item counter or resets it to 0 (`ol`) when the list context is unordered |
| Render.TextNode | LCTT.Server/Services/Parsers/Parser.cs:433-441 | the text handler only appends output: `texts` and `urls` grow, `urlIndex` stays in step, the buffer only grows |
| Render.Heading | LCTT.Server/Services/Parsers/Parser.cs:339-379 | the heading handler only appends output |
| Render.HeadingLine | LCTT.Server/Services/Parsers/Parser.cs:339-379 | a heading line has the length of the top mark, one `#` per level and the text with its space, and ends with a space and the text |
| Render.Img | LCTT.Server/Services/Parsers/Parser.cs:381-422 | the image handler only appends output and never touches the item counter, in either list context |
| Render.Anchor | LCTT.Server/Services/Parsers/Parser.cs:443-495 | the link handler only appends paragraphs and links, keeps `urlIndex` in step with the link count, and keeps the item counter or resets it to 0 (`ol`) when the list context is unordered |
| Render.Code | LCTT.Server/Services/Parsers/Parser.cs:497-505 | the code handler only appends output |
| Render.BlockQuote | LCTT.Server/Services/Parsers/Parser.cs:507-521 | the quote handler only appends paragraphs and links, keeps `urlIndex` in step with the link count, and keeps the item counter or resets it to 0 (`ol`) when the list context is unordered |
| Render.QuoteText | LCTT.Server/Services/Parsers/Parser.cs:507-521 | a rendered quote starts with `> ` and is never blank |
| Render.Span | LCTT.Server/Services/Parsers/Parser.cs:523-531 | the span handler only appends output |
| Render.Paragraph | LCTT.Server/Services/Parsers/Parser.cs:533-545 | the paragraph handler only appends paragraphs and links, keeps `urlIndex` in step with the link count, and keeps the item counter or resets it to 0 (`ol`) when the list context is unordered |
| Render.Bold | LCTT.Server/Services/Parsers/Parser.cs:547-565 | the bold handler only appends paragraphs and links, keeps `urlIndex` in step with the link count, and keeps the item counter or resets it to 0 (`ol`) when the list context is unordered |
| Render.BoldText | LCTT.Server/Services/Parsers/Parser.cs:547-565 | trimmed, the bold text is the trimmed inner text between `**` marks |
| Render.Italic | LCTT.Server/Services/Parsers/Parser.cs:567-585 | the italic handler only appends paragraphs and links, keeps `urlIndex` in step with the link count, and keeps the item counter or resets it to 0 (`ol`) when the list context is unordered |
| Render.ItalicText | LCTT.Server/Services/Parsers/Parser.cs:567-585 | trimmed, the italic text is the trimmed inner text between `_` marks |
| Render.TrimPadded | LCTT.Server/Services/Parsers/Parser.cs:547-585 | the boundary spaces emphasis adds around a non-blank text vanish again under `Trim` |
| Render.Unordered | LCTT.Server/Services/Parsers/Parser.cs:587-597 | the `ul` handler only appends paragraphs and links, keeps `urlIndex` in step with the link count, and keeps the item counter or resets it to 0 (`ol`) when the list context is unordered |
| Render.Ordered | LCTT.Server/Services/Parsers/Parser.cs:599-609 | the `ol` handler only appends paragraphs and links, keeps `urlIndex` in step with the link count, and keeps the item counter or resets it to 0 (`ol`) when the list context is unordered |
| Render.ListItem | LCTT.Server/Services/Parsers/Parser.cs:611-621 | the `li` handler only appends paragraphs and links, keeps `urlIndex` in step with the link count, and keeps the item counter or resets it to 0 (`ol`) when the list context is unordered |
| Render.Div | LCTT.Server/Services/Parsers/NewsItsfossCom.cs:8-19 | the `news.itsfoss.com` `div` handler only appends paragraphs and links, keeps `urlIndex` in step with the link count, and keeps the item counter or resets it to 0 (`ol`) when the list context is unordered |
| Render.Table | LCTT.Server/Services/Parsers/Parser.cs:628-635 | the table handler only appends paragraphs and links, keeps `urlIndex` in step with the link count, and keeps the item counter or resets it to 0 (`ol`) when the list context is unordered |
| Render.Tr | LCTT.Server/Services/Parsers/Parser.cs:637-650 | the row handler only appends paragraphs and links, keeps `urlIndex` in step with the link count, and keeps the item counter or resets it to 0 (`ol`) when the list context is unordered |
| Render.Td | LCTT.Server/Services/Parsers/Parser.cs:652-665 | the cell handler only appends paragraphs and links, keeps `urlIndex` in step with the link count, and keeps the item counter or resets it to 0 (`ol`) when the list context is unordered |
| Render.Iframe | LCTT.Server/Services/Parsers/Parser.cs:667-675 | the frame handler, the embed override or else the base handler as written (label `urlIndex++`), only appends output |
| Render.EmbedId | LCTT.Server/Services/Parsers/NewsItsfossCom.cs:25 | the video id holds no `?`: the query part is cut off |
| Render.EmbedUrl | LCTT.Server/Services/Parsers/NewsItsfossCom.cs:25-27 | the registered URL ends with the id, and is the bare id exactly when the id is found at the start of `src` |
| RenderFacts.PageKeepsNumbering | LCTT.Server/Services/Parsers/Parser.cs:95-117 | after a whole page, `urlIndex` equals the number of links, earlier paragraphs and links are prefixes of the result, and the item counter is back at 0 |
| RenderFacts.PageOrder | LCTT.Server/Services/Parsers/Parser.cs:103-109 | the page is summary, then cover, then content, each stage extending the previous one's paragraphs and links |
| RenderFacts.CoverAddsOneImage | LCTT.Server/Services/Parsers/Parser.cs:138-147 | the cover adds at most one link and at most one paragraph |
| RenderFacts.HeadingRendering | LCTT.Server/Services/Parsers/Parser.cs:339-379 | `h1`–`h6` append one heading line of the trimmed inner text, and nothing when the text is blank |
| RenderFacts.HeadingLevel | LCTT.Server/Services/Parsers/Parser.cs:339-379 | a level-n heading line starts with the site's top mark plus n-1 more `#` |
| RenderFacts.SrcsetPicksWidest | LCTT.Server/Services/Parsers/Parser.cs:390-397 | the picked URL belongs to a candidate of maximal width, the first such candidate |
| RenderFacts.FirstNonEmpty | LCTT.Server/Services/Parsers/Parser.cs:383-404 | the result is empty exactly when all entries are, and otherwise is the first non-empty entry |
| RenderFacts.ImageSourcePrecedence | LCTT.Server/Services/Parsers/Parser.cs:383-404 | the `srcset` is the first non-empty of `data-lazy-srcset`, `data-srcset` and `srcset`; the address is the first non-empty of the `srcset` pick, `data-orig-file`, `data-src` and `src` |
| RenderFacts.ImageRendering | LCTT.Server/Services/Parsers/Parser.cs:406-421 | an image with a non-data address registers exactly one resolved link and emits the image token numbered by that link; any other image emits nothing |
| RenderFacts.ImageTokenRecognised | LCTT.Server/Services/Parsers/Parser.cs:451 | every image token the parser emits is recognised by the image-token pattern used for links |
| RenderFacts.LinkRendering | LCTT.Server/Services/Parsers/Parser.cs:451-478 | empty titles emit nothing and image titles pass through; a known URL reuses its number, and a new one registers its `ref`-stripped form under the next number |
| RenderFacts.StrippedLinkListedTwice | LCTT.Server/Services/Parsers/Parser.cs:459-471 | the membership test uses the unstripped URL, so a stripped URL already listed is added a second time |
| RenderFacts.BoldBoundarySpaces | LCTT.Server/Services/Parsers/Parser.cs:547-565 | bold text starts or ends with a space exactly when the raw text does |
| RenderFacts.ItalicTrailingSpaceFollowsLeading | LCTT.Server/Services/Parsers/Parser.cs:567-585 | italic text ends with a space exactly when the raw text starts with one, because the code tests `StartsWith` twice |
| RenderFacts.ItalicLosesTrailingSpace | LCTT.Server/Services/Parsers/Parser.cs:567-585 | in italic, `word ` becomes `_word_`: the trailing space is lost |
| RenderFacts.ItalicDoublesLeadingSpace | LCTT.Server/Services/Parsers/Parser.cs:567-585 | in italic, ` word` becomes ` _word_ `: the leading space is added on both sides |
| RenderFacts.BoldKeepsTrailingSpace | LCTT.Server/Services/Parsers/Parser.cs:547-565 | in bold, `word ` becomes `**word** ` |
| RenderFacts.QuoteMarksEveryLine | LCTT.Server/Services/Parsers/Parser.cs:507-521 | a rendered quote starts with `> ` and every line after a newline does too |
| RenderFacts.OrderedListStaysUnordered | LCTT.Server/Services/Parsers/Parser.cs:293-296 | the dispatcher resets the item counter and passes the caller's `ordered` flag unchanged to an `ol` |
| RenderFacts.ListItemUnordered | LCTT.Server/Services/Parsers/Parser.cs:611-621 | an unordered item appends `- text` and a newline to the builder, and appends nothing when the text is blank |
| RenderFacts.ListItemOrdered | LCTT.Server/Services/Parsers/Parser.cs:611-621 | an ordered item appends `n. text` with n one past the counter, then advances the counter |
| RenderFacts.ListsAndTablesAreBlocks | LCTT.Server/Services/Parsers/Parser.cs:587-635 | `ul`, `ol` and `table` render their children into a fresh builder and append the trimmed result as one paragraph when it is not blank |
| RenderFacts.YouTubeLabelNamesItsUrl | LCTT.Server/Services/Parsers/Parser.cs:667-675 | corrected: a YouTube frame registers its `src`, and its label is the number of that link |
| RenderFacts.YouTubeLabelAsWrittenIsOneBehind | LCTT.Server/Services/Parsers/Parser.cs:673 | as written, the label is one less than the number of the link just registered |
| RenderFacts.LabelDetermined | LCTT.Server/Services/Parsers/Parser.cs:673 | an image token fixes its number |
| RenderFacts.NonEmbedFrameIgnored | LCTT.Server/Services/Parsers/NewsItsfossCom.cs:23-24 | a frame whose `src` is not a YouTube embed emits nothing |
| RenderFacts.EmbedRegistersShortForm | LCTT.Server/Services/Parsers/NewsItsfossCom.cs:23-34 | an embed whose `src` does not start with its own id registers `https://youtu.be/<id>`, with the id cut at `?`, and labels it with its title or "YouTube Video" and the new link's number |
| RenderFacts.EmbedKeepsIdAtStart | LCTT.Server/Services/Parsers/NewsItsfossCom.cs:23-34 | when `src` does start with the id (`IndexOf(url) == 0`), the bare id is registered, without the short-link prefix |
| RenderFacts.EmbedIdOf | LCTT.Server/Services/Parsers/NewsItsfossCom.cs:25 | the id is what follows the embed prefix, up to the first `?` |
| RenderFacts.CalloutDiv | LCTT.Server/Services/Parsers/NewsItsfossCom.cs:8-19 | on `news.itsfoss.com`, callout cards render as quotes and callout emoji as trimmed text plus a space, which throws without a builder; every other `div` walks its children |
| Parsing.SelectionOf | LCTT.Server/Services/Parsers/Parser.cs:127-196 | an empty rule selects nothing; the content selection is the selector's match |
| Parsing.ParsedArticle | LCTT.Server/Services/Parsers/Parser.cs:95-117 | a parsed article carries the URL, the default difficulty and category, and the title, author and date the field parsers give; a field fault is reported only after the walk succeeded |
| Parsing.ParsedArticleNumbering | LCTT.Server/Services/Parsers/Parser.cs:95-117 | a parsed article carries exactly the page's paragraphs and links, `urlIndex` equals the number of links, and difficulty and category take their defaults |
| Parsing.ImgRegisters | LCTT.Server/Services/Parsers/Parser.cs:406-421 | an image with a usable address appends its resolved URL and emits a token numbered by the new `urlIndex` |
| Parsing.LinkToRegisters | LCTT.Server/Services/Parsers/Parser.cs:466-471 | a new link appends its stripped URL and emits a link token numbered by the new `urlIndex` |
| Parsing.Parser.constructor | LCTT.Server/Services/Parsers/Parser.cs:29-36 | a new parser starts with no paragraphs, no links and both counters at 0 |
| Parsing.Parser.Append | LCTT.Server/Services/Parsers/Parser.cs:433-441 | appending text adds one paragraph (or grows the buffer) exactly as `Emit` specifies |
| Parsing.Parser.Initialize | LCTT.Server/Services/Parsers/Parser.cs:29-36 | stores the URL, host and base URL and resets both counters |
| Parsing.Parser.ParseDocument | LCTT.Server/Services/Parsers/Parser.cs:95-117 | the class-based parse yields exactly the specified article; its fields end as the rendered page, and after `Initialize` hold the article's lists with `urlIndex` equal to the number of URLs and `itemIndex` 0 |
| Parsing.Parser.ParseNode | LCTT.Server/Services/Parsers/Parser.cs:212-337 | the dispatcher method leaves the builder and fields as `RenderNode` specifies, or reports its fault |
| Parsing.Parser.TraverseChildren | LCTT.Server/Services/Parsers/Parser.cs:681-686 | the loop over the children leaves the state `Children` specifies and stops at the first fault |
| Parsing.Parser.ChildStep | LCTT.Server/Services/Parsers/Parser.cs:681-686 | one more child is one more `RenderNode` step |
| Parsing.Parser.FailureSticks | LCTT.Server/Services/Parsers/Parser.cs:681-686 | once a child throws, later children change nothing |
| Parsing.Parser.InnerText | LCTT.Server/Services/Parsers/Parser.cs:681-686 | a fresh-builder walk returns the text and state `Inner` specifies |
| Parsing.Parser.ParseText | LCTT.Server/Services/Parsers/Parser.cs:433-441 | the text handler matches `TextNode` |
| Parsing.Parser.ParseHeading | LCTT.Server/Services/Parsers/Parser.cs:339-379 | the heading handlers match `Heading` |
| Parsing.Parser.ParseImg | LCTT.Server/Services/Parsers/Parser.cs:381-422 | the image handler matches `Img` |
| Parsing.Parser.ParseAnchor | LCTT.Server/Services/Parsers/Parser.cs:443-495 | the anchor handler matches `Anchor` |
| Parsing.Parser.LinkText | LCTT.Server/Services/Parsers/Parser.cs:451-478 | the link-text step matches `LinkTo` |
| Parsing.Parser.ParseCode | LCTT.Server/Services/Parsers/Parser.cs:497-505 | the code handler matches `Code` |
| Parsing.Parser.ParseBlockQuote | LCTT.Server/Services/Parsers/Parser.cs:507-521 | the quote handler matches `BlockQuote` |
| Parsing.Parser.ParseSpan | LCTT.Server/Services/Parsers/Parser.cs:523-531 | the span handler matches `Span` |
| Parsing.Parser.ParseParagraph | LCTT.Server/Services/Parsers/Parser.cs:533-545 | the paragraph handler matches `Paragraph` |
| Parsing.Parser.ParseBold | LCTT.Server/Services/Parsers/Parser.cs:547-565 | the bold handler matches `Bold` |
| Parsing.Parser.BoldFormat | LCTT.Server/Services/Parsers/Parser.cs:553-558 | the step-by-step padding equals `BoldText` |
| Parsing.Parser.ItalicFormat | LCTT.Server/Services/Parsers/Parser.cs:573-578 | the step-by-step padding equals `ItalicText` |
| Parsing.Parser.ParseItalic | LCTT.Server/Services/Parsers/Parser.cs:567-585 | the italic handler matches `Italic` |
| Parsing.Parser.ParseUnordered | LCTT.Server/Services/Parsers/Parser.cs:587-597 | the `ul` handler matches `Unordered` |
| Parsing.Parser.ParseOrdered | LCTT.Server/Services/Parsers/Parser.cs:599-609 | the `ol` handler matches `Ordered` |
| Parsing.Parser.ParseListItem | LCTT.Server/Services/Parsers/Parser.cs:611-621 | the `li` handler matches `ListItem` |
| Parsing.Parser.ParseDiv | LCTT.Server/Services/Parsers/NewsItsfossCom.cs:8-19 | the `div` handler, with the callout override, matches `Div` |
| Parsing.Parser.ParseTable | LCTT.Server/Services/Parsers/Parser.cs:628-635 | the table handler matches `Table` |
| Parsing.Parser.ParseTr | LCTT.Server/Services/Parsers/Parser.cs:637-650 | the row handler matches `Tr` |
| Parsing.Parser.ParseTd | LCTT.Server/Services/Parsers/Parser.cs:652-665 | the cell handler matches `Td` |
| Parsing.Parser.ParseIframe | LCTT.Server/Services/Parsers/NewsItsfossCom.cs:21-36 | the frame handler, with the embed override, matches `Iframe` |
| Parsing.Registry.GetParser | LCTT.Server/Services/Parsers/Parser.cs:76-93 | a cached parser is reused; otherwise a new parser of the derived variant is cached; either way it is initialised with the URL and zero counters |
| Articles.PathSafeTitle | LCTT.Server/Models/Article.cs:8 | the result has no path-unsafe character, is a subsequence of the title and keeps every safe character's count |
| Articles.PathSafeKeepsSafeTitle | LCTT.Server/Models/Article.cs:8 | a title with no unsafe character is unchanged (idempotence) |
| Articles.BranchSafeTitle | LCTT.Server/Models/Article.cs:9 | same length as the path-safe title; word characters are kept and every other character becomes `-` |
| Articles.Twinkle | LCTT.Server/Models/Article.cs:15-21 | two stars exactly for `medium`, three exactly for `hard`, one otherwise |
| Articles.FormattedDate | LCTT.Server/Models/Article.cs:13 | eight digits |
| Articles.NumberOfEntry | LCTT.Server/Models/Article.cs:24 | an absent date numbers 0; with distinct keys the number is the entry's value |
| Articles.Filename | LCTT.Server/Models/Article.cs:25 | the file name starts with the date and a dot and ends with the path-safe title and `.md` |
| Articles.FileSuffix | LCTT.Server/Models/Article.cs:25 | the part after the number starts with a space, the difficulty's stars and a space, and ends with the path-safe title and `.md` |
| Articles.FilenameParts | LCTT.Server/Models/Article.cs:25 | the file name is the date, a dot, the counter's number, a space, the stars, a space and the path-safe title with `.md` |
| Articles.FilenameShowsRating | LCTT.Server/Models/Article.cs:25 | two difficulties with different star ratings give different file names |
| Articles.Branch | LCTT.Server/Models/Article.cs:26 | the branch name starts with the date and `-`, and holds only digits, `-` and word characters |
| Articles.BranchDistinguishesNumbers | LCTT.Server/Models/Article.cs:26 | two counter values for the article's date give different branch names |
| Articles.FilenameDistinguishesNumbers | LCTT.Server/Models/Article.cs:25 | two counter values for the article's date give different file names |
| Articles.Lookup | LCTT.Server/Models/Article.cs:24 | a key is found exactly when present, and with distinct keys the value found is the stored value |
| Articles.Increase | LCTT.Server/Models/Article.cs:34-39 | a missing date is appended with 1, and a present one is incremented with 32-bit wrap-around; every other key is unchanged and keys stay distinct |
| Articles.SetValue | LCTT.Server/Models/Article.cs:34-39 | setting a value keeps every key and its position and changes only the matching entry |
| Articles.IncreaseAdvancesNumber | LCTT.Server/Models/Article.cs:24 | after an increase the date's `Number` is one more (wrapped) and every other date's number is unchanged |
| Articles.DeserializeCounter | LCTT.Server/Models/Article.cs:30 | a parsed counter has at least one line, distinct keys without `=` or newline, and 32-bit values |
| Articles.SerializeCounter | LCTT.Server/Models/Article.cs:30-32 | the text is empty exactly when the counter is |
| Articles.ParseLine | LCTT.Server/Models/Article.cs:30 | a parsed line yields a 32-bit count and a key without separators (unless the line held a newline) |
| Articles.ToCounter | LCTT.Server/Models/Article.cs:30 | parsed lines give a counter with distinct keys, one entry per line, well-formed when no line holds a newline |
| Articles.SerializeRoundTrip | LCTT.Server/Models/Article.cs:30-32 | deserialising the serialisation of any well-formed, non-empty counter gives it back |
| Articles.EmptyCounterDoesNotRoundTrip | LCTT.Server/Models/Article.cs:30-32 | the empty counter serialises to "" and "" does not deserialise |
| Articles.PersistAfterIncrease | LCTT.Server/Models/Article.cs:30-39 | a loaded counter, after an increase, persists and reloads unchanged |
| Articles.CounterStore.Deserialize | LCTT.Server/Models/Article.cs:30 | the static counter is replaced when the text parses and left unchanged otherwise |
| Articles.CounterStore.Serialize | LCTT.Server/Models/Article.cs:30-32 | the stored text is empty exactly when the dictionary is |
| Articles.CounterStore.IncreaseCounter | LCTT.Server/Models/Article.cs:34-39 | the static counter becomes `Increase` of the old one and stays well-formed |
| Generating.UrlLineInjective | LCTT.Server/Services/CollectorService.cs:28 | a reference line `[i]: url` determines both its number and its URL |
| Generating.UrlLineLabelled | LCTT.Server/Services/CollectorService.cs:27-28 | the m-th reference line is numbered m+1 and carries the m-th URL |
| Generating.UrlListSplits | LCTT.Server/Services/CollectorService.cs:36 | the reference list splits at newlines back into its lines when no URL holds a newline |
| Generating.UrlLine | LCTT.Server/Services/CollectorService.cs:28 | a reference line is `[N]: ` and the URL, of exactly that length |
| Generating.UrlLines | LCTT.Server/Services/CollectorService.cs:27-28 | one reference line per URL |
| Generating.UrlList | LCTT.Server/Services/CollectorService.cs:27-28 | the reference list is empty exactly when there are no URLs |
| Generating.Slots | LCTT.Server/Services/CollectorService.cs:31-36 | the six placeholders, in replacement order, paired with the article's fields |
| Generating.SlotsUnambiguous | LCTT.Server/Services/CollectorService.cs:31-36 | no placeholder is a prefix of another |
| Generating.SubstituteOne | LCTT.Server/Services/CollectorService.cs:31-36 | a template with a single placeholder between brace-free text gets exactly that placeholder's value |
| Generating.Substitute | LCTT.Server/Services/CollectorService.cs:31-36 | a text without braces comes through the replacement chain unchanged |
| Generating.Fill | LCTT.Server/Services/CollectorService.cs:31-36 | a template without braces is filled to itself |
| Generating.FillMany | LCTT.Server/Services/CollectorService.cs:31-36 | a template with any number of placeholders, in any order and repeated, between brace-free text, gets each replaced by its field value |
| Generating.SubstituteStages | LCTT.Server/Services/CollectorService.cs:31-36 | each replacement in the chain turns its own placeholder into the value and leaves the others for later |
| Generating.ReplaceAssembled | LCTT.Server/Services/CollectorService.cs:31-36 | replacing one placeholder in brace-free text with placeholders between swaps exactly its occurrences |
| Generating.GenerateOneSlot | LCTT.Server/Services/CollectorService.cs:25-39 | `Generate` on such a template is the decoded text with the field in place |
| Generating.Generate | LCTT.Server/Services/CollectorService.cs:25-39 | a template without braces is only decoded |
| Generating.TitleIsNotEscaped | LCTT.Server/Services/CollectorService.cs:31-32 | a title that is itself a later placeholder is replaced again, because the substitutions are chained |
| Collecting.Requested | LCTT.Server/Services/CollectorService.cs:46-48 | the request's difficulty and category overwrite the parsed article's; the title and date are kept |
| Collecting.PlanFor | LCTT.Server/Services/CollectorService.cs:50-56 | the branch is `date-n-title` and the file `date.n …` with n the loaded counter's number, and supplied content beats the generated one |
| Collecting.CollectStep | LCTT.Server/Services/CollectorService.cs:41-63 | a call never forgets a URL or a recorded call; on success the URL counts as collected and six calls were made; otherwise the table and counter file are unchanged |
| Collecting.Accept | LCTT.Server/Services/CollectorService.cs:52-62 | after acceptance the URL, trailing `/` trimmed, is collected, five calls are added, and the counter file is the serialised counter, empty exactly when the counter is |
| Collecting.DuplicateRefusedFirst | LCTT.Server/Services/CollectorService.cs:43-44 | an already recorded URL is refused before anything happens |
| Collecting.FailureTouchesNoStore | LCTT.Server/Services/CollectorService.cs:41-63 | a refused or failed collection leaves the URL store, counter and counter file unchanged |
| Collecting.AcceptEffects | LCTT.Server/Services/CollectorService.cs:52-62 | a success creates the branch, the file and the pull request, persists the counter and records the URL, in that order, and returns the pull request URL |
| Collecting.SuccessEffects | LCTT.Server/Services/CollectorService.cs:41-63 | a new URL with a loadable counter proceeds to fetching and the planned acceptance |
| Collecting.SuccessCounter | LCTT.Server/Services/CollectorService.cs:58 | the article date's number goes up by one, modulo 2^32 |
| Collecting.SuccessFirstOfDay | LCTT.Server/Services/CollectorService.cs:58 | the first article of a day was numbered 0 and its day then counts 1 |
| Collecting.SuccessKeepsOtherDates | LCTT.Server/Services/CollectorService.cs:58 | no other date's number changes |
| Collecting.SuccessIncreases | LCTT.Server/Services/CollectorService.cs:58 | the new counter is `Increase` of the loaded one at the article's date |
| Collecting.SuccessPersists | LCTT.Server/Services/CollectorService.cs:58-59 | after a success the persisted counter file reloads to the in-memory counter |
| Collecting.TrimEndCharIdempotent | LCTT.Server/Services/SQLiteService.cs:26 | trailing-slash trimming is idempotent and ignores one added slash |
| Collecting.SecondCallRefused | LCTT.Server/Services/CollectorService.cs:43-44 | after a success, collecting the same URL again, with or without a trailing slash, is refused and changes nothing |
| Collecting.Collector.Collect | LCTT.Server/Services/CollectorService.cs:41-63 | the class-based collection returns and stores what `CollectStep` specifies |
| Collecting.Collector.Publish | LCTT.Server/Services/CollectorService.cs:52-62 | the publishing half returns and stores what `Accept` specifies |
| Feeds.LoadedItems | LCTT.Server/Services/CollectorService.cs:103-120 | item i is entry i with its cleaned summary, and loading stops early only at an entry whose summary throws |
| Feeds.Loaded | LCTT.Server/Services/CollectorService.cs:103-120 | there are at most as many items as entries, and the items stop short of the entries only at an entry whose summary cannot be cleaned |
| Feeds.StallsAtStop | LCTT.Server/Services/CollectorService.cs:103-120 | loading a feed never ends exactly when the entry it stops at has a summary whose clean-up never ends |
| Feeds.LoadFeeds | LCTT.Server/Services/CollectorService.cs:103-120 | the loop appends the loaded items to the shared list, and reports whether a summary made it hang |
| Feeds.LoadedAll | LCTT.Server/Services/CollectorService.cs:80-87 | the items of all feeds are at most as many as their entries |
| Feeds.Keep | LCTT.Server/Services/CollectorService.cs:89-90 | every kept item meets the filter |
| Feeds.KeepCount | LCTT.Server/Services/CollectorService.cs:89-90 | an item is kept as often as it occurs exactly when it meets the filter |
| Feeds.SortByDate | LCTT.Server/Services/CollectorService.cs:91 | sorting is a permutation |
| Feeds.Insert | LCTT.Server/Services/CollectorService.cs:91 | inserting adds exactly the one item |
| Feeds.SortSorted | LCTT.Server/Services/CollectorService.cs:91 | the result is ordered by publication time |
| Feeds.SortStable | LCTT.Server/Services/CollectorService.cs:91 | items with the same time keep their relative order (`OrderBy` is stable) |
| Feeds.GroupKeys | LCTT.Server/Services/CollectorService.cs:96-98 | the group keys are distinct, and every item's day has a group |
| Feeds.GroupContents | LCTT.Server/Services/CollectorService.cs:96-98 | each group is non-empty and holds exactly that day's items, in order |
| Feeds.GroupByDay | LCTT.Server/Services/CollectorService.cs:96-98 | there are never more groups than items |
| Feeds.Selected | LCTT.Server/Services/CollectorService.cs:88-91 | the selected items are sorted by time, none is already collected, and none is added |
| Feeds.Feed | LCTT.Server/Services/CollectorService.cs:65-101 | once the items are loaded, `Feed` always answers: it rejects, throws or succeeds, and only loading can hang |
| Feeds.ValidationFirst | LCTT.Server/Services/CollectorService.cs:67-76 | a rejected request is rejected the same way whatever the feeds, store or grouping |
| Feeds.Rejections | LCTT.Server/Services/CollectorService.cs:69-76 | an illegal start date, then an illegal end date, then a start after the end, each with its message; the last if and only if the start is later |
| Feeds.DefaultEndIsToday | LCTT.Server/Services/CollectorService.cs:67 | a missing end date means today's date |
| Feeds.FlatResult | LCTT.Server/Services/CollectorService.cs:77-101 | the flat result is sorted and holds each valid, uncollected item from start-day midnight to midnight after the end day, inclusive, as often as it was loaded |
| Feeds.FlatStable | LCTT.Server/Services/CollectorService.cs:88-92 | equal-time items appear in loading order after the filters |
| Feeds.GroupedResult | LCTT.Server/Services/CollectorService.cs:94-100 | grouping returns the flat result grouped by `yyyy-MM-dd`, with distinct keys and each group that day's items |
| Feeds.ChecksPass | LCTT.Server/Services/CollectorService.cs:65-101 | whether `Feed` rejects or throws depends on the arguments and the clock, not on the items loaded |
| Feeds.FeedOfEntriesResult | LCTT.Server/Services/CollectorService.cs:65-101 | the feed hangs exactly when its checks pass and some feed stalls; otherwise it is `Feed` over all loaded items |
| Feeds.OneStallHangsFeed | LCTT.Server/Services/CollectorService.cs:80-87 | one feed whose first summary is `<b` makes the whole request hang once its checks pass |
| Dates.NextDay | LCTT.Server/Services/CollectorService.cs:77 | `AddDays(1)` gives a later valid day, and fails only on the last representable day |
| Dates.NextDayIsSuccessor | LCTT.Server/Services/CollectorService.cs:77 | a day is before the next day exactly when it is at or before the current one |
| Dates.FormatThenParse | LCTT.Server/Services/CollectorService.cs:67-72 | a date formatted as `yyyyMMdd` parses back to itself |
| Dates.ParseThenFormat | LCTT.Server/Services/CollectorService.cs:69-72 | a parsable `yyyyMMdd` text formats back to itself |
| Dates.FormatIsoInjective | LCTT.Server/Services/CollectorService.cs:97 | distinct days have distinct `yyyy-MM-dd` group keys |
| Dates.WindowByDay | LCTT.Server/Services/CollectorService.cs:77-89 | a time lies in the window exactly when its day is between start and end, or it is the midnight after the end |
| Summaries.Substring | LCTT.Server/Services/CollectorService.cs:128 | `Substring` succeeds exactly for in-range arguments and returns the text at that position |
| Summaries.Remove | LCTT.Server/Services/CollectorService.cs:146 | `Remove` succeeds exactly for in-range arguments and shortens by the count |
| Summaries.FirstParagraph | LCTT.Server/Services/CollectorService.cs:124-129 | a summary without `</p>` is kept whole |
| Summaries.FirstParagraphBetween | LCTT.Server/Services/CollectorService.cs:124-129 | with `<p>` before `</p>`, the text between them is kept |
| Summaries.ClosingBeforeOpeningThrows | LCTT.Server/Services/CollectorService.cs:126-128 | `</p>` before a later `<p>`, or with no `<p>` and fewer than two characters before it, makes `Substring` throw |
| Summaries.NoOpeningKeepsFromTwo | LCTT.Server/Services/CollectorService.cs:126-128 | with `</p>` and no `<p>`, the start index is 2, so the text before `</p>` is kept without its first two characters |
| Summaries.NoOpeningDropsTwo | LCTT.Server/Services/CollectorService.cs:126-128 | `Hello world</p>` becomes `llo world` |
| Summaries.FirstParagraphIntended | LCTT.Server/Services/CollectorService.cs:124-129 | corrected: with `</p>` and no `<p>`, the kept text is everything before the first `</p>`, which it does not contain |
| Summaries.IntendedAgrees | LCTT.Server/Services/CollectorService.cs:124-129 | the corrected step equals the written one unless `</p>` occurs without `<p>` |
| Summaries.CloseAfter | LCTT.Server/Services/CollectorService.cs:145 | the `>` searched for lies after the first open tag |
| Summaries.RemoveStepAsWritten | LCTT.Server/Services/CollectorService.cs:144-146 | as written, a step throws exactly when the tag is past the start and has no `>`; at the start it then returns the summary unchanged; with a `>` it shortens the summary |
| Summaries.RemoveStep | LCTT.Server/Services/CollectorService.cs:144-146 | corrected step: it fails exactly when no `>` follows the open tag, and otherwise strictly shortens the summary |
| Summaries.StepAgrees | LCTT.Server/Services/CollectorService.cs:144-146 | the step as written and the corrected step agree except when the tag is at 0 with no `>` after it |
| Summaries.AsWrittenStalls | LCTT.Server/Services/CollectorService.cs:144-146 | as written, a summary starting with the open tag and holding no `>` is left unchanged, so the loop never ends |
| Summaries.LoopTurn | LCTT.Server/Services/CollectorService.cs:142-147 | one turn of the loop as run: it never ends exactly when the first tag is at 0 without `>`, throws exactly when it is further on without `>`, and otherwise takes the written step, which shortens the summary |
| Summaries.StepCutsFirstTag | LCTT.Server/Services/CollectorService.cs:144-146 | a step removes the first open tag through its `>` and nothing else |
| Summaries.RemoveOpenTags | LCTT.Server/Services/CollectorService.cs:142-147 | when the loop finishes, no open tag remains |
| Summaries.LoopStep | LCTT.Server/Services/CollectorService.cs:142-147 | one loop iteration keeps the result the loop will reach |
| Summaries.LoopStepThrows | LCTT.Server/Services/CollectorService.cs:144-146 | an open tag past the start without a later `>` makes the loop throw |
| Summaries.LoopStepStalls | LCTT.Server/Services/CollectorService.cs:144-146 | an open tag at the start without a later `>` is left in place and the loop never ends |
| Summaries.RemoveTag | LCTT.Server/Services/CollectorService.cs:137-151 | the loop method returns what `RemoveTagSpec` specifies |
| Summaries.RemoveTagSpec | LCTT.Server/Services/CollectorService.cs:137-151 | removing a tag fails only when its open tag occurs, and never lengthens the summary |
| Summaries.StallAtStart | LCTT.Server/Services/CollectorService.cs:137-151 | a summary that starts with the open tag and holds no `>` makes `RemoveTag` never end |
| Summaries.RemoveTags | LCTT.Server/Services/CollectorService.cs:130-133 | removing the unwanted tags never lengthens the summary |
| Summaries.ClosingTagsKeptWithoutOpening | LCTT.Server/Services/CollectorService.cs:140-149 | without an open tag, closing tags are left in place |
| Summaries.LoneTagRemoved | LCTT.Server/Services/CollectorService.cs:137-151 | a single open tag and its attributes are removed along with nothing else |
| Summaries.OpenTagCanReappear | LCTT.Server/Services/CollectorService.cs:142-148 | deleting closing tags can create a new open tag: `<b><</b>b>` becomes `<b>` |
| Summaries.ClosingTagCanSurvive | LCTT.Server/Services/CollectorService.cs:140-148 | with the open tag present, deleting closing tags can create a new one: `<b></</b>b>>` becomes `</b>>` |
| Summaries.CleanSummary | LCTT.Server/Services/CollectorService.cs:122-135 | the loop over the unwanted tags returns what `CleanSummarySpec` specifies |
| Summaries.CleanedShape | LCTT.Server/Services/CollectorService.cs:134-135 | a cleaned summary has no line ending and neither starts nor ends with white space |
| Summaries.ExampleSummaryStalls | LCTT.Server/Services/CollectorService.cs:122-135 | cleaning the summary `<b` never ends |
| Strings.IndexOf | LCTT.Server/Services/CollectorService.cs:126-127 | -1 exactly when absent; otherwise the first occurrence |
| Strings.Split | LCTT.Server/Models/Article.cs:30 | at least one part, none holding the separator |
| Strings.SplitJoin | LCTT.Server/Models/Article.cs:30-32 | splitting the join of separator-free parts gives the parts back |
| Strings.ParseIntToString | LCTT.Server/Models/Article.cs:30-32 | `int.Parse` of a formatted 32-bit integer gives it back |
| Strings.IntToStringInjective | LCTT.Server/Models/Article.cs:25-26 | distinct integers format differently |
| Strings.Wrap32 | LCTT.Server/Models/Article.cs:38 | the result is a 32-bit integer congruent to the input modulo 2^32, and equal to it when the input already fits |
| Strings.Trim | LCTT.Server/Services/CollectorService.cs:135 | empty exactly for blank input; otherwise neither end is white space |
| Strings.RemoveLineEndings | LCTT.Server/Services/CollectorService.cs:135 | no line ending remains, and every other character is kept in order with its count |
| Strings.ReplaceAbsent | LCTT.Server/Services/CollectorService.cs:31-36 | replacing an absent pattern changes nothing |
| Strings.ReplaceOnce | LCTT.Server/Services/CollectorService.cs:31-36 | a pattern occurring once is replaced in place |
| Html.ImageTokenMatches | LCTT.Server/Services/Parsers/Parser.cs:451 | any `![alt][n]` with a one-line alt matches the image-token pattern |

## Left out

- HTML loading and XPath selection (`HtmlWeb`, `SelectSingleNode`, `ExcludeNodes`) are outside the model. A selector is a parameter `select: string -> Option<Node>`, and excluded nodes are assumed to be gone already.
- `HttpUtility.HtmlDecode` is the parameter `decode`. `UriBuilder` removal of the `ref` query parameter is `stripRef`, and may fail. `DateTimeOffset.Parse` is `parseDate`. The regex class `\W` is `isWord`. All are opaque functions.
- HTML comment nodes and other HtmlAgilityPack node kinds are not represented. A node is either text or an element.
- Reflection in `DecideParserType` is reduced to `DecideVariant` over the five parser classes the repository defines.
- File and YAML I/O (`LoadRules`, `LoadTemplate`, `LoadCounter`, `PersistCounter`) is reduced to values. The counter file is a string in the collector state, and the rule is a `Rule` value. The program keeps one counter file per parser class (`CounterPath`, Parser.cs:690-699): the LCTT-derived parsers use `Configs/Counters/Counter.conf` (LCTTParser.cs:7), while `COSSIGParser` and `BlogCentosOrg` inherit `Configs/Counters` (Parser.cs:26). The model keeps a single counter file.
- The GitHub calls (`CreateBranch`, `CreateFile`, `CreatePR`) are recorded as effects in order. The pull request URL is the parameter `prOf`. SQLite is a set of URLs with trailing `/` trimmed. `CreateBranch` first reads the master reference outside its `try` (GitHubService.cs:17). If that read fails, `Collect` throws after the counter is loaded and before any effect. `Collecting.Accept` does not model this failure and always proceeds.
- `Feed` fetches the sites' feeds in parallel into one shared list. The model concatenates them feed after feed (`Feeds.LoadedAll`), so it does not capture the interleaving between sites. The order does not matter to the result: the items are then filtered and stably sorted by time, and only the order of items published at the same moment depends on it. The shared `List<Feed>` (CollectorService.cs:81) is not synchronised, and `feeds.Add` (line 110) runs on several `Task.Run` threads (line 86). A race can lose an item, or leave a null entry that makes the `Where` at line 89 throw. The model assumes every add lands.
- `SyndicationFeed` and `XmlReader` parsing are outside the model, and so is converting publication dates to local time. An entry is given as title, URL, summary and time.
- `Clean`, the controllers, `Result`, the DTOs and `CollectorService.Parse` are outside the model. `Parse` only loads the page, rules and template and calls the parser.
- `Twinkle`: the star emoji is modelled as the two code points U+2B50 U+FE0F.
- `Strings.IndexOf`: .NET's `IndexOf(string)`, `StartsWith(string)` and `EndsWith(string)` are culture-sensitive. The model compares ordinally. The two agree on text with no ignorable or combining code points next to the markup. Otherwise they can differ: a soft hyphen U+00AD inside `<\u00ADp>` is skipped by the culture-sensitive search, and a combining accent after `<b` hides the match from `IndexOf("<b")` but not from `Contains("<b")`. The calls concerned are:
  - `IndexOf("<p>")`, `IndexOf("</p>")` and `IndexOf(openTag)` (CollectorService.cs:126-127, 144);
  - `StartsWith("http")` (Parser.cs:158, 408, 446) and `StartsWith("data:image")` (Parser.cs:406);
  - `EndsWith("\n> ")` (Parser.cs:513);
  - `StartsWith("https://www.youtube.com/embed/")` and `IndexOf(url)` (NewsItsfossCom.cs:24, 27).
- Articles.BranchSafeTitle: a Dafny `char` is a Unicode scalar value, while .NET's `Regex.Replace(title, @"\W", "-")` (Article.cs:9) works on UTF-16 code units, and a surrogate half is never a word character. So a character outside the Basic Multilingual Plane becomes one `-` in the model and two in the program: `🎉 News` gives `--News` here and `---News` there. The length in `|r| == |PathSafeTitle(title)|` is counted in scalar values, not code units.
- `Articles.Increase`: `counter[date]++` wraps at 32 bits, and the model writes this out with `Wrap32`.
- `Sites.ParseDate`: states when the current time is used and where failure can come from. It says nothing about the parsed value, which comes from the opaque `parseDate`.
- Summaries.RemoveTag: the source's never-ending loop (an open tag at index 0 with no `>` after it) cannot be written as a terminating function, so it is modelled as the outcome `Diverges`. `Feed` then never returns; `Feeds.FeedOfEntries` models this as `Hangs`.
- Sites.Capitalize: upper-cases ASCII letters only. .NET's `char.ToUpper` depends on the current culture; under tr-TR, `news.itsfoss.com` gives `NewsİtsfossCom`, and no parser type has that name (Parser.cs:66-67).
- Html.HasImageToken: the digit class of the image-token pattern is ASCII `0`-`9`. .NET's `\d` matches any Unicode decimal digit, so a title such as `![x][٣]` counts as a token there but not in the model (Parser.cs:451).
- `Summaries.RemoveOpenTags`: the source does not promise that no `<tag` remains after `RemoveTag`. Deleting closing tags afterwards can create a new one (`Summaries.OpenTagCanReappear`). So the model states this only for the loop, before closing tags are deleted. Nor does it promise that no `</tag>` remains. Without an open tag the closing tags are left as they are (`Summaries.ClosingTagsKeptWithoutOpening`). Even with one, deleting `</b>` can join a new closing tag: `<b></</b>b>>` becomes `</b>>` (`Summaries.ClosingTagCanSurvive`).

## Findings

| source | as written | input that shows it | evidently intended | confidence | as-written member | corrected member |
|---|---|---|---|---|---|---|
| LCTT.Server/Services/Parsers/Parser.cs:673 | a YouTube frame's default label uses `urlIndex++`, the value before the increment | the first YouTube frame on a page with no earlier links: its URL becomes reference [1], but it is labelled `![YouTube Video][0]` | `++urlIndex`, as every other handler and the `news.itsfoss.com` override use, so that the label names the link just registered | not executed | Render.YouTubeIframeAsWritten, RenderFacts.YouTubeLabelAsWrittenIsOneBehind | Render.YouTubeIframe, RenderFacts.YouTubeLabelNamesItsUrl |
| LCTT.Server/Services/CollectorService.cs:144-146 | when no `>` follows the open tag, `endIndex` is -1 and the loop calls `Remove(startIndex, -startIndex)` | a summary `<b` (the tag at index 0 and no `>`): `Remove(0, 0)` changes nothing, and `while (summary.Contains("<b"))` never ends | stop, or fail, when no closing `>` exists, as happens when the tag is not at 0 | not executed | Summaries.RemoveStepAsWritten, Summaries.AsWrittenStalls, Summaries.LoopTurn, Summaries.StallAtStart | Summaries.RemoveStep, Summaries.StepAgrees |
| LCTT.Server/Services/CollectorService.cs:126-128 | with `</p>` but no `<p>`, `IndexOf("<p>") + "<p>".Length` is -1 + 3 = 2, so `Substring` starts at index 2 | the summary `Hello world</p>`: the first paragraph is taken as `llo world` | start at the beginning of the summary when there is no `<p>`, keeping everything before the first `</p>` | not executed | Summaries.FirstParagraph, Summaries.NoOpeningKeepsFromTwo, Summaries.NoOpeningDropsTwo | Summaries.FirstParagraphIntended, Summaries.IntendedAgrees |

The walk keeps these defects as the program has them: `Render.Iframe` and
`Parsing.Parser.ParseIframe` label a YouTube frame with `urlIndex++`, and
`Summaries.RemoveTag` loops through `Summaries.LoopTurn`, which reports the
stall as `Diverges`; `Summaries.CleanSummarySpec` takes the first paragraph
with `Summaries.FirstParagraph`. The corrected definitions stand beside them with the
intended property proved.
