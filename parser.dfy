/** The parser object: the per-page fields `Initialize` sets, the two
    counters the tag handlers advance, and the `texts` and `urls` lists one
    `Parse` call fills. Every handler is a method that changes these fields
    in place, proved to do exactly what the tree-walk specification in
    `Render` says, from the state it started in. */
module Parsing {
  import opened Wrappers
  import opened Strings
  import opened Html
  import opened Dates
  import opened Articles
  import opened Sites
  import opened Render

  /** Why `Parse` did not produce an article: an exception inside the tree
      walk, or one raised while reading the title, author or date. */
  datatype ParseError = Walk(fault: Fault) | Field(message: string)

  /** The nodes the site's rule selects: a part whose rule is empty, or
      whose rule selects nothing, is skipped. */
  function SelectionOf(rule: Rule, select: string -> Option<Node>): (sel: Selection)
    ensures rule.summary == "" ==> sel.summary.None?
    ensures rule.cover == "" ==> sel.cover.None?
    ensures rule.content == "" ==> sel.content.None?
    ensures rule.content != "" ==> sel.content == select(rule.content)
  {
    Selection(
      if rule.summary != "" then select(rule.summary) else None,
      if rule.cover != "" then select(rule.cover) else None,
      if rule.content != "" then select(rule.content) else None)
  }

  /** What `Parse(doc)` returns, from the counters it starts with: the three
      parts rendered into fresh lists, then the title, the author and the
      date, each of which may throw. */
  function ParsedArticle(cfg: Config, url: string, rule: Rule, select: string -> Option<Node>,
                         decode: string -> string, parseDate: string -> Option<DateTime>, today: DateTime,
                         urlIndex: int, itemIndex: int): (r: Result<Article, ParseError>)
    ensures r.Success? ==>
      && ParseTitle(rule, select, decode) == Success(r.value.title)
      && ParseAuthor(cfg.variant, rule, select, cfg.baseUrl) == Success(r.value.author)
      && ParseDate(rule, select, parseDate, today) == Success(r.value.date)
      && r.value.url == url && r.value.difficulty == DefaultDifficulty && r.value.category == DefaultCategory
    ensures r.Failure? && r.error.Field? ==> RenderPage(cfg, SelectionOf(rule, select), State([], [], urlIndex, itemIndex)).Success?
  {
    match RenderPage(cfg, SelectionOf(rule, select), State([], [], urlIndex, itemIndex))
    case Failure(e) => Failure(Walk(e))
    case Success(page) =>
      match ParseTitle(rule, select, decode)
      case Failure(e) => Failure(Field(e))
      case Success(title) =>
        match ParseAuthor(cfg.variant, rule, select, cfg.baseUrl)
        case Failure(e) => Failure(Field(e))
        case Success(author) =>
          match ParseDate(rule, select, parseDate, today)
          case Failure(e) => Failure(Field(e))
          case Success(date) => Success(Article(title, author, url, date, DefaultDifficulty, DefaultCategory, page.texts, page.urls))
  }

  /** After `Initialize`, an article's references are numbered 1 to the
      number of its URLs: reference N names URL N. A fault in the walk is
      reported before anything about the title, author or date. */
  lemma ParsedArticleNumbering(cfg: Config, url: string, rule: Rule, select: string -> Option<Node>,
                               decode: string -> string, parseDate: string -> Option<DateTime>, today: DateTime)
    ensures var r := ParsedArticle(cfg, url, rule, select, decode, parseDate, today, 0, 0);
      var page := RenderPage(cfg, SelectionOf(rule, select), State([], [], 0, 0));
      && (page.Failure? ==> r == Failure(Walk(page.error)))
      && (r.Success? ==>
            && page.Success? && page.value.urlIndex == |r.value.urls| && page.value.itemIndex == 0
            && r.value.texts == page.value.texts && r.value.urls == page.value.urls && r.value.url == url
            && r.value.difficulty == "easy" && r.value.category == "tech")
  {
    var page := RenderPage(cfg, SelectionOf(rule, select), State([], [], 0, 0));
    if page.Success? {
      assert page.value.urlIndex == |page.value.urls| && page.value.itemIndex == 0 by {
        var s1 := SummaryStage(cfg, SelectionOf(rule, select), State([], [], 0, 0)).value;
        var s2 := CoverStage(cfg, SelectionOf(rule, select), s1.st).value;
        GrownTransitive(State([], [], 0, 0), s1.st, s2.st);
        GrownTransitive(State([], [], 0, 0), s2.st, page.value);
      }
    }
  }

  /** The image a page node names is registered under the next number. */
  lemma ImgRegisters(cfg: Config, n: Node, b: Option<string>, st: State)
    requires ImageSource(n).Success?
    requires ImageSource(n).value != "" && !StartsWith(ImageSource(n).value, "data:image")
    ensures Img(cfg, n, b, st)
      == Success(Emit(b, st.(urls := st.urls + [ResolveUrl(ImageSource(n).value, cfg.baseUrl)], urlIndex := st.urlIndex + 1),
                      ImageToken(ImageTitle(n), st.urlIndex + 1)))
  {
  }

  /** A link to a target not yet listed is registered under the next
      number. */
  lemma LinkToRegisters(cfg: Config, aUrl: string, title: string, b: Option<string>, st: State)
    requires title != "" && !HasImageToken(title) && aUrl !in st.urls && cfg.stripRef(aUrl).Some?
    ensures LinkTo(cfg, aUrl, title, b, st)
      == Success(Emit(b, st.(urls := st.urls + [cfg.stripRef(aUrl).value], urlIndex := st.urlIndex + 1),
                      LinkToken(title, st.urlIndex + 1)))
  {
  }

  class Parser {
    /** The concrete parser class. */
    const variant: Variant
    /** The `ref` query-parameter removal of `UriBuilder`. */
    const stripRef: string -> Option<string>

    var url: string
    var host: string
    var baseUrl: string
    var urlIndex: int
    var itemIndex: int
    /** The lists `Parse` creates and the handlers append to. */
    var texts: seq<string>
    var urls: seq<string>

    function Cfg(): Config
      reads this
    {
      Config(variant, baseUrl, stripRef)
    }

    /** The part of the parser the tree walk changes. */
    function Snapshot(): State
      reads this
    {
      State(texts, urls, urlIndex, itemIndex)
    }

    /** The handler left the walk where the specification's outcome `r`
        says, or raised its fault. */
    predicate Done(r: Outcome, b': Option<string>, fault: Option<Fault>)
      reads this
    {
      match r
      case Success(s) => fault.None? && b' == s.builder && Snapshot() == s.st
      case Failure(e) => fault == Some(e)
    }

    constructor (variant: Variant, stripRef: string -> Option<string>)
      ensures this.variant == variant && this.stripRef == stripRef
      ensures url == "" && host == "" && baseUrl == ""
      ensures Snapshot() == State([], [], 0, 0)
    {
      this.variant := variant;
      this.stripRef := stripRef;
      url, host, baseUrl := "", "", "";
      urlIndex, itemIndex := 0, 0;
      texts, urls := [], [];
    }

    /** `Initialize(url)`: the page's address, its host and its scheme and
        authority (as `Uri` computes them), and both counters reset. */
    method Initialize(url: string, host: string, baseUrl: string)
      modifies this`url, this`host, this`baseUrl, this`urlIndex, this`itemIndex
      ensures this.url == url && this.host == host && this.baseUrl == baseUrl
      ensures urlIndex == 0 && itemIndex == 0
    {
      this.url := url;
      this.host := host;
      this.baseUrl := baseUrl;
      urlIndex := 0;
      itemIndex := 0;
    }

    /** `builder.Append(text)`, or `texts.Add(text)` without a builder. */
    method Append(b: Option<string>, text: string) returns (b': Option<string>)
      modifies this`texts
      ensures Step(b', Snapshot()) == Emit(b, old(Snapshot()), text)
    {
      if b.Some? {
        b' := Some(b.value + text);
      } else {
        b' := b;
        texts := texts + [text];
      }
    }

    /** `Parse(doc)`: new lists, then summary, cover and content, then the
        title, author and date of the article. The fields keep the page's
        state; after `Initialize` they are the article's lists, with
        `urlIndex` their number of URLs. */
    method ParseDocument(rule: Rule, select: string -> Option<Node>, decode: string -> string,
                         parseDate: string -> Option<DateTime>, today: DateTime)
      returns (r: Result<Article, ParseError>)
      modifies this`texts, this`urls, this`urlIndex, this`itemIndex
      ensures r == ParsedArticle(Cfg(), url, rule, select, decode, parseDate, today, old(urlIndex), old(itemIndex))
      ensures r.Success? ==>
        RenderPage(Cfg(), SelectionOf(rule, select), State([], [], old(urlIndex), old(itemIndex))) == Success(Snapshot())
      ensures r.Success? && old(urlIndex) == 0 && old(itemIndex) == 0 ==>
        texts == r.value.texts && urls == r.value.urls && urlIndex == |urls| && itemIndex == 0
    {
      texts, urls := [], [];
      var sel := SelectionOf(rule, select);
      ghost var st0 := Snapshot();
      var f: Option<Fault> := None;
      var ignored: Option<string>;
      if sel.summary.Some? {
        ignored, f := ParseNode(sel.summary.value, None, false);
        if f.Some? {
          return Failure(Walk(f.value));
        }
      }
      ghost var st1 := Snapshot();
      assert SummaryStage(Cfg(), sel, st0) == Success(Step(None, st1));
      if sel.cover.Some? {
        ignored, f := ParseImg(sel.cover.value, None);
        if f.Some? {
          return Failure(Walk(f.value));
        }
      }
      ghost var st2 := Snapshot();
      assert CoverStage(Cfg(), sel, st1) == Success(Step(None, st2));
      if sel.content.Some? {
        ignored, f := ParseNode(sel.content.value, None, false);
        if f.Some? {
          return Failure(Walk(f.value));
        }
      }
      assert ContentStage(Cfg(), sel, st2) == Success(Step(None, Snapshot()));
      assert RenderPage(Cfg(), sel, st0) == Success(Snapshot());
      var title := ParseTitle(rule, select, decode);
      if title.Failure? {
        return Failure(Field(title.error));
      }
      var author := ParseAuthor(variant, rule, select, baseUrl);
      if author.Failure? {
        return Failure(Field(author.error));
      }
      var date := ParseDate(rule, select, parseDate, today);
      if date.Failure? {
        return Failure(Field(date.error));
      }
      r := Success(Article(title.value, author.value, url, date.value, DefaultDifficulty, DefaultCategory, texts, urls));
      if st0.urlIndex == 0 && st0.itemIndex == 0 {
        ParsedArticleNumbering(Cfg(), url, rule, select, decode, parseDate, today);
      }
    }

    /** The dispatcher `Parse(node, builder, texts, urls, ordered)`. */
    method ParseNode(n: Node, b: Option<string>, ordered: bool) returns (b': Option<string>, fault: Option<Fault>)
      modifies this`texts, this`urls, this`urlIndex, this`itemIndex
      ensures Done(RenderNode(Cfg(), n, b, old(Snapshot()), ordered), b', fault)
      decreases n, 5
    {
      fault := None;
      match n
      case Text(s) =>
        b' := ParseText(s, b);
      case Element(name, _, _) =>
        match name
        case "h1" => b' := ParseHeading(n, 1, b);
        case "h2" => b' := ParseHeading(n, 2, b);
        case "h3" => b' := ParseHeading(n, 3, b);
        case "h4" => b' := ParseHeading(n, 4, b);
        case "h5" => b' := ParseHeading(n, 5, b);
        case "h6" => b' := ParseHeading(n, 6, b);
        case "img" => b', fault := ParseImg(n, b);
        case "amp-img" => b', fault := ParseImg(n, b);
        case "video" => b' := b;
        case "figure" => b', fault := TraverseChildren(n, b, ordered);
        case "a" => b', fault := ParseAnchor(n, b, ordered);
        case "pre" => b' := ParseCode(n, b);
        case "code" => b' := ParseCode(n, b);
        case "blockquote" => b', fault := ParseBlockQuote(n, b, ordered);
        case "span" => b' := ParseSpan(n, b);
        case "p" => b', fault := ParseParagraph(n, b, ordered);
        case "b" => b', fault := ParseBold(n, b, ordered);
        case "strong" => b', fault := ParseBold(n, b, ordered);
        case "i" => b', fault := ParseItalic(n, b, ordered);
        case "em" => b', fault := ParseItalic(n, b, ordered);
        case "ul" => b', fault := ParseUnordered(n, b, ordered);
        case "ol" =>
          itemIndex := 0;
          b', fault := ParseOrdered(n, b, ordered);
        case "li" => b', fault := ParseListItem(n, b, ordered);
        case "div" => b', fault := ParseDiv(n, b, ordered);
        case "table" => b', fault := ParseTable(n, b, ordered);
        case "tr" => b', fault := ParseTr(n, b, ordered);
        case "td" => b', fault := ParseTd(n, b, ordered);
        case "iframe" => b' := ParseIframe(n, b);
        case "br" => b' := b;
        case "script" => b' := b;
        case "style" => b' := b;
        case "noscript" => b' := b;
        case "figcaption" => b' := b;
        case "interaction" => b' := b;
        case _ => b', fault := TraverseChildren(n, b, ordered);
    }

    /** `TraverseChildren`: every child, in order, into the same buffer. */
    method TraverseChildren(n: Node, b: Option<string>, ordered: bool) returns (b': Option<string>, fault: Option<Fault>)
      modifies this`texts, this`urls, this`urlIndex, this`itemIndex
      ensures Done(Children(Cfg(), n, b, old(Snapshot()), ordered), b', fault)
      decreases n, 1
    {
      ghost var st0 := Snapshot();
      b', fault := b, None;
      if HasChildNodes(n) {
        var i := 0;
        while i < |n.children|
          invariant 0 <= i <= |n.children|
          invariant fault.None?
          invariant ChildrenUpTo(Cfg(), n, i, b, st0, ordered) == Success(Step(b', Snapshot()))
        {
          ChildStep(Cfg(), n, i, b, st0, ordered, b', Snapshot());
          b', fault := ParseNode(n.children[i], b', ordered);
          if fault.Some? {
            FailureSticks(Cfg(), n, i + 1, |n.children|, b, st0, ordered);
            return;
          }
          i := i + 1;
        }
        assert Children(Cfg(), n, b, st0, ordered) == ChildrenUpTo(Cfg(), n, |n.children|, b, st0, ordered);
      } else {
        assert Children(Cfg(), n, b, st0, ordered) == Success(Step(b, st0));
      }
    }

    /** The next child continues from where the first `i` children left off. */
    static lemma ChildStep(cfg: Config, n: Node, i: nat, b: Option<string>, st: State, ordered: bool, b': Option<string>, st': State)
      requires n.Element? && i < |n.children|
      requires ChildrenUpTo(cfg, n, i, b, st, ordered) == Success(Step(b', st'))
      ensures ChildrenUpTo(cfg, n, i + 1, b, st, ordered) == RenderNode(cfg, n.children[i], b', st', ordered)
    {
    }

    /** Once a child throws, the rest of the children are not visited and
        the traversal throws the same fault. */
    static lemma {:induction false} FailureSticks(cfg: Config, n: Node, i: nat, k: nat, b: Option<string>, st: State, ordered: bool)
      requires n.Element? && i <= k <= |n.children|
      requires ChildrenUpTo(cfg, n, i, b, st, ordered).Failure?
      ensures ChildrenUpTo(cfg, n, k, b, st, ordered) == ChildrenUpTo(cfg, n, i, b, st, ordered)
      decreases k - i
    {
      if i < k {
        FailureSticks(cfg, n, i, k - 1, b, st, ordered);
      }
    }

    /** A buffer of its own for the children: their text and the fault they
        raised. */
    method InnerText(n: Node, ordered: bool) returns (raw: string, fault: Option<Fault>)
      modifies this`texts, this`urls, this`urlIndex, this`itemIndex
      ensures var r := Inner(Cfg(), n, old(Snapshot()), ordered);
        && (r.Success? <==> fault.None?)
        && (r.Success? ==> raw == r.value.0 && Snapshot() == r.value.1)
        && (r.Failure? ==> fault == Some(r.error))
      decreases n, 2
    {
      var sb;
      sb, fault := TraverseChildren(n, Some(""), ordered);
      raw := sb.GetOr("");
    }

    method ParseText(s: string, b: Option<string>) returns (b': Option<string>)
      modifies this`texts
      ensures Step(b', Snapshot()) == TextNode(s, b, old(Snapshot()))
    {
      b' := b;
      if Trim(s) != "" {
        b' := Append(b, s);
      }
    }

    /** `ParseH1` to `ParseH6`. */
    method ParseHeading(n: Node, level: nat, b: Option<string>) returns (b': Option<string>)
      requires 1 <= level
      modifies this`texts
      ensures Step(b', Snapshot()) == Heading(Cfg(), n, level, b, old(Snapshot()))
    {
      b' := b;
      var hText := Trim(Html.InnerText(n));
      if hText != "" {
        texts := texts + [HeadingLine(variant, level, hText)];
      }
    }

    method ParseImg(n: Node, b: Option<string>) returns (b': Option<string>, fault: Option<Fault>)
      modifies this`texts, this`urls, this`urlIndex
      ensures Done(Img(Cfg(), n, b, old(Snapshot())), b', fault)
    {
      ghost var st0 := Snapshot();
      b', fault := b, None;
      var source := ImageSource(n);
      if source.Failure? {
        assert Img(Cfg(), n, b, st0) == Failure(source.error);
        return b, Some(source.error);
      }
      var imgUrl := source.value;
      if imgUrl != "" && !StartsWith(imgUrl, "data:image") {
        imgUrl := ResolveUrl(imgUrl, baseUrl);
        urls := urls + [imgUrl];
        var imgTitle := ImageTitle(n);
        urlIndex := urlIndex + 1;
        ghost var st1 := Snapshot();
        assert st1 == st0.(urls := st0.urls + [imgUrl], urlIndex := st0.urlIndex + 1);
        ImgRegisters(Cfg(), n, b, st0);
        ghost var out := Emit(b, st1, ImageToken(imgTitle, urlIndex));
        assert Img(Cfg(), n, b, st0) == Success(out);
        b' := Append(b, ImageToken(imgTitle, urlIndex));
        assert out == Step(b', Snapshot());
      } else {
        assert Img(Cfg(), n, b, st0) == Success(Step(b, st0));
      }
    }

    method ParseAnchor(n: Node, b: Option<string>, ordered: bool) returns (b': Option<string>, fault: Option<Fault>)
      modifies this`texts, this`urls, this`urlIndex, this`itemIndex
      ensures Done(Anchor(Cfg(), n, b, old(Snapshot()), ordered), b', fault)
      decreases n, 3
    {
      ghost var st0 := Snapshot();
      var aUrl := ResolveUrl(Attr(n, "href"), baseUrl);
      var raw;
      raw, fault := InnerText(n, ordered);
      if fault.Some? {
        assert Anchor(Cfg(), n, b, st0, ordered) == Failure(fault.value);
        return b, fault;
      }
      ghost var st1 := Snapshot();
      assert Inner(Cfg(), n, st0, ordered) == Success((raw, st1));
      var aTitle := Trim(raw);
      assert Anchor(Cfg(), n, b, st0, ordered) == LinkTo(Cfg(), aUrl, aTitle, b, st1);
      b', fault := LinkText(aUrl, aTitle, b);
    }

    /** The end of `ParseAnchor`: the link's text for the trimmed child
        text `aTitle`, and the target registered when it is new. */
    method LinkText(aUrl: string, aTitle: string, b: Option<string>) returns (b': Option<string>, fault: Option<Fault>)
      modifies this`texts, this`urls, this`urlIndex
      ensures Done(LinkTo(Cfg(), aUrl, aTitle, b, old(Snapshot())), b', fault)
    {
      ghost var st1 := Snapshot();
      fault := None;
      b' := b;
      if aTitle != "" {
        var aText: string;
        if HasImageToken(aTitle) {
          aText := aTitle;
        } else if aUrl in urls {
          var index := IndexOfItem(urls, aUrl);
          aText := LinkToken(aTitle, index + 1);
        } else {
          var stripped := stripRef(aUrl);
          if stripped.None? {
            assert LinkTo(Cfg(), aUrl, aTitle, b, st1) == Failure(InvalidUri);
            return b, Some(InvalidUri);
          }
          LinkToRegisters(Cfg(), aUrl, aTitle, b, st1);
          urls := urls + [stripped.value];
          urlIndex := urlIndex + 1;
          aText := LinkToken(aTitle, urlIndex);
        }
        b' := Append(b, aText);
      }
    }

    method ParseCode(n: Node, b: Option<string>) returns (b': Option<string>)
      modifies this`texts
      ensures Step(b', Snapshot()) == Code(n, b, old(Snapshot()))
    {
      b' := b;
      var codeText := Trim(Html.InnerText(n));
      if codeText != "" {
        if b.Some? {
          b' := Some(b.value + "`" + codeText + "`");
        } else {
          texts := texts + ["```\n" + codeText + "\n```"];
        }
      }
    }

    method ParseBlockQuote(n: Node, b: Option<string>, ordered: bool) returns (b': Option<string>, fault: Option<Fault>)
      modifies this`texts, this`urls, this`urlIndex, this`itemIndex
      ensures Done(BlockQuote(Cfg(), n, b, old(Snapshot()), ordered), b', fault)
      decreases n, 3
    {
      ghost var st0 := Snapshot();
      var raw;
      raw, fault := InnerText(n, ordered);
      if fault.Some? {
        return b, fault;
      }
      ghost var st1 := Snapshot();
      assert Inner(Cfg(), n, st0, ordered) == Success((raw, st1));
      var quoteText := Replace(raw, "\n", "\n> ");
      if EndsWith(quoteText, "\n> ") {
        quoteText := quoteText[..|quoteText| - 3];
      }
      quoteText := "> " + quoteText;
      assert quoteText == QuoteText(raw);
      b' := b;
      if Trim(quoteText) != "" {
        b' := Append(b, quoteText);
      }
    }

    method ParseSpan(n: Node, b: Option<string>) returns (b': Option<string>)
      modifies this`texts
      ensures Step(b', Snapshot()) == Span(n, b, old(Snapshot()))
    {
      b' := b;
      var spanText := Trim(Html.InnerText(n));
      if spanText != "" {
        b' := Append(b, spanText);
      }
    }

    method ParseParagraph(n: Node, b: Option<string>, ordered: bool) returns (b': Option<string>, fault: Option<Fault>)
      modifies this`texts, this`urls, this`urlIndex, this`itemIndex
      ensures Done(Paragraph(Cfg(), n, b, old(Snapshot()), ordered), b', fault)
      decreases n, 3
    {
      ghost var st0 := Snapshot();
      var pText;
      pText, fault := InnerText(n, ordered);
      if fault.Some? {
        return b, fault;
      }
      ghost var st1 := Snapshot();
      assert Inner(Cfg(), n, st0, ordered) == Success((pText, st1));
      b' := b;
      if Trim(pText) != "" {
        if b.Some? {
          b' := Some(b.value + pText);
        } else {
          texts := texts + [Trim(pText)];
        }
      }
    }

    method ParseBold(n: Node, b: Option<string>, ordered: bool) returns (b': Option<string>, fault: Option<Fault>)
      modifies this`texts, this`urls, this`urlIndex, this`itemIndex
      ensures Done(Bold(Cfg(), n, b, old(Snapshot()), ordered), b', fault)
      decreases n, 3
    {
      ghost var st0 := Snapshot();
      var raw;
      raw, fault := InnerText(n, ordered);
      if fault.Some? {
        return b, fault;
      }
      ghost var st1 := Snapshot();
      assert Inner(Cfg(), n, st0, ordered) == Success((raw, st1));
      b' := b;
      if Trim(raw) != "" {
        var bText := BoldFormat(raw);
        b' := Append(b, bText);
        assert Bold(Cfg(), n, b, st0, ordered) == Success(Emit(b, st1, bText));
      } else {
        assert Bold(Cfg(), n, b, st0, ordered) == Success(Step(b, st1));
      }
    }

    /** The bold text, one space at a time. */
    static method BoldFormat(raw: string) returns (bText: string)
      ensures bText == BoldText(raw)
    {
      var m := "**" + Trim(raw) + "**";
      bText := m;
      if StartsWith(raw, " ") {
        bText := " " + bText;
      }
      if EndsWith(raw, " ") {
        bText := bText + " ";
      }
      PaddingSteps(StartsWith(raw, " "), m, EndsWith(raw, " "));
    }

    /** The italic text, one space at a time: both spaces depend on the
        leading one. */
    static method ItalicFormat(raw: string) returns (iText: string)
      ensures iText == ItalicText(raw)
    {
      var m := "_" + Trim(raw) + "_";
      iText := m;
      if StartsWith(raw, " ") {
        iText := " " + iText;
      }
      if StartsWith(raw, " ") {
        iText := iText + " ";
      }
      PaddingSteps(StartsWith(raw, " "), m, StartsWith(raw, " "));
    }

    /** Adding the spaces one at a time gives the padded text. */
    static lemma PaddingSteps(front: bool, m: string, back: bool)
      ensures var x := if front then " " + m else m;
        (if back then x + " " else x) == SpaceIf(front) + m + SpaceIf(back)
    {
    }

    method ParseItalic(n: Node, b: Option<string>, ordered: bool) returns (b': Option<string>, fault: Option<Fault>)
      modifies this`texts, this`urls, this`urlIndex, this`itemIndex
      ensures Done(Italic(Cfg(), n, b, old(Snapshot()), ordered), b', fault)
      decreases n, 3
    {
      ghost var st0 := Snapshot();
      var raw;
      raw, fault := InnerText(n, ordered);
      if fault.Some? {
        return b, fault;
      }
      ghost var st1 := Snapshot();
      assert Inner(Cfg(), n, st0, ordered) == Success((raw, st1));
      b' := b;
      if Trim(raw) != "" {
        var iText := ItalicFormat(raw);
        b' := Append(b, iText);
        assert Italic(Cfg(), n, b, st0, ordered) == Success(Emit(b, st1, iText));
      } else {
        assert Italic(Cfg(), n, b, st0, ordered) == Success(Step(b, st1));
      }
    }

    method ParseUnordered(n: Node, b: Option<string>, ordered: bool) returns (b': Option<string>, fault: Option<Fault>)
      modifies this`texts, this`urls, this`urlIndex, this`itemIndex
      ensures Done(Unordered(Cfg(), n, b, old(Snapshot()), ordered), b', fault)
      decreases n, 3
    {
      ghost var st0 := Snapshot();
      b', fault := b, None;
      if HasChildNodes(n) {
        var raw;
        raw, fault := InnerText(n, ordered);
        if fault.Some? {
          assert Unordered(Cfg(), n, b, st0, ordered) == Failure(fault.value);
          return b, fault;
        }
        ghost var st1 := Snapshot();
        assert Inner(Cfg(), n, st0, ordered) == Success((raw, st1));
        var ulText := Trim(raw);
        if ulText != "" {
          texts := texts + [ulText];
          assert Unordered(Cfg(), n, b, st0, ordered) == Success(AddText(b, st1, ulText));
        } else {
          assert Unordered(Cfg(), n, b, st0, ordered) == Success(Step(b, st1));
        }
      } else {
        assert Unordered(Cfg(), n, b, st0, ordered) == Success(Step(b, st0));
      }
    }

    method ParseOrdered(n: Node, b: Option<string>, ordered: bool) returns (b': Option<string>, fault: Option<Fault>)
      modifies this`texts, this`urls, this`urlIndex, this`itemIndex
      ensures Done(Ordered(Cfg(), n, b, old(Snapshot()), ordered), b', fault)
      decreases n, 3
    {
      ghost var st0 := Snapshot();
      b', fault := b, None;
      if HasChildNodes(n) {
        var raw;
        raw, fault := InnerText(n, ordered);
        if fault.Some? {
          assert Ordered(Cfg(), n, b, st0, ordered) == Failure(fault.value);
          return b, fault;
        }
        ghost var st1 := Snapshot();
        assert Inner(Cfg(), n, st0, ordered) == Success((raw, st1));
        var olText := Trim(raw);
        if olText != "" {
          texts := texts + [olText];
          assert Ordered(Cfg(), n, b, st0, ordered) == Success(AddText(b, st1, olText));
        } else {
          assert Ordered(Cfg(), n, b, st0, ordered) == Success(Step(b, st1));
        }
      } else {
        assert Ordered(Cfg(), n, b, st0, ordered) == Success(Step(b, st0));
      }
    }

    method ParseListItem(n: Node, b: Option<string>, ordered: bool) returns (b': Option<string>, fault: Option<Fault>)
      modifies this`texts, this`urls, this`urlIndex, this`itemIndex
      ensures Done(ListItem(Cfg(), n, b, old(Snapshot()), ordered), b', fault)
      decreases n, 3
    {
      ghost var st0 := Snapshot();
      b', fault := b, None;
      if HasChildNodes(n) {
        var raw;
        raw, fault := InnerText(n, ordered);
        if fault.Some? {
          return b, fault;
        }
        ghost var st1 := Snapshot();
        assert Inner(Cfg(), n, st0, ordered) == Success((raw, st1));
        var liText := Trim(raw);
        if liText != "" && b.Some? {
          if ordered {
            itemIndex := itemIndex + 1;
            b' := Some(b.value + IntToString(itemIndex) + ". " + liText + "\n");
          } else {
            b' := Some(b.value + "- " + liText + "\n");
          }
        }
      }
    }

    /** `ParseDiv`, with the `news.itsfoss.com` override. */
    method ParseDiv(n: Node, b: Option<string>, ordered: bool) returns (b': Option<string>, fault: Option<Fault>)
      modifies this`texts, this`urls, this`urlIndex, this`itemIndex
      ensures Done(Div(Cfg(), n, b, old(Snapshot()), ordered), b', fault)
      decreases n, 4
    {
      ghost var st0 := Snapshot();
      if variant == NewsItsfossCom {
        var cls := GetAttributeValue(n, "class");
        if Contains(cls, "kg-card kg-callout-card") {
          assert Div(Cfg(), n, b, st0, ordered) == BlockQuote(Cfg(), n, b, st0, ordered);
          b', fault := ParseBlockQuote(n, b, ordered);
        } else if cls == "kg-callout-emoji" {
          if b.None? {
            assert Div(Cfg(), n, b, st0, ordered) == Failure(NullBuilder);
            return b, Some(NullBuilder);
          }
          var emoji := Trim(Html.InnerText(n)) + " ";
          assert Div(Cfg(), n, b, st0, ordered) == Success(Step(Some(b.value + emoji), st0));
          b', fault := Some(b.value + emoji), None;
        } else {
          assert Div(Cfg(), n, b, st0, ordered) == Children(Cfg(), n, b, st0, ordered);
          b', fault := TraverseChildren(n, b, ordered);
        }
      } else {
        assert Div(Cfg(), n, b, st0, ordered) == Children(Cfg(), n, b, st0, ordered);
        b', fault := TraverseChildren(n, b, ordered);
      }
    }

    method ParseTable(n: Node, b: Option<string>, ordered: bool) returns (b': Option<string>, fault: Option<Fault>)
      modifies this`texts, this`urls, this`urlIndex, this`itemIndex
      ensures Done(Table(Cfg(), n, b, old(Snapshot()), ordered), b', fault)
      decreases n, 3
    {
      ghost var st0 := Snapshot();
      var raw;
      raw, fault := InnerText(n, ordered);
      if fault.Some? {
        return b, fault;
      }
      ghost var st1 := Snapshot();
      assert Inner(Cfg(), n, st0, ordered) == Success((raw, st1));
      b' := b;
      var tableText := Trim(raw);
      if tableText != "" {
        texts := texts + [tableText];
      }
    }

    method ParseTr(n: Node, b: Option<string>, ordered: bool) returns (b': Option<string>, fault: Option<Fault>)
      modifies this`texts, this`urls, this`urlIndex, this`itemIndex
      ensures Done(Tr(Cfg(), n, b, old(Snapshot()), ordered), b', fault)
      decreases n, 3
    {
      ghost var st0 := Snapshot();
      var raw;
      raw, fault := InnerText(n, ordered);
      if fault.Some? {
        return b, fault;
      }
      ghost var st1 := Snapshot();
      assert Inner(Cfg(), n, st0, ordered) == Success((raw, st1));
      b' := b;
      var trText := Trim(raw);
      if trText != "" {
        b' := Append(b, trText + " |\n");
      }
    }

    method ParseTd(n: Node, b: Option<string>, ordered: bool) returns (b': Option<string>, fault: Option<Fault>)
      modifies this`texts, this`urls, this`urlIndex, this`itemIndex
      ensures Done(Td(Cfg(), n, b, old(Snapshot()), ordered), b', fault)
      decreases n, 3
    {
      ghost var st0 := Snapshot();
      var raw;
      raw, fault := InnerText(n, ordered);
      if fault.Some? {
        return b, fault;
      }
      b' := b;
      ghost var st1 := Snapshot();
      assert Inner(Cfg(), n, st0, ordered) == Success((raw, st1));
      var tdText := Trim(raw);
      if tdText != "" {
        b' := Append(b, "| " + tdText + " ");
        assert Td(Cfg(), n, b, st0, ordered) == Success(Emit(b, st1, "| " + tdText + " "));
      } else {
        assert Td(Cfg(), n, b, st0, ordered) == Success(Step(b, st1));
      }
    }

    /** `ParseIframe`, with the `news.itsfoss.com` override. */
    method ParseIframe(n: Node, b: Option<string>) returns (b': Option<string>)
      modifies this`texts, this`urls, this`urlIndex
      ensures Step(b', Snapshot()) == Iframe(Cfg(), n, b, old(Snapshot()))
    {
      b' := b;
      if variant == NewsItsfossCom {
        var src := GetAttributeValue(n, "src");
        if src != "" && StartsWith(src, EmbedPrefix) {
          var videoUrl := Split(Replace(src, EmbedPrefix, ""), '?')[0];
          if IndexOf(src, videoUrl) != 0 {
            videoUrl := ShortVideoPrefix + videoUrl;
          }
          var title := Attr(n, "title");
          if title == "" {
            title := "YouTube Video";
          }
          urlIndex := urlIndex + 1;
          texts := texts + [ImageToken(title, urlIndex)];
          urls := urls + [videoUrl];
        }
      } else {
        var src := Attr(n, "src");
        if Contains(src, "youtube.com") {
          urls := urls + [src];
          texts := texts + [ImageToken("YouTube Video", urlIndex)];
          urlIndex := urlIndex + 1;
        }
      }
    }
  }

  /** `GetParser(url)`: one parser object per host, made on first use and
      re-initialised on every call. */
  class Registry {
    var parsers: map<string, Parser>

    constructor ()
      ensures parsers == map[]
    {
      parsers := map[];
    }

    /** None when the host has no parser yet and deriving its type name
        throws (an empty label). */
    method GetParser(url: string, host: string, baseUrl: string, stripRef: string -> Option<string>)
      returns (r: Option<Parser>)
      modifies this, if host in parsers then {parsers[host]} else {}
      ensures host in old(parsers) ==> r == Some(old(parsers)[host])
      ensures host !in old(parsers) ==>
        (r.Some? <==> VariantForHost(host).Some?)
        && (r.Some? ==> fresh(r.value) && r.value.variant == VariantForHost(host).value && r.value.stripRef == stripRef)
      ensures r.Some? ==> parsers == old(parsers)[host := r.value]
      ensures r.None? ==> parsers == old(parsers)
      ensures r.Some? ==> r.value.url == url && r.value.host == host && r.value.baseUrl == baseUrl
      ensures r.Some? ==> r.value.urlIndex == 0 && r.value.itemIndex == 0
    {
      var parser: Parser;
      if host !in parsers {
        var v := VariantForHost(host);
        if v.None? {
          return None;
        }
        parser := new Parser(v.value, stripRef);
        parsers := parsers[host := parser];
      } else {
        parser := parsers[host];
      }
      parser.Initialize(url, host, baseUrl);
      r := Some(parser);
    }
  }
}
