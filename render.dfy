/** The HTML-to-Markdown tree walk as a specification: every tag handler of
    the parser as a function from the node, the caller's inline buffer and
    the walk state to the new buffer and state. A handler either appends to
    the caller's buffer (`builder`, None when the caller passed null) or adds
    a block to `texts`; images, links and videos register their target in
    `urls` and refer to it by number. */
module Render {
  import opened Wrappers
  import opened Strings
  import opened Html
  import opened Sites

  /** What stays fixed while one page is walked: the parser, the page's
      scheme and authority, and the `ref` query-parameter removal (`UriBuilder`
      and `ParseQueryString`; None when the URL does not parse). */
  datatype Config = Config(variant: Variant, baseUrl: string, stripRef: string -> Option<string>)

  /** The lists the walk appends to and the parser's two counters. */
  datatype State = State(texts: seq<string>, urls: seq<string>, urlIndex: int, itemIndex: int)

  datatype Step = Step(builder: Option<string>, st: State)

  /** The exceptions a handler can raise: `int.Parse` on a bad `srcset`
      width, a null builder in the callout-emoji div, a URL `UriBuilder`
      rejects. */
  datatype Fault = FormatError | NullBuilder | InvalidUri

  type Outcome = Result<Step, Fault>

  /** `builder.Append(text)` when there is a builder, `texts.Add(text)` when
      there is none. */
  function Emit(b: Option<string>, st: State, text: string): (r: Step)
    ensures Extends(b, st, r)
    ensures r.st.urls == st.urls && r.st.urlIndex == st.urlIndex && r.st.itemIndex == st.itemIndex
  {
    match b
    case Some(s) => Step(Some(s + text), st)
    case None => Step(None, st.(texts := st.texts + [text]))
  }

  function AddText(b: Option<string>, st: State, text: string): (r: Step)
    ensures Extends(b, st, r) && r.builder == b
    ensures r.st.urls == st.urls && r.st.urlIndex == st.urlIndex && r.st.itemIndex == st.itemIndex
  {
    Step(b, st.(texts := st.texts + [text]))
  }

  /** What every handler does to the walk at most: `texts` and `urls` only
      grow, `urlIndex` moves in step with `urls`, and the buffer stays present
      or absent and only grows. */
  predicate Extends(b: Option<string>, st: State, s: Step) {
    && Grown(st, s.st)
    && b.Some? == s.builder.Some?
    && (b.Some? ==> b.value <= s.builder.value)
  }

  /** `texts` and `urls` only grow and `urlIndex` moves in step with `urls`. */
  predicate Grown(st: State, st': State) {
    && st.texts <= st'.texts
    && st.urls <= st'.urls
    && st'.urlIndex - |st'.urls| == st.urlIndex - |st.urls|
  }

  lemma GrownTransitive(st1: State, st2: State, st3: State)
    requires Grown(st1, st2) && Grown(st2, st3)
    ensures Grown(st1, st3)
  {
  }

  /** `Extends` for a handler that may fail; when the walk is unordered
      `itemIndex` is either kept or reset to 0 (by an `ol`). */
  predicate Keeps(b: Option<string>, st: State, r: Outcome, ordered: bool) {
    r.Success? ==>
      && Extends(b, st, r.value)
      && (!ordered ==> r.value.st.itemIndex == st.itemIndex || r.value.st.itemIndex == 0)
  }

  // ---------------------------------------------------------------------
  // Formats
  // ---------------------------------------------------------------------

  /** `hN`: the parser's marker, N-1 more `#`, a space and the text. */
  function HeadingLine(v: Variant, level: nat, text: string): (r: string)
    requires 1 <= level
    ensures |r| == |TopLevelHeading(v)| + level + |text|
    ensures EndsWith(r, " " + text)
  {
    var r := TopLevelHeading(v) + Repeat('#', level - 1) + " " + text;
    assert r[|r| - |text| - 1..] == " " + text;
    r
  }

  /** `![alt][N]`. */
  function ImageToken(alt: string, n: int): string {
    "![" + alt + "][" + IntToString(n) + "]"
  }

  /** `[title][N]`. */
  function LinkToken(title: string, n: int): string {
    "[" + title + "][" + IntToString(n) + "]"
  }

  function SpaceIf(c: bool): string {
    if c then " " else ""
  }

  lemma TrimStartPadded(front: bool, a: string)
    requires |a| > 0 && !IsWhiteSpace(a[0])
    ensures TrimStart(SpaceIf(front) + a) == a
  {
    if front {
      var s := " " + a;
      assert s[0] == ' ' && s[1..] == a;
    } else {
      assert SpaceIf(front) + a == a;
    }
  }

  lemma TrimEndPadded(m: string, back: bool)
    requires |m| > 0 && !IsWhiteSpace(m[|m| - 1])
    ensures TrimEnd(m + SpaceIf(back)) == m
  {
    if back {
      var a := m + " ";
      assert a[|a| - 1] == ' ' && a[..|a| - 1] == m;
    } else {
      assert m + SpaceIf(back) == m;
    }
  }

  /** Trimming a marked text padded with optional spaces gives back the
      marked text. */
  lemma TrimPadded(front: bool, m: string, back: bool)
    requires |m| > 0 && !IsWhiteSpace(m[0]) && !IsWhiteSpace(m[|m| - 1])
    ensures Trim(SpaceIf(front) + m + SpaceIf(back)) == m
  {
    var a := m + SpaceIf(back);
    assert SpaceIf(front) + m + SpaceIf(back) == SpaceIf(front) + a;
    assert a[0] == m[0];
    TrimStartPadded(front, a);
    TrimEndPadded(m, back);
  }

  /** Bold: the trimmed text in `**`, with the raw text's leading and
      trailing space each kept as one space. */
  function BoldText(raw: string): (r: string)
    ensures Trim(r) == "**" + Trim(raw) + "**"
  {
    var front := StartsWith(raw, " ");
    var back := EndsWith(raw, " ");
    var t := Trim(raw);
    var m := "**" + t + "**";
    assert m[0] == '*' && m[|m| - 1] == '*';
    TrimPadded(front, m, back);
    SpaceIf(front) + m + SpaceIf(back)
  }

  /** Italic: as bold with `_`, except that the trailing space is added when
      the raw text STARTS with a space. */
  function ItalicText(raw: string): (r: string)
    ensures Trim(r) == "_" + Trim(raw) + "_"
  {
    var front := StartsWith(raw, " ");
    var t := Trim(raw);
    var m := "_" + t + "_";
    assert m[0] == '_' && m[|m| - 1] == '_';
    TrimPadded(front, m, front);
    SpaceIf(front) + m + SpaceIf(front)
  }

  /** A blockquote: `> ` before the text and after every line feed, with a
      trailing `\n> ` dropped. It always has visible text, so a blockquote
      always emits. */
  function QuoteText(raw: string): (r: string)
    ensures StartsWith(r, "> ") && Trim(r) != ""
  {
    var q := Replace(raw, "\n", "\n> ");
    var q' := if EndsWith(q, "\n> ") then q[..|q| - 3] else q;
    var r := "> " + q';
    assert r[..2] == "> " && !IsBlank(r) by {
      assert r[0] == '>';
    }
    r
  }

  const EmbedPrefix: string := "https://www.youtube.com/embed/"
  const ShortVideoPrefix: string := "https://youtu.be/"

  // ---------------------------------------------------------------------
  // Image source selection
  // ---------------------------------------------------------------------

  /** One `srcset` entry as a candidate: kept when, trimmed, it is not
      empty and splits at spaces into exactly two parts. */
  function Candidate(piece: string): (r: Option<(string, string)>)
    ensures r.Some? <==> Trim(piece) != "" && |Split(Trim(piece), ' ')| == 2
    ensures r.Some? ==> ' ' !in r.value.0 && ' ' !in r.value.1 && r.value.0 + " " + r.value.1 == Trim(piece)
  {
    var t := Trim(piece);
    var parts := Split(t, ' ');
    if t != "" && |parts| == 2 then
      JoinSplitPair(t, ' ');
      Some((parts[0], parts[1]))
    else None
  }

  /** Splitting at `c` and joining with `c` gives the text back (for texts
      that split into two parts). */
  lemma JoinSplitPair(s: string, c: char)
    requires |Split(s, c)| == 2
    ensures Split(s, c)[0] + [c] + Split(s, c)[1] == s
  {
    var i := IndexOfFrom(s, [c], 0);
    assert s == s[..i] + [c] + s[i + 1..];
  }

  /** The `srcset` entries that are candidates, as (url, width descriptor),
      in order. */
  function Candidates(pieces: seq<string>): (r: seq<(string, string)>)
    ensures |r| <= |pieces|
  {
    if |pieces| == 0 then []
    else
      match Candidate(pieces[0])
      case Some(c) => [c] + Candidates(pieces[1..])
      case None => Candidates(pieces[1..])
  }

  /** `int.Parse(descriptor.Replace("w", ""))` for every candidate; one bad
      width fails them all, since the descending sort reads every key. */
  function Widths(cands: seq<(string, string)>): (r: Option<seq<int>>)
    ensures r.Some? ==> |r.value| == |cands|
    ensures r.Some? ==> forall k :: 0 <= k < |cands| ==> ParseInt32(Replace(cands[k].1, "w", "")) == Some(r.value[k])
    ensures r.None? ==> exists k :: 0 <= k < |cands| && ParseInt32(Replace(cands[k].1, "w", "")).None?
  {
    if |cands| == 0 then Some([])
    else
      match ParseInt32(Replace(cands[0].1, "w", ""))
      case None => None
      case Some(w) =>
        match Widths(cands[1..])
        case None => None
        case Some(ws) => Some([w] + ws)
  }

  /** The position the stable descending sort puts first: the first of the
      widest. */
  function WidestIndex(ws: seq<int>): (i: nat)
    requires |ws| > 0
    ensures i < |ws|
    ensures forall j :: 0 <= j < |ws| ==> ws[j] <= ws[i]
    ensures forall j :: 0 <= j < i ==> ws[j] < ws[i]
  {
    if |ws| == 1 then 0
    else
      var k := WidestIndex(ws[..|ws| - 1]);
      if ws[|ws| - 1] > ws[k] then |ws| - 1 else k
  }

  /** The URL a `srcset` value yields: "" without candidates, the widest
      candidate's URL otherwise, a fault when a width does not parse. */
  function SrcsetUrl(srcset: string): (r: Result<string, Fault>)
    ensures |Candidates(Split(srcset, ','))| == 0 ==> r == Success("")
    ensures r.Failure? <==> |Candidates(Split(srcset, ','))| > 0 && Widths(Candidates(Split(srcset, ','))).None?
  {
    var cands := Candidates(Split(srcset, ','));
    if |cands| == 0 then Success("")
    else
      match Widths(cands)
      case None => Failure(FormatError)
      case Some(ws) => Success(cands[WidestIndex(ws)].0)
  }

  function Attr(n: Node, name: string): string {
    Trim(GetAttributeValue(n, name))
  }

  /** The first non-empty `srcset` attribute, in the order
      `data-lazy-srcset`, `data-srcset`, `srcset`. */
  function SrcsetOf(n: Node): string {
    if Attr(n, "data-lazy-srcset") != "" then Attr(n, "data-lazy-srcset")
    else if Attr(n, "data-srcset") != "" then Attr(n, "data-srcset")
    else Attr(n, "srcset")
  }

  /** The image address: the `srcset` pick, then `data-orig-file`,
      `data-src` and `src`, the first that is not empty. */
  function ImageSource(n: Node): (r: Result<string, Fault>)
    ensures r.Failure? <==> SrcsetOf(n) != "" && SrcsetUrl(SrcsetOf(n)).Failure?
  {
    var picked := if SrcsetOf(n) != "" then SrcsetUrl(SrcsetOf(n)) else Success("");
    match picked
    case Failure(e) => Failure(e)
    case Success(p) =>
      if p != "" then Success(p)
      else if Attr(n, "data-orig-file") != "" then Success(Attr(n, "data-orig-file"))
      else if Attr(n, "data-src") != "" then Success(Attr(n, "data-src"))
      else Success(Attr(n, "src"))
  }

  /** The image's label: its `title`, or the trimmed `alt` when that is empty. */
  function ImageTitle(n: Node): string {
    if GetAttributeValue(n, "title") != "" then GetAttributeValue(n, "title") else Attr(n, "alt")
  }

  // ---------------------------------------------------------------------
  // The walk
  // ---------------------------------------------------------------------

  /** The dispatcher `Parse(node, builder, texts, urls, ordered)`. */
  function RenderNode(cfg: Config, n: Node, b: Option<string>, st: State, ordered: bool): (r: Outcome)
    ensures Keeps(b, st, r, ordered)
    decreases n, 5
  {
    match n
    case Text(s) => Success(TextNode(s, b, st))
    case Element(name, _, _) =>
      match name
      case "h1" => Success(Heading(cfg, n, 1, b, st))
      case "h2" => Success(Heading(cfg, n, 2, b, st))
      case "h3" => Success(Heading(cfg, n, 3, b, st))
      case "h4" => Success(Heading(cfg, n, 4, b, st))
      case "h5" => Success(Heading(cfg, n, 5, b, st))
      case "h6" => Success(Heading(cfg, n, 6, b, st))
      case "img" => Img(cfg, n, b, st)
      case "amp-img" => Img(cfg, n, b, st)
      case "video" => Success(Step(b, st))
      case "figure" => Children(cfg, n, b, st, ordered)
      case "a" => Anchor(cfg, n, b, st, ordered)
      case "pre" => Success(Code(n, b, st))
      case "code" => Success(Code(n, b, st))
      case "blockquote" => BlockQuote(cfg, n, b, st, ordered)
      case "span" => Success(Span(n, b, st))
      case "p" => Paragraph(cfg, n, b, st, ordered)
      case "b" => Bold(cfg, n, b, st, ordered)
      case "strong" => Bold(cfg, n, b, st, ordered)
      case "i" => Italic(cfg, n, b, st, ordered)
      case "em" => Italic(cfg, n, b, st, ordered)
      case "ul" => Unordered(cfg, n, b, st, ordered)
      case "ol" => Ordered(cfg, n, b, st.(itemIndex := 0), ordered)
      case "li" => ListItem(cfg, n, b, st, ordered)
      case "div" => Div(cfg, n, b, st, ordered)
      case "table" => Table(cfg, n, b, st, ordered)
      case "tr" => Tr(cfg, n, b, st, ordered)
      case "td" => Td(cfg, n, b, st, ordered)
      case "iframe" => Success(Iframe(cfg, n, b, st))
      case "br" => Success(Step(b, st))
      case "script" => Success(Step(b, st))
      case "style" => Success(Step(b, st))
      case "noscript" => Success(Step(b, st))
      case "figcaption" => Success(Step(b, st))
      case "interaction" => Success(Step(b, st))
      case _ => Children(cfg, n, b, st, ordered)
  }

  /** `TraverseChildren`: the children rendered in order into the same
      buffer. */
  function Children(cfg: Config, n: Node, b: Option<string>, st: State, ordered: bool): (r: Outcome)
    ensures Keeps(b, st, r, ordered)
    decreases n, 1
  {
    if HasChildNodes(n) then ChildrenUpTo(cfg, n, |n.children|, b, st, ordered) else Success(Step(b, st))
  }

  /** The first `k` children rendered in order. */
  function ChildrenUpTo(cfg: Config, n: Node, k: nat, b: Option<string>, st: State, ordered: bool): (r: Outcome)
    requires n.Element? && k <= |n.children|
    ensures Keeps(b, st, r, ordered)
    decreases n, 0, k
  {
    if k == 0 then Success(Step(b, st))
    else
      match ChildrenUpTo(cfg, n, k - 1, b, st, ordered)
      case Failure(e) => Failure(e)
      case Success(s) => RenderNode(cfg, n.children[k - 1], s.builder, s.st, ordered)
  }

  /** The children rendered into a fresh buffer: the buffer's text and the
      walk state afterwards. */
  function Inner(cfg: Config, n: Node, st: State, ordered: bool): (r: Result<(string, State), Fault>)
    ensures r.Success? ==>
      && Grown(st, r.value.1)
      && (!ordered ==> r.value.1.itemIndex == st.itemIndex || r.value.1.itemIndex == 0)
    decreases n, 2
  {
    match Children(cfg, n, Some(""), st, ordered)
    case Failure(e) => Failure(e)
    case Success(s) => Success((s.builder.GetOr(""), s.st))
  }

  function TextNode(s: string, b: Option<string>, st: State): (r: Step)
    ensures Extends(b, st, r)
  {
    if Trim(s) != "" then Emit(b, st, s) else Step(b, st)
  }

  function Heading(cfg: Config, n: Node, level: nat, b: Option<string>, st: State): (r: Step)
    requires 1 <= level
    ensures Extends(b, st, r)
  {
    var t := Trim(InnerText(n));
    if t != "" then AddText(b, st, HeadingLine(cfg.variant, level, t)) else Step(b, st)
  }

  function Img(cfg: Config, n: Node, b: Option<string>, st: State): (r: Outcome)
    ensures Keeps(b, st, r, false) && Keeps(b, st, r, true)
    decreases n, 2
  {
    var u :- ImageSource(n);
    if u != "" && !StartsWith(u, "data:image") then
      var idx := st.urlIndex + 1;
      Success(Emit(b, st.(urls := st.urls + [ResolveUrl(u, cfg.baseUrl)], urlIndex := idx), ImageToken(ImageTitle(n), idx)))
    else Success(Step(b, st))
  }

  function Anchor(cfg: Config, n: Node, b: Option<string>, st: State, ordered: bool): (r: Outcome)
    ensures Keeps(b, st, r, ordered)
    decreases n, 3
  {
    var aUrl := ResolveUrl(Attr(n, "href"), cfg.baseUrl);
    match Inner(cfg, n, st, ordered)
    case Failure(e) => Failure(e)
    case Success((raw, st1)) =>
      var r := LinkTo(cfg, aUrl, Trim(raw), b, st1);
      GrownTransitiveOutcome(b, st, st1, r, ordered);
      r
  }

  lemma GrownTransitiveOutcome(b: Option<string>, st: State, st1: State, r: Outcome, ordered: bool)
    requires Grown(st, st1) && (!ordered ==> st1.itemIndex == st.itemIndex || st1.itemIndex == 0)
    requires r.Success? ==> Extends(b, st1, r.value) && r.value.st.itemIndex == st1.itemIndex
    ensures Keeps(b, st, r, ordered)
  {
    if r.Success? {
      GrownTransitive(st, st1, r.value.st);
    }
  }

  /** What a link with the given target and (trimmed) child text emits: an
      image token verbatim, a known target under its existing number, a new
      target (with `ref` removed) under the next number. */
  function LinkTo(cfg: Config, aUrl: string, title: string, b: Option<string>, st: State): (r: Outcome)
    ensures r.Success? ==> Extends(b, st, r.value) && r.value.st.itemIndex == st.itemIndex
  {
    if title == "" then Success(Step(b, st))
    else if HasImageToken(title) then Success(Emit(b, st, title))
    else if aUrl in st.urls then Success(Emit(b, st, LinkToken(title, IndexOfItem(st.urls, aUrl) + 1)))
    else
      match cfg.stripRef(aUrl)
      case None => Failure(InvalidUri)
      case Some(u) =>
        var idx := st.urlIndex + 1;
        Success(Emit(b, st.(urls := st.urls + [u], urlIndex := idx), LinkToken(title, idx)))
  }

  function Code(n: Node, b: Option<string>, st: State): (r: Step)
    ensures Extends(b, st, r)
  {
    var t := Trim(InnerText(n));
    if t == "" then Step(b, st)
    else if b.Some? then Step(Some(b.value + "`" + t + "`"), st)
    else AddText(b, st, "```\n" + t + "\n```")
  }

  function BlockQuote(cfg: Config, n: Node, b: Option<string>, st: State, ordered: bool): (r: Outcome)
    ensures Keeps(b, st, r, ordered)
    decreases n, 3
  {
    var (raw, st1) :- Inner(cfg, n, st, ordered);
    var q := QuoteText(raw);
    if Trim(q) != "" then Success(Emit(b, st1, q)) else Success(Step(b, st1))
  }

  function Span(n: Node, b: Option<string>, st: State): (r: Step)
    ensures Extends(b, st, r)
  {
    var t := Trim(InnerText(n));
    if t != "" then Emit(b, st, t) else Step(b, st)
  }

  function Paragraph(cfg: Config, n: Node, b: Option<string>, st: State, ordered: bool): (r: Outcome)
    ensures Keeps(b, st, r, ordered)
    decreases n, 3
  {
    var (raw, st1) :- Inner(cfg, n, st, ordered);
    if Trim(raw) == "" then Success(Step(b, st1))
    else if b.Some? then Success(Step(Some(b.value + raw), st1))
    else Success(AddText(b, st1, Trim(raw)))
  }

  function Bold(cfg: Config, n: Node, b: Option<string>, st: State, ordered: bool): (r: Outcome)
    ensures Keeps(b, st, r, ordered)
    decreases n, 3
  {
    var (raw, st1) :- Inner(cfg, n, st, ordered);
    if Trim(raw) != "" then Success(Emit(b, st1, BoldText(raw))) else Success(Step(b, st1))
  }

  function Italic(cfg: Config, n: Node, b: Option<string>, st: State, ordered: bool): (r: Outcome)
    ensures Keeps(b, st, r, ordered)
    decreases n, 3
  {
    var (raw, st1) :- Inner(cfg, n, st, ordered);
    if Trim(raw) != "" then Success(Emit(b, st1, ItalicText(raw))) else Success(Step(b, st1))
  }

  /** `ul`, and `ol` and `table` below: the trimmed text of the children as
      one block of `texts`, whatever the caller's buffer. */
  function Unordered(cfg: Config, n: Node, b: Option<string>, st: State, ordered: bool): (r: Outcome)
    ensures Keeps(b, st, r, ordered)
    decreases n, 3
  {
    if HasChildNodes(n) then
      var (raw, st1) :- Inner(cfg, n, st, ordered);
      if Trim(raw) != "" then Success(AddText(b, st1, Trim(raw))) else Success(Step(b, st1))
    else Success(Step(b, st))
  }

  function Ordered(cfg: Config, n: Node, b: Option<string>, st: State, ordered: bool): (r: Outcome)
    ensures Keeps(b, st, r, ordered)
    decreases n, 3
  {
    if HasChildNodes(n) then
      var (raw, st1) :- Inner(cfg, n, st, ordered);
      if Trim(raw) != "" then Success(AddText(b, st1, Trim(raw))) else Success(Step(b, st1))
    else Success(Step(b, st))
  }

  /** `li`: `N. text` (numbered by `++itemIndex`) in an ordered walk, `- text`
      otherwise, and only into the caller's buffer. */
  function ListItem(cfg: Config, n: Node, b: Option<string>, st: State, ordered: bool): (r: Outcome)
    ensures Keeps(b, st, r, ordered)
    decreases n, 3
  {
    if HasChildNodes(n) then
      var (raw, st1) :- Inner(cfg, n, st, ordered);
      var t := Trim(raw);
      if t != "" && b.Some? then
        if ordered then
          var idx := st1.itemIndex + 1;
          Success(Step(Some(b.value + IntToString(idx) + ". " + t + "\n"), st1.(itemIndex := idx)))
        else Success(Step(Some(b.value + "- " + t + "\n"), st1))
      else Success(Step(b, st1))
    else Success(Step(b, st))
  }

  /** `div`: the children, except on `news.itsfoss.com`, where a callout card
      renders as a blockquote and a callout emoji is appended to the caller's
      buffer (which must exist) followed by a space. */
  function Div(cfg: Config, n: Node, b: Option<string>, st: State, ordered: bool): (r: Outcome)
    ensures Keeps(b, st, r, ordered)
    decreases n, 4
  {
    if cfg.variant == NewsItsfossCom then
      var cls := GetAttributeValue(n, "class");
      if Contains(cls, "kg-card kg-callout-card") then BlockQuote(cfg, n, b, st, ordered)
      else if cls == "kg-callout-emoji" then
        if b.None? then Failure(NullBuilder)
        else Success(Step(Some(b.value + (Trim(InnerText(n)) + " ")), st))
      else Children(cfg, n, b, st, ordered)
    else Children(cfg, n, b, st, ordered)
  }

  function Table(cfg: Config, n: Node, b: Option<string>, st: State, ordered: bool): (r: Outcome)
    ensures Keeps(b, st, r, ordered)
    decreases n, 3
  {
    var (raw, st1) :- Inner(cfg, n, st, ordered);
    if Trim(raw) != "" then Success(AddText(b, st1, Trim(raw))) else Success(Step(b, st1))
  }

  function Tr(cfg: Config, n: Node, b: Option<string>, st: State, ordered: bool): (r: Outcome)
    ensures Keeps(b, st, r, ordered)
    decreases n, 3
  {
    var (raw, st1) :- Inner(cfg, n, st, ordered);
    if Trim(raw) != "" then Success(Emit(b, st1, Trim(raw) + " |\n")) else Success(Step(b, st1))
  }

  function Td(cfg: Config, n: Node, b: Option<string>, st: State, ordered: bool): (r: Outcome)
    ensures Keeps(b, st, r, ordered)
    decreases n, 3
  {
    var (raw, st1) :- Inner(cfg, n, st, ordered);
    if Trim(raw) != "" then Success(Emit(b, st1, "| " + Trim(raw) + " ")) else Success(Step(b, st1))
  }

  /** `ParseIframe`: the `news.itsfoss.com` embed handler, or else the base
      handler as the program runs it, label `urlIndex++`. */
  function Iframe(cfg: Config, n: Node, b: Option<string>, st: State): (r: Step)
    ensures Extends(b, st, r)
  {
    if cfg.variant == NewsItsfossCom then EmbedIframe(n, b, st) else YouTubeIframeAsWritten(n, b, st)
  }

  /** The base `iframe` handler with the label corrected to `++urlIndex`:
      a `src` mentioning `youtube.com` is registered and labelled with its
      own number. */
  function YouTubeIframe(n: Node, b: Option<string>, st: State): (r: Step)
    ensures Extends(b, st, r)
  {
    var src := Attr(n, "src");
    if Contains(src, "youtube.com") then
      var idx := st.urlIndex + 1;
      AddText(b, st.(urls := st.urls + [src], urlIndex := idx), ImageToken("YouTube Video", idx))
    else Step(b, st)
  }

  /** The base `iframe` handler as written: the label is `urlIndex++`, the
      value before the increment. */
  function YouTubeIframeAsWritten(n: Node, b: Option<string>, st: State): (r: Step)
    ensures Extends(b, st, r)
  {
    var src := Attr(n, "src");
    if Contains(src, "youtube.com") then
      AddText(b, st.(urls := st.urls + [src], urlIndex := st.urlIndex + 1), ImageToken("YouTube Video", st.urlIndex))
    else Step(b, st)
  }

  /** The video id of an embed address: what follows the embed prefix, up to
      the first `?`. */
  function EmbedId(src: string): (r: string)
    ensures '?' !in r
  {
    Split(Replace(src, EmbedPrefix, ""), '?')[0]
  }

  /** The address registered for an embed: the short `youtu.be` form, unless
      the id is found at the very start of `src`. */
  function EmbedUrl(src: string): (r: string)
    ensures EndsWith(r, EmbedId(src))
    ensures r == EmbedId(src) <==> IndexOf(src, EmbedId(src)) == 0
  {
    var id := EmbedId(src);
    if IndexOf(src, id) != 0 then
      var r := ShortVideoPrefix + id;
      assert r[|r| - |id|..] == id;
      r
    else id
  }

  /** The `news.itsfoss.com` `iframe` handler. */
  function EmbedIframe(n: Node, b: Option<string>, st: State): (r: Step)
    ensures Extends(b, st, r)
  {
    var src := GetAttributeValue(n, "src");
    if src != "" && StartsWith(src, EmbedPrefix) then
      var title := if Attr(n, "title") == "" then "YouTube Video" else Attr(n, "title");
      var idx := st.urlIndex + 1;
      AddText(b, st.(urls := st.urls + [EmbedUrl(src)], urlIndex := idx), ImageToken(title, idx))
    else Step(b, st)
  }

  // ---------------------------------------------------------------------
  // A whole page
  // ---------------------------------------------------------------------

  /** The nodes the site's rule selects (after the exclusions are removed);
      None when the rule is empty or selects nothing. */
  datatype Selection = Selection(summary: Option<Node>, cover: Option<Node>, content: Option<Node>)

  function SummaryStage(cfg: Config, sel: Selection, st: State): (r: Outcome)
    ensures Keeps(None, st, r, false)
  {
    if sel.summary.Some? then RenderNode(cfg, sel.summary.value, None, st, false) else Success(Step(None, st))
  }

  function CoverStage(cfg: Config, sel: Selection, st: State): (r: Outcome)
    ensures Keeps(None, st, r, false)
  {
    if sel.cover.Some? then Img(cfg, sel.cover.value, None, st) else Success(Step(None, st))
  }

  function ContentStage(cfg: Config, sel: Selection, st: State): (r: Outcome)
    ensures Keeps(None, st, r, false)
  {
    if sel.content.Some? then RenderNode(cfg, sel.content.value, None, st, false) else Success(Step(None, st))
  }

  /** Summary, then cover, then content, all without a buffer and unordered. */
  function RenderPage(cfg: Config, sel: Selection, st: State): (r: Result<State, Fault>)
    ensures r.Success? ==> r.value.itemIndex == st.itemIndex || r.value.itemIndex == 0
  {
    var s1 :- SummaryStage(cfg, sel, st);
    var s2 :- CoverStage(cfg, sel, s1.st);
    var s3 :- ContentStage(cfg, sel, s2.st);
    Success(s3.st)
  }
}
