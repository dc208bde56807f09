/** What the tree walk guarantees: reference numbers stay in step with the
    URL list, the page parts render in a fixed order, and the exact text of
    headings, images, links, emphasis, lists, quotes, videos and callouts. */
module RenderFacts {
  import opened Wrappers
  import opened Strings
  import opened Html
  import opened Sites
  import opened Render

  /** `urlIndex` is the length of `urls`: the number the last registered
      target was given. */
  predicate InStep(st: State) {
    st.urlIndex == |st.urls|
  }

  // ---------------------------------------------------------------------
  // Numbering and order over a whole page
  // ---------------------------------------------------------------------

  /** Starting from the state `Initialize` and `Parse` set up (both counters
      0, both lists empty), or any state in step, a page that renders leaves
      `urlIndex` equal to the number of URLs, only ever appends to `texts` and
      `urls`, and never numbers a list item. */
  lemma PageKeepsNumbering(cfg: Config, sel: Selection, st: State)
    requires InStep(st) && st.itemIndex == 0
    requires RenderPage(cfg, sel, st).Success?
    ensures var st' := RenderPage(cfg, sel, st).value;
      InStep(st') && st.texts <= st'.texts && st.urls <= st'.urls && st'.itemIndex == 0
  {
    var s1 := SummaryStage(cfg, sel, st).value;
    var s2 := CoverStage(cfg, sel, s1.st).value;
    var s3 := ContentStage(cfg, sel, s2.st).value;
    GrownTransitive(st, s1.st, s2.st);
    GrownTransitive(st, s2.st, s3.st);
  }

  /** Summary, cover and content register their URLs in that order: the
      summary's URLs come first in the list, then the cover's, then the
      content's, so each part's references are numbered below the next
      part's. */
  lemma PageOrder(cfg: Config, sel: Selection, st: State)
    requires RenderPage(cfg, sel, st).Success?
    ensures SummaryStage(cfg, sel, st).Success?
    ensures var s1 := SummaryStage(cfg, sel, st).value;
      && CoverStage(cfg, sel, s1.st).Success?
      && var s2 := CoverStage(cfg, sel, s1.st).value;
      && ContentStage(cfg, sel, s2.st).Success?
      && ContentStage(cfg, sel, s2.st).value.st == RenderPage(cfg, sel, st).value
      && st.urls <= s1.st.urls <= s2.st.urls <= RenderPage(cfg, sel, st).value.urls
      && st.texts <= s1.st.texts <= s2.st.texts <= RenderPage(cfg, sel, st).value.texts
  {
  }

  /** The cover adds at most one URL and one block: its image. */
  lemma CoverAddsOneImage(cfg: Config, sel: Selection, st: State)
    requires CoverStage(cfg, sel, st).Success?
    ensures var st' := CoverStage(cfg, sel, st).value.st;
      && (st'.urls == st.urls || |st'.urls| == |st.urls| + 1)
      && (st'.texts == st.texts || |st'.texts| == |st.texts| + 1)
  {
  }

  // ---------------------------------------------------------------------
  // Headings
  // ---------------------------------------------------------------------

  function HeadingName(level: nat): string
    requires 1 <= level <= 6
  {
    ["h1", "h2", "h3", "h4", "h5", "h6"][level - 1]
  }

  /** `hN` always adds a block to `texts` and never touches the caller's
      buffer or the URLs; white-space-only text adds nothing. */
  lemma HeadingRendering(cfg: Config, n: Node, level: nat, b: Option<string>, st: State, ordered: bool)
    requires 1 <= level <= 6
    requires n.Element? && n.name == HeadingName(level)
    ensures var t := Trim(InnerText(n));
      RenderNode(cfg, n, b, st, ordered)
        == Success(Step(b, if t == "" then st else st.(texts := st.texts + [HeadingLine(cfg.variant, level, t)])))
  {
  }

  /** The number of `#` a line starts with. */
  function LeadingHashes(s: string): nat {
    if |s| > 0 && s[0] == '#' then 1 + LeadingHashes(s[1..]) else 0
  }

  lemma {:induction false} LeadingHashesOf(h: string, rest: string)
    requires forall i :: 0 <= i < |h| ==> h[i] == '#'
    requires |rest| > 0 && rest[0] == ' '
    ensures LeadingHashes(h + rest) == |h|
  {
    if |h| > 0 {
      assert (h + rest)[1..] == h[1..] + rest;
      LeadingHashesOf(h[1..], rest);
    }
  }

  /** `hN` becomes a Markdown heading of level N+1 on LCTT sites (`##` for
      `h1`) and of level N on COSSIG sites (`#` for `h1`). */
  lemma HeadingLevel(v: Variant, level: nat, text: string)
    requires 1 <= level <= 6
    ensures LeadingHashes(HeadingLine(v, level, text)) == |TopLevelHeading(v)| + level - 1
  {
    var h := TopLevelHeading(v) + Repeat('#', level - 1);
    assert HeadingLine(v, level, text) == h + (" " + text);
    LeadingHashesOf(h, " " + text);
  }

  // ---------------------------------------------------------------------
  // Images
  // ---------------------------------------------------------------------

  /** The `srcset` pick is the URL of a candidate whose width no other
      candidate exceeds and that no earlier candidate matches. */
  lemma SrcsetPicksWidest(srcset: string)
    requires SrcsetUrl(srcset).Success?
    requires |Candidates(Split(srcset, ','))| > 0
    ensures var cands := Candidates(Split(srcset, ','));
      var ws := Widths(cands).value;
      exists i :: 0 <= i < |cands| && SrcsetUrl(srcset).value == cands[i].0
        && (forall j :: 0 <= j < |cands| ==> ws[j] <= ws[i])
        && (forall j :: 0 <= j < i ==> ws[j] < ws[i])
  {
    var cands := Candidates(Split(srcset, ','));
    var i := WidestIndex(Widths(cands).value);
    assert SrcsetUrl(srcset).value == cands[i].0;
  }

  /** The first non-empty text of a list, or "" when there is none. */
  function FirstNonEmpty(xs: seq<string>): (r: string)
    ensures r == "" <==> forall k :: 0 <= k < |xs| ==> xs[k] == ""
    ensures r != "" ==> exists k :: 0 <= k < |xs| && xs[k] == r && forall j :: 0 <= j < k ==> xs[j] == ""
  {
    if |xs| == 0 then ""
    else if xs[0] != "" then xs[0]
    else
      var r := FirstNonEmpty(xs[1..]);
      assert forall k :: 1 <= k < |xs| ==> xs[1..][k - 1] == xs[k];
      r
  }

  /** The image address is the first non-empty of, in order: the widest
      candidate of the first non-empty of `data-lazy-srcset`, `data-srcset`
      and `srcset`, then `data-orig-file`, `data-src` and `src`. */
  lemma ImageSourcePrecedence(n: Node)
    requires ImageSource(n).Success?
    ensures SrcsetOf(n) == FirstNonEmpty([Attr(n, "data-lazy-srcset"), Attr(n, "data-srcset"), Attr(n, "srcset")])
    ensures ImageSource(n).value == FirstNonEmpty([
      if SrcsetOf(n) != "" then SrcsetUrl(SrcsetOf(n)).value else "",
      Attr(n, "data-orig-file"), Attr(n, "data-src"), Attr(n, "src")])
  {
    FirstOfThree(Attr(n, "data-lazy-srcset"), Attr(n, "data-srcset"), Attr(n, "srcset"));
    FirstOfFour(if SrcsetOf(n) != "" then SrcsetUrl(SrcsetOf(n)).value else "",
      Attr(n, "data-orig-file"), Attr(n, "data-src"), Attr(n, "src"));
  }

  lemma FirstOfThree(a: string, b: string, c: string)
    ensures FirstNonEmpty([a, b, c]) == if a != "" then a else if b != "" then b else c
  {
    assert [a, b, c][1..] == [b, c];
    assert [b, c][1..] == [c];
    assert [c][1..] == [];
    if a == "" {
      assert FirstNonEmpty([a, b, c]) == FirstNonEmpty([b, c]);
      if b == "" {
        assert FirstNonEmpty([b, c]) == FirstNonEmpty([c]);
        if c == "" {
          assert FirstNonEmpty([c]) == FirstNonEmpty([]);
        }
      }
    }
  }

  lemma FirstOfFour(a: string, b: string, c: string, d: string)
    ensures FirstNonEmpty([a, b, c, d]) == if a != "" then a else if b != "" then b else if c != "" then c else d
  {
    assert [a, b, c, d][1..] == [b, c, d];
    FirstOfThree(b, c, d);
  }

  /** An image with an address that is not inline data registers the
      resolved address as the next URL and emits `![title][N]` with N the new
      number of URLs, so reference N names the image; any other image emits
      and registers nothing. */
  lemma ImageRendering(cfg: Config, n: Node, b: Option<string>, st: State)
    requires InStep(st)
    requires Img(cfg, n, b, st).Success?
    ensures var u := ImageSource(n).value;
      var r := Img(cfg, n, b, st).value;
      if u != "" && !StartsWith(u, "data:image") then
        && r.st.urls == st.urls + [ResolveUrl(u, cfg.baseUrl)]
        && InStep(r.st)
        && r == Emit(b, r.st.(texts := st.texts), ImageToken(ImageTitle(n), |r.st.urls|))
      else r == Step(b, st)
  {
  }

  /** An image token is what the link handler recognises as a picture,
      whenever the label has no line feed. */
  lemma ImageTokenRecognised(alt: string, k: int)
    requires k >= 0
    requires forall i :: 0 <= i < |alt| ==> alt[i] != '\n'
    ensures HasImageToken(ImageToken(alt, k))
  {
    ImageTokenMatches(alt, k);
  }

  // ---------------------------------------------------------------------
  // Links
  // ---------------------------------------------------------------------

  /** A link's text: nothing for empty child text; the child text verbatim,
      registering nothing, when it holds an image token; a known target under
      its existing number; a new target, with `ref` removed, under the next
      number. In every case reference N names the link's target. */
  lemma LinkRendering(cfg: Config, aUrl: string, title: string, b: Option<string>, st: State)
    requires InStep(st)
    requires LinkTo(cfg, aUrl, title, b, st).Success?
    ensures var r := LinkTo(cfg, aUrl, title, b, st).value;
      && (title == "" ==> r == Step(b, st))
      && (title != "" && HasImageToken(title) ==> r == Emit(b, st, title))
      && (title != "" && !HasImageToken(title) && aUrl in st.urls ==>
            exists k :: 1 <= k <= |st.urls| && st.urls[k - 1] == aUrl && r == Emit(b, st, LinkToken(title, k)))
      && (title != "" && !HasImageToken(title) && aUrl !in st.urls ==>
            && cfg.stripRef(aUrl).Some?
            && r.st.urls == st.urls + [cfg.stripRef(aUrl).value]
            && InStep(r.st)
            && r == Emit(b, r.st.(texts := st.texts), LinkToken(title, |r.st.urls|)))
  {
    if title != "" && !HasImageToken(title) && aUrl in st.urls {
      var k := IndexOfItem(st.urls, aUrl) + 1;
      assert st.urls[k - 1] == aUrl;
    }
  }

  /** The duplicate check looks for the address before `ref` is removed,
      while the list stores it after: a link that carries a `ref` parameter
      adds its stripped address again, under a second number, even when that
      address is already listed. */
  lemma StrippedLinkListedTwice(cfg: Config, aUrl: string, title: string, b: Option<string>, st: State)
    requires title != "" && !HasImageToken(title)
    requires aUrl !in st.urls
    requires cfg.stripRef(aUrl).Some? && cfg.stripRef(aUrl).value in st.urls
    ensures var r := LinkTo(cfg, aUrl, title, b, st);
      r.Success? && r.value.st.urls == st.urls + [cfg.stripRef(aUrl).value]
      && multiset(r.value.st.urls)[cfg.stripRef(aUrl).value] >= 2
  {
    var u := cfg.stripRef(aUrl).value;
    assert multiset(st.urls)[u] >= 1;
    assert multiset(st.urls + [u]) == multiset(st.urls) + multiset{u};
  }

  // ---------------------------------------------------------------------
  // Emphasis and quotes
  // ---------------------------------------------------------------------

  lemma SpaceIfFront(c: bool, m: string)
    requires |m| > 0 && m[0] != ' '
    ensures StartsWith(SpaceIf(c) + m, " ") <==> c
  {
    if !c { assert (SpaceIf(c) + m)[0] == m[0]; }
  }

  lemma SpaceIfBack(m: string, c: bool)
    requires |m| > 0 && m[|m| - 1] != ' '
    ensures EndsWith(m + SpaceIf(c), " ") <==> c
  {
    var t := m + SpaceIf(c);
    if !c { assert t[|t| - 1] == m[|m| - 1]; }
  }

  /** A marked-up run padded by optional spaces starts (ends) with a space
      exactly when the front (back) space is there. */
  lemma Padded(front: bool, mark: string, t: string, back: bool)
    requires |mark| > 0 && mark[0] != ' ' && mark[|mark| - 1] != ' '
    ensures StartsWith(SpaceIf(front) + mark + t + mark + SpaceIf(back), " ") <==> front
    ensures EndsWith(SpaceIf(front) + mark + t + mark + SpaceIf(back), " ") <==> back
  {
    var m := mark + t + mark;
    assert m[0] == mark[0] && m[|m| - 1] == mark[|mark| - 1];
    SpaceIfFront(front, m + SpaceIf(back));
    SpaceIfBack(SpaceIf(front) + m, back);
    assert SpaceIf(front) + mark + t + mark + SpaceIf(back) == SpaceIf(front) + (m + SpaceIf(back));
    assert SpaceIf(front) + mark + t + mark + SpaceIf(back) == (SpaceIf(front) + m) + SpaceIf(back);
  }

  /** Bold keeps a leading space exactly when the text had one and a
      trailing space exactly when the text had one. */
  lemma BoldBoundarySpaces(raw: string)
    ensures StartsWith(BoldText(raw), " ") <==> StartsWith(raw, " ")
    ensures EndsWith(BoldText(raw), " ") <==> EndsWith(raw, " ")
  {
    Padded(StartsWith(raw, " "), "**", Trim(raw), EndsWith(raw, " "));
  }

  /** Italic keeps a leading space exactly when the text had one, but ends
      with a space exactly when the text STARTS with one: a trailing space is
      lost and a leading one is doubled onto the end. */
  lemma ItalicTrailingSpaceFollowsLeading(raw: string)
    ensures StartsWith(ItalicText(raw), " ") <==> StartsWith(raw, " ")
    ensures EndsWith(ItalicText(raw), " ") <==> StartsWith(raw, " ")
  {
    Padded(StartsWith(raw, " "), "_", Trim(raw), StartsWith(raw, " "));
  }

  lemma TrimWord()
    ensures Trim("word ") == "word"
    ensures Trim(" word") == "word"
  {
    assert !IsWhiteSpace('w') && !IsWhiteSpace('d') && IsWhiteSpace(' ');
    assert "word "[1..] == "ord ";
    assert TrimStart("word ") == "word ";
    assert "word "[..4] == "word";
    assert TrimEnd("word ") == "word";
    assert " word"[1..] == "word";
    assert TrimStart(" word") == "word";
    assert TrimEnd("word") == "word";
  }

  /** Concretely: `word ` in italics loses its trailing space. */
  lemma ItalicLosesTrailingSpace()
    ensures ItalicText("word ") == "_word_"
  {
    TrimWord();
    assert !StartsWith("word ", " ");
    assert ItalicText("word ") == "" + ("_" + "word" + "_") + "";
  }

  /** Concretely: ` word` in italics gains a trailing space. */
  lemma ItalicDoublesLeadingSpace()
    ensures ItalicText(" word") == " _word_ "
  {
    TrimWord();
    assert StartsWith(" word", " ");
    assert ItalicText(" word") == " " + ("_" + "word" + "_") + " ";
  }

  /** Bold keeps the trailing space of `word `. */
  lemma BoldKeepsTrailingSpace()
    ensures BoldText("word ") == "**word** "
  {
    TrimWord();
    assert !StartsWith("word ", " ") && EndsWith("word ", " ");
    assert BoldText("word ") == "" + ("**" + "word" + "**") + " ";
  }

  /** Every line feed in `q` is followed by `> `. */
  predicate LinesQuoted(q: string) {
    forall i :: 0 <= i < |q| && q[i] == '\n' ==> i + 2 < |q| && q[i + 1] == '>' && q[i + 2] == ' '
  }

  lemma QuotedConcat(a: string, b: string)
    requires LinesQuoted(a) && LinesQuoted(b)
    ensures LinesQuoted(a + b)
  {
    var q := a + b;
    forall i | 0 <= i < |q| && q[i] == '\n' ensures i + 2 < |q| && q[i + 1] == '>' && q[i + 2] == ' ' {
      if i < |a| {
        assert a[i] == '\n';
      } else {
        assert b[i - |a|] == '\n';
        assert q[i + 1] == b[i - |a| + 1] && q[i + 2] == b[i - |a| + 2];
      }
    }
  }

  /** Every line feed `Replace` writes for a quote is followed by `> `. */
  lemma {:induction false} QuotedLines(s: string)
    ensures LinesQuoted(Replace(s, "\n", "\n> "))
    decreases |s|
  {
    if |s| >= 1 {
      QuotedLines(s[1..]);
      var rest := Replace(s[1..], "\n", "\n> ");
      if s[..1] == "\n" {
        assert LinesQuoted("\n> ");
        QuotedConcat("\n> ", rest);
      } else {
        assert s[0] != '\n' by { assert s[..1] == [s[0]]; }
        assert LinesQuoted([s[0]]);
        QuotedConcat([s[0]], rest);
      }
    }
  }

  /** Dropping a trailing `\n> ` keeps every line feed quoted. */
  lemma QuotedDropTail(r: string)
    requires LinesQuoted(r) && EndsWith(r, "\n> ")
    ensures LinesQuoted(r[..|r| - 3])
  {
    var r' := r[..|r| - 3];
    assert r[|r| - 3] == '\n' && r[|r| - 2] == '>';
    forall i | 0 <= i < |r'| && r'[i] == '\n' ensures i + 2 < |r'| && r'[i + 1] == '>' && r'[i + 2] == ' ' {
      assert r[i] == '\n';
    }
  }

  /** In a rendered quote every line starts with `> `: the text does, and
      every line feed is followed by it. */
  lemma QuoteMarksEveryLine(raw: string)
    ensures StartsWith(QuoteText(raw), "> ")
    ensures LinesQuoted(QuoteText(raw))
  {
    var r := Replace(raw, "\n", "\n> ");
    QuotedLines(raw);
    var r' := if EndsWith(r, "\n> ") then r[..|r| - 3] else r;
    if EndsWith(r, "\n> ") { QuotedDropTail(r); }
    assert LinesQuoted("> ");
    QuotedConcat("> ", r');
    assert QuoteText(raw) == "> " + r';
  }

  // ---------------------------------------------------------------------
  // Lists and blocks
  // ---------------------------------------------------------------------

  /** An `ol` resets the item counter and renders its items in the caller's
      walk, which the page walk starts unordered: no list item is ever
      numbered. */
  lemma OrderedListStaysUnordered(cfg: Config, n: Node, b: Option<string>, st: State)
    requires n.Element? && n.name == "ol"
    ensures RenderNode(cfg, n, b, st, false) == Ordered(cfg, n, b, st.(itemIndex := 0), false)
  {
  }

  /** In an unordered walk an `li` with text appends `- text` and a line feed
      to the caller's buffer, adds nothing when there is no buffer, and
      leaves the item counter as its children left it. */
  lemma ListItemUnordered(cfg: Config, n: Node, b: Option<string>, st: State)
    requires HasChildNodes(n)
    requires Inner(cfg, n, st, false).Success?
    ensures var (raw, st1) := Inner(cfg, n, st, false).value;
      var t := Trim(raw);
      ListItem(cfg, n, b, st, false)
        == Success(Step(if t != "" && b.Some? then Some(b.value + "- " + t + "\n") else b, st1))
  {
  }

  /** In an ordered walk an `li` with text and a buffer is numbered with the
      next value of the item counter. */
  lemma ListItemOrdered(cfg: Config, n: Node, b: Option<string>, st: State)
    requires HasChildNodes(n) && b.Some?
    requires Inner(cfg, n, st, true).Success?
    requires Trim(Inner(cfg, n, st, true).value.0) != ""
    ensures var (raw, st1) := Inner(cfg, n, st, true).value;
      var r := ListItem(cfg, n, b, st, true);
      && r.Success?
      && r.value.builder == Some(b.value + IntToString(st1.itemIndex + 1) + ". " + Trim(raw) + "\n")
      && r.value.st == st1.(itemIndex := st1.itemIndex + 1)
  {
  }

  /** `ul`, `ol` and `table` never write to the caller's buffer: their text
      becomes a block of its own. */
  lemma ListsAndTablesAreBlocks(cfg: Config, n: Node, b: Option<string>, st: State, ordered: bool)
    requires Inner(cfg, n, st, ordered).Success?
    requires HasChildNodes(n)
    ensures var (raw, st1) := Inner(cfg, n, st, ordered).value;
      var t := Trim(raw);
      var expected := Success(Step(b, if t != "" then st1.(texts := st1.texts + [t]) else st1));
      && Unordered(cfg, n, b, st, ordered) == expected
      && Ordered(cfg, n, b, st, ordered) == expected
      && Table(cfg, n, b, st, ordered) == expected
  {
  }

  // ---------------------------------------------------------------------
  // Videos
  // ---------------------------------------------------------------------

  /** With the label taken after the increment, a YouTube frame's reference
      number N is the new number of URLs and URL N is the frame's address. */
  lemma YouTubeLabelNamesItsUrl(n: Node, b: Option<string>, st: State)
    requires InStep(st)
    requires Contains(Attr(n, "src"), "youtube.com")
    ensures var r := YouTubeIframe(n, b, st);
      && r.builder == b
      && r.st.urls == st.urls + [Attr(n, "src")]
      && InStep(r.st)
      && r.st.urls[|r.st.urls| - 1] == Attr(n, "src")
      && r.st.texts == st.texts + [ImageToken("YouTube Video", |r.st.urls|)]
  {
  }

  /** As written, the label is the number before the increment: it names the
      URL registered before the frame's own (or 0, which no reference line
      carries, when the frame is the first URL). */
  lemma YouTubeLabelAsWrittenIsOneBehind(n: Node, b: Option<string>, st: State)
    requires InStep(st)
    requires Contains(Attr(n, "src"), "youtube.com")
    ensures var r := YouTubeIframeAsWritten(n, b, st);
      && r.st.urls == st.urls + [Attr(n, "src")]
      && InStep(r.st)
      && r.st.texts == st.texts + [ImageToken("YouTube Video", |r.st.urls| - 1)]
      && r.st.texts != st.texts + [ImageToken("YouTube Video", |r.st.urls|)]
  {
    var r := YouTubeIframeAsWritten(n, b, st);
    if r.st.texts == st.texts + [ImageToken("YouTube Video", |r.st.urls|)] {
      assert ImageToken("YouTube Video", |st.urls|) == ImageToken("YouTube Video", |st.urls| + 1) by {
        assert r.st.texts[|st.texts|] == ImageToken("YouTube Video", |st.urls|);
      }
      LabelDetermined("YouTube Video", |st.urls|, |st.urls| + 1);
    }
  }

  /** Different numbers give different image tokens. */
  lemma LabelDetermined(alt: string, j: int, k: int)
    requires ImageToken(alt, j) == ImageToken(alt, k)
    ensures j == k
  {
    var pre := "![" + alt + "][";
    assert ImageToken(alt, j) == pre + (IntToString(j) + "]");
    assert ImageToken(alt, k) == pre + (IntToString(k) + "]");
    assert IntToString(j) + "]" == IntToString(k) + "]" by {
      assert (pre + (IntToString(j) + "]"))[|pre|..] == IntToString(j) + "]";
      assert (pre + (IntToString(k) + "]"))[|pre|..] == IntToString(k) + "]";
    }
    var a := IntToString(j);
    var c := IntToString(k);
    assert a == (a + "]")[..|a|];
    assert c == (c + "]")[..|c|];
    IntToStringInjective(j, k);
  }

  /** On `news.itsfoss.com` a frame whose address is not a YouTube embed
      adds nothing at all. */
  lemma NonEmbedFrameIgnored(n: Node, b: Option<string>, st: State)
    requires !StartsWith(GetAttributeValue(n, "src"), EmbedPrefix)
    ensures EmbedIframe(n, b, st) == Step(b, st)
  {
  }

  /** The first piece of a split is everything before the first separator. */
  lemma SplitFirst(x: string, tail: string, c: char)
    requires c !in x
    requires tail == [] || tail[0] == c
    ensures Split(x + tail, c)[0] == x
  {
    var s := x + tail;
    forall i | 0 <= i < |x| ensures !OccursAt(s, [c], i) {
      assert s[i] == x[i] && x[i] != c;
      assert s[i..i + 1][0] == s[i];
    }
    if tail == [] {
      assert s == x;
      forall i | 0 <= i < |s| ensures !OccursAt(s, [c], i) { }
      assert IndexOfFrom(s, [c], 0) == -1;
    } else {
      assert OccursAt(s, [c], |x|);
      IndexOfFromFirst(s, [c], 0, |x|);
      assert s[..|x|] == x;
    }
  }

  /** The id cut from an embed address `https://www.youtube.com/embed/ID?...`
      is `ID`. */
  lemma EmbedIdOf(id: string, tail: string)
    requires forall i :: OccursAt(EmbedPrefix + id + tail, EmbedPrefix, i) ==> i == 0
    requires '?' !in id
    requires tail == [] || tail[0] == '?'
    ensures EmbedId(EmbedPrefix + id + tail) == id
  {
    var src := EmbedPrefix + id + tail;
    assert src == [] + EmbedPrefix + (id + tail);
    var none: string := [];
    forall i | OccursAt(none + EmbedPrefix + (id + tail), EmbedPrefix, i) ensures i == |none| {
      assert OccursAt(src, EmbedPrefix, i);
    }
    ReplaceOnce(none, EmbedPrefix, id + tail, "");
    assert Replace(src, EmbedPrefix, "") == id + tail;
    SplitFirst(id, tail, '?');
  }

  /** An embed address `https://www.youtube.com/embed/ID?...` whose id is not
      a prefix of the address is registered in its short form
      `https://youtu.be/ID`, labelled with its own number. */
  lemma EmbedRegistersShortForm(n: Node, id: string, tail: string, b: Option<string>, st: State)
    requires InStep(st)
    requires GetAttributeValue(n, "src") == EmbedPrefix + id + tail
    requires forall i :: OccursAt(EmbedPrefix + id + tail, EmbedPrefix, i) ==> i == 0
    requires '?' !in id && !StartsWith(EmbedPrefix + id + tail, id)
    requires tail == [] || tail[0] == '?'
    ensures EmbedId(EmbedPrefix + id + tail) == id
    ensures var r := EmbedIframe(n, b, st);
      && r.builder == b
      && r.st.urls == st.urls + [ShortVideoPrefix + id]
      && InStep(r.st)
      && |r.st.texts| == |st.texts| + 1
      && r.st.texts[|st.texts|] == ImageToken(if Attr(n, "title") == "" then "YouTube Video" else Attr(n, "title"), |r.st.urls|)
  {
    var src := EmbedPrefix + id + tail;
    EmbedIdOf(id, tail);
    assert !OccursAt(src, id, 0);
    assert EmbedUrl(src) == ShortVideoPrefix + id;
    assert src[..|EmbedPrefix|] == EmbedPrefix;
  }

  /** When the id happens to be a prefix of the address (the empty id among
      them), `IndexOf` finds it at 0 and the bare id is registered. */
  lemma EmbedKeepsIdAtStart(n: Node, id: string, tail: string, b: Option<string>, st: State)
    requires InStep(st)
    requires GetAttributeValue(n, "src") == EmbedPrefix + id + tail
    requires forall i :: OccursAt(EmbedPrefix + id + tail, EmbedPrefix, i) ==> i == 0
    requires '?' !in id && StartsWith(EmbedPrefix + id + tail, id)
    requires tail == [] || tail[0] == '?'
    ensures var r := EmbedIframe(n, b, st);
      && r.builder == b
      && r.st.urls == st.urls + [id]
      && InStep(r.st)
      && |r.st.texts| == |st.texts| + 1
      && r.st.texts[|st.texts|] == ImageToken(if Attr(n, "title") == "" then "YouTube Video" else Attr(n, "title"), |r.st.urls|)
  {
    var src := EmbedPrefix + id + tail;
    EmbedIdOf(id, tail);
    assert OccursAt(src, id, 0);
    assert EmbedUrl(src) == id;
    assert src[..|EmbedPrefix|] == EmbedPrefix;
  }

  // ---------------------------------------------------------------------
  // Callouts
  // ---------------------------------------------------------------------

  /** On `news.itsfoss.com` a callout card renders as a blockquote; a callout
      emoji fails without a buffer and is otherwise appended with a space;
      any other `div`, and every `div` on other sites, renders its
      children. */
  lemma CalloutDiv(cfg: Config, n: Node, b: Option<string>, st: State, ordered: bool)
    ensures var cls := GetAttributeValue(n, "class");
      && (cfg.variant == NewsItsfossCom && Contains(cls, "kg-card kg-callout-card") ==>
            Div(cfg, n, b, st, ordered) == BlockQuote(cfg, n, b, st, ordered))
      && (cfg.variant == NewsItsfossCom && cls == "kg-callout-emoji" ==>
            Div(cfg, n, b, st, ordered)
              == if b.None? then Failure(NullBuilder) else Success(Step(Some(b.value + (Trim(InnerText(n)) + " ")), st)))
      && (cfg.variant != NewsItsfossCom
          || (!Contains(cls, "kg-card kg-callout-card") && cls != "kg-callout-emoji") ==>
            Div(cfg, n, b, st, ordered) == Children(cfg, n, b, st, ordered))
  {
    assert !Contains("kg-callout-emoji", "kg-card kg-callout-card");
  }
}
