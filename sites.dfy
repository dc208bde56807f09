/** The parser family: which concrete parser a host gets, the heading marker
    each one uses, the per-site scraping rule, and the selectors that read
    the title, author and date out of the nodes a rule selects. */
module Sites {
  import opened Wrappers
  import opened Strings
  import opened Html
  import opened Dates
  import opened Articles

  /** The concrete parser classes: `LCTTParser` and `COSSIGParser`, and the
      site overrides derived from them. */
  datatype Variant = LCTT | COSSIG | NewsItsfossCom | BlogCentosOrg | DebugpointnewsCom

  /** The heading marker of `h1`: `##` in the LCTT family, `#` in the COSSIG
      family. */
  function TopLevelHeading(v: Variant): (r: string)
    ensures r == "##" <==> v in {LCTT, NewsItsfossCom, DebugpointnewsCom}
    ensures r == "#" <==> v in {COSSIG, BlogCentosOrg}
  {
    match v
    case LCTT => "##"
    case NewsItsfossCom => "##"
    case DebugpointnewsCom => "##"
    case COSSIG => "#"
    case BlogCentosOrg => "#"
  }

  /** One site's rule: XPath expressions (kept as opaque strings) and, for
      `BlogCentosOrg`, the author written out as `name url`. */
  datatype Rule = Rule(
    feed: string,
    title: string,
    summary: string,
    cover: string,
    author: string,
    date: string,
    content: string,
    exclusions: seq<string>)

  // ---------------------------------------------------------------------
  // Host to parser type
  // ---------------------------------------------------------------------

  function ToUpperAscii(c: char): char {
    if 'a' <= c <= 'z' then (c as int - 'a' as int + 'A' as int) as char else c
  }

  /** A host label with its first character upper-cased (a one-character
      label becomes that character upper-cased). */
  function Capitalize(s: string): (r: string)
    requires |s| > 0
    ensures |r| == |s| && r[0] == ToUpperAscii(s[0]) && r[1..] == s[1..]
  {
    [ToUpperAscii(s[0])] + s[1..]
  }

  function CapitalizeAll(labels: seq<string>): string
    requires forall k :: 0 <= k < |labels| ==> |labels[k]| > 0
  {
    if |labels| == 0 then "" else Capitalize(labels[0]) + CapitalizeAll(labels[1..])
  }

  /** The type name `DecideParserType` derives from a host: the labels between
      dots, each capitalised, concatenated. An empty label makes `s[0]` throw
      (None). */
  function TypeName(host: string): (r: Option<string>)
    ensures r.Some? <==> AllNonEmpty(Split(host, '.'))
  {
    var labels := Split(host, '.');
    if AllNonEmpty(labels) then Some(CapitalizeAll(labels)) else None
  }

  predicate AllNonEmpty(labels: seq<string>) {
    forall k :: 0 <= k < |labels| ==> |labels[k]| > 0
  }

  /** A host written as dot-separated non-empty labels gets the concatenation
      of the capitalised labels. */
  lemma TypeNameOfLabels(labels: seq<string>)
    requires |labels| >= 1
    requires forall k :: 0 <= k < |labels| ==> |labels[k]| > 0 && '.' !in labels[k]
    ensures TypeName(Join(".", labels)) == Some(CapitalizeAll(labels))
  {
    SplitJoin(labels, '.');
  }

  /** `Type.GetType` in the parsers' namespace, then the constructor lookup:
      the abstract `Parser` has no public constructor and every unknown name
      has no type, so both fall back to `LCTTParser`. */
  function DecideVariant(typeName: string): (v: Variant)
    ensures v == COSSIG <==> typeName == "COSSIGParser"
    ensures v == NewsItsfossCom <==> typeName == "NewsItsfossCom"
    ensures v == BlogCentosOrg <==> typeName == "BlogCentosOrg"
    ensures v == DebugpointnewsCom <==> typeName == "DebugpointnewsCom"
  {
    match typeName
    case "COSSIGParser" => COSSIG
    case "NewsItsfossCom" => NewsItsfossCom
    case "BlogCentosOrg" => BlogCentosOrg
    case "DebugpointnewsCom" => DebugpointnewsCom
    case _ => LCTT
  }

  /** The parser a host gets, or None when the type-name derivation throws. */
  function VariantForHost(host: string): (r: Option<Variant>)
    ensures r.Some? <==> TypeName(host).Some?
  {
    match TypeName(host)
    case Some(name) => Some(DecideVariant(name))
    case None => None
  }

  /** A host of three dot-separated labels without dots. */
  lemma ThreeLabels(x: string, y: string, z: string, host: string, name: string)
    requires |x| > 0 && |y| > 0 && |z| > 0
    requires '.' !in x && '.' !in y && '.' !in z
    requires host == x + "." + y + "." + z
    requires name == Capitalize(x) + Capitalize(y) + Capitalize(z)
    ensures TypeName(host) == Some(name)
  {
    var labels := [x, y, z];
    assert labels[1..] == [y, z];
    assert labels[1..][1..] == [z];
    assert Join(".", labels[1..]) == y + "." + z;
    assert Join(".", labels) == host;
    assert CapitalizeAll(labels[1..][1..]) == Capitalize(z);
    assert CapitalizeAll(labels) == name;
    TypeNameOfLabels(labels);
  }

  /** The site hosts with overrides reach their own parser. */
  lemma NewsItsfossHostReachesOverride()
    ensures VariantForHost("news.itsfoss.com") == Some(NewsItsfossCom)
  {
    assert Capitalize("news") == "News";
    assert Capitalize("itsfoss") == "Itsfoss";
    assert Capitalize("com") == "Com";
    ThreeLabels("news", "itsfoss", "com", "news.itsfoss.com", "NewsItsfossCom");
  }

  lemma CentosHostReachesOverride()
    ensures VariantForHost("blog.centos.org") == Some(BlogCentosOrg)
  {
    assert Capitalize("blog") == "Blog";
    assert Capitalize("centos") == "Centos";
    assert Capitalize("org") == "Org";
    ThreeLabels("blog", "centos", "org", "blog.centos.org", "BlogCentosOrg");
  }

  lemma DebugpointHostReachesOverride()
    ensures VariantForHost("debugpointnews.com") == Some(DebugpointnewsCom)
  {
    var labels := ["debugpointnews", "com"];
    assert labels[1..] == ["com"];
    assert Join(".", labels) == "debugpointnews.com";
    assert Capitalize("debugpointnews") == "Debugpointnews";
    assert Capitalize("com") == "Com";
    assert CapitalizeAll(labels) == "DebugpointnewsCom";
    TypeNameOfLabels(labels);
  }

  // ---------------------------------------------------------------------
  // Selectors
  // ---------------------------------------------------------------------

  /** `node.Name`: text nodes are named `#text`. */
  function NodeName(n: Node): string {
    if n.Element? then n.name else "#text"
  }

  /** A link target as the parser keeps it: absolute when it starts with
      `http`, otherwise appended to the page's scheme and authority. */
  function ResolveUrl(u: string, baseUrl: string): (r: string)
    ensures StartsWith(u, "http") ==> r == u
    ensures !StartsWith(u, "http") ==> |r| == |baseUrl| + |u|
  {
    if StartsWith(u, "http") then u else baseUrl + u
  }

  /** The resolved address ends with the link as written, and a relative
      link is put after the page's scheme and authority. */
  lemma ResolveUrlKeepsLink(u: string, baseUrl: string)
    ensures EndsWith(ResolveUrl(u, baseUrl), u)
    ensures !StartsWith(u, "http") ==> StartsWith(ResolveUrl(u, baseUrl), baseUrl)
  {
    var r := ResolveUrl(u, baseUrl);
    assert r[|r| - |u|..] == u;
    if !StartsWith(u, "http") {
      assert r[..|baseUrl|] == baseUrl;
    }
  }

  /** `ParseTitle`: the trimmed inner text of the title node, HTML-decoded;
      no title node is a null dereference. */
  function ParseTitle(rule: Rule, select: string -> Option<Node>, decode: string -> string): (r: Result<string, string>)
    ensures r.Failure? <==> select(rule.title).None?
    ensures r.Success? ==> r.value == decode(Trim(InnerText(select(rule.title).value)))
  {
    match select(rule.title)
    case None => Failure("NullReferenceException")
    case Some(node) => Success(decode(Trim(InnerText(node))))
  }

  /** The base `ParseAuthor`: the `href` of the author node (resolved against
      the base URL) and its trimmed inner text; an empty rule or no node gives
      the empty author. */
  function DefaultAuthor(rule: Rule, select: string -> Option<Node>, baseUrl: string): (a: Author)
    ensures rule.author == "" || select(rule.author).None? ==> a == NoAuthor
    ensures rule.author != "" && select(rule.author).Some? ==>
      var node := select(rule.author).value;
      a.name == Trim(InnerText(node)) && EndsWith(a.url, GetAttributeValue(node, "href"))
      && a.url == ResolveUrl(GetAttributeValue(node, "href"), baseUrl)
  {
    if rule.author == "" then NoAuthor
    else
      match select(rule.author)
      case None => NoAuthor
      case Some(node) => Author(Trim(InnerText(node)), ResolveUrl(GetAttributeValue(node, "href"), baseUrl))
  }

  /** `BlogCentosOrg.ParseAuthor`: the rule's author string split at its last
      space; a string without a space makes `Substring(0, -1)` throw. */
  function CentosAuthor(author: string): (r: Result<Author, string>)
    ensures r.Success? <==> ' ' in author
    ensures r.Success? ==> r.value.name + " " + r.value.url == author
    ensures r.Success? ==> ' ' !in r.value.url
  {
    var index := LastIndexOfChar(author, ' ');
    if index < 0 then
      assert ' ' !in author by {
        forall i | 0 <= i < |author| ensures author[i] != ' ' { }
      }
      Failure("ArgumentOutOfRangeException")
    else
      assert author == author[..index] + " " + author[index + 1..];
      assert ' ' !in author[index + 1..] by {
        forall i | index + 1 <= i < |author| ensures author[i] != ' ' { }
      }
      Success(Author(author[..index], author[index + 1..]))
  }

  /** The fixed author of `DebugpointnewsCom`. */
  const DebugpointAuthor: Author := Author("arindam", "https://debugpointnews.com/author/dpicubegmail-com/")

  /** `ParseAuthor` as each parser overrides it. The COSSIG blog author and
      the fixed author do not depend on the document at all. */
  function ParseAuthor(v: Variant, rule: Rule, select: string -> Option<Node>, baseUrl: string): (r: Result<Author, string>)
    ensures v == BlogCentosOrg ==> r == CentosAuthor(rule.author)
    ensures v == DebugpointnewsCom ==> r == Success(DebugpointAuthor)
    ensures v !in {BlogCentosOrg, DebugpointnewsCom} ==> r == Success(DefaultAuthor(rule, select, baseUrl))
  {
    match v
    case BlogCentosOrg => CentosAuthor(rule.author)
    case DebugpointnewsCom => Success(DebugpointAuthor)
    case _ => Success(DefaultAuthor(rule, select, baseUrl))
  }

  /** `ParseDate`: a `time` node's `datetime` attribute, else its trimmed inner
      text, parsed by `parse` (`DateTimeOffset.Parse` and the conversion to
      local time); an empty rule or no node gives today. */
  function ParseDate(rule: Rule, select: string -> Option<Node>, parse: string -> Option<DateTime>, today: DateTime): (r: Result<DateTime, string>)
    ensures rule.date == "" || select(rule.date).None? ==> r == Success(today)
    ensures r.Failure? ==> rule.date != "" && select(rule.date).Some?
  {
    if rule.date == "" then Success(today)
    else
      match select(rule.date)
      case None => Success(today)
      case Some(node) =>
        var text := if NodeName(node) == "time" then GetAttributeValue(node, "datetime") else Trim(InnerText(node));
        match parse(text)
        case None => Failure("FormatException")
        case Some(t) => Success(t)
  }
}
