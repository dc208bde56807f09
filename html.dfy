/** The parsed HTML tree the renderer walks, as a value: text nodes and
    elements with attributes and children, in document order. Comment nodes
    are not represented: the dispatcher sends them to the default handler,
    which finds no children and emits nothing. */
module Html {
  import opened Strings

  datatype Attribute = Attribute(name: string, value: string)

  datatype Node =
    | Text(text: string)
    | Element(name: string, attrs: seq<Attribute>, children: seq<Node>)

  function AttributeOf(attrs: seq<Attribute>, name: string): string {
    if |attrs| == 0 then ""
    else if attrs[0].name == name then attrs[0].value
    else AttributeOf(attrs[1..], name)
  }

  /** `GetAttributeValue(name, string.Empty)`: the first attribute with that
      name, or the empty string. */
  function GetAttributeValue(n: Node, name: string): string {
    if n.Element? then AttributeOf(n.attrs, name) else ""
  }

  function ChildNodes(n: Node): seq<Node> {
    if n.Element? then n.children else []
  }

  predicate HasChildNodes(n: Node) {
    |ChildNodes(n)| > 0
  }

  /** `InnerText`: the text of every descendant text node, in document order. */
  function InnerText(n: Node): string
    decreases n, 1
  {
    match n
    case Text(s) => s
    case Element(_, _, cs) => InnerTextUpTo(n, |cs|)
  }

  function InnerTextUpTo(n: Node, k: nat): string
    requires n.Element? && k <= |n.children|
    decreases n, 0, k
  {
    if k == 0 then "" else InnerTextUpTo(n, k - 1) + InnerText(n.children[k - 1])
  }

  /** The regular expression `!\[.*\]\[\d+\]` matches `s` from `p` to `e`:
      `![` at `p`, then characters other than a line feed, then `][` at `q`,
      one or more digits, and `]` at `e`. */
  predicate ImageTokenAt(s: string, p: int, q: int, e: int) {
    && 0 <= p && p + 2 <= q && q + 2 < e < |s|
    && s[p] == '!' && s[p + 1] == '['
    && (forall i :: p + 2 <= i < q ==> s[i] != '\n')
    && s[q] == ']' && s[q + 1] == '['
    && (forall i :: q + 2 <= i < e ==> IsDigit(s[i]))
    && s[e] == ']'
  }

  /** `Regex.IsMatch(s, @"!\[.*\]\[\d+\]")`: the pattern matches somewhere. */
  predicate HasImageToken(s: string) {
    exists p, q, e | 0 <= p < |s| && p <= q < |s| && q < e < |s| :: ImageTokenAt(s, p, q, e)
  }

  /** Every reference-style image the renderer writes is recognised by the
      pattern, provided the bracketed text has no line feed. */
  lemma ImageTokenMatches(alt: string, n: nat)
    requires forall i :: 0 <= i < |alt| ==> alt[i] != '\n'
    ensures HasImageToken("![" + alt + "][" + NatToString(n) + "]")
  {
    var s := "![" + alt + "][" + NatToString(n) + "]";
    var q := 2 + |alt|;
    var e := |s| - 1;
    forall i | 2 <= i < q ensures s[i] != '\n' {
      assert s[i] == alt[i - 2];
    }
    forall i | q + 2 <= i < e ensures IsDigit(s[i]) {
      assert s[i] == NatToString(n)[i - q - 2];
    }
    assert ImageTokenAt(s, 0, q, e);
  }
}
