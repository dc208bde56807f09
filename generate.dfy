/** `CollectorService.Generate`: the article template with its placeholders
    substituted one after another, and the numbered reference list. */
module Generating {
  import opened Strings
  import opened Articles

  // ---------------------------------------------------------------------
  // The numbered reference list
  // ---------------------------------------------------------------------

  /** One reference line, `[i]: url`. */
  function UrlLine(i: int, url: string): (r: string)
    ensures |r| == |IntToString(i)| + 4 + |url|
  {
    "[" + IntToString(i) + "]: " + url
  }

  /** The lines of the reference list, numbered from 1 in list order. */
  function UrlLines(urls: seq<string>): (r: seq<string>)
    ensures |r| == |urls|
  {
    seq(|urls|, k requires 0 <= k < |urls| => UrlLine(k + 1, urls[k]))
  }

  /** The `{URL.List}` value: the reference lines joined by newlines. */
  function UrlList(urls: seq<string>): (r: string)
    ensures r == "" <==> |urls| == 0
  {
    var r := Join("\n", UrlLines(urls));
    assert |urls| > 0 ==> |UrlLines(urls)[0]| > 0 && |r| >= |UrlLines(urls)[0]|;
    r
  }

  /** The number of a reference line is closed by the line's first `]`. */
  lemma UrlLineBracket(i: int, u: string)
    ensures UrlLine(i, u)[|IntToString(i)| + 1] == ']'
    ensures forall m :: 1 <= m <= |IntToString(i)| ==> UrlLine(i, u)[m] != ']'
    ensures '\n' !in u ==> '\n' !in UrlLine(i, u)
  {
    var a := IntToString(i);
    var s := UrlLine(i, u);
    assert forall m :: 1 <= m <= |a| ==> s[m] == a[m - 1];
    assert forall m :: |a| + 4 <= m < |s| ==> s[m] == u[m - |a| - 4];
  }

  /** A reference line determines both its number and its URL. */
  lemma UrlLineInjective(i: int, u: string, j: int, v: string)
    requires UrlLine(i, u) == UrlLine(j, v)
    ensures i == j && u == v
  {
    var s := UrlLine(i, u);
    var a := IntToString(i);
    var b := IntToString(j);
    UrlLineBracket(i, u);
    UrlLineBracket(j, v);
    assert |a| == |b|;
    assert s == "[" + a + "]: " + u;
    assert s == "[" + b + "]: " + v;
    assert a == s[1..|a| + 1] == b;
    IntToStringInjective(i, j);
    assert u == s[|a| + 4..] == v;
  }

  /** The line at position `m` is the one labelled `k` for URL `u` exactly
      when `k` is `m + 1` and `u` is the URL at `m`. So every label from 1 to
      `|urls|` names its URL, and any other label (0 among them) names no
      line at all. */
  lemma UrlLineLabelled(urls: seq<string>, m: int, k: int, u: string)
    requires 0 <= m < |urls|
    ensures UrlLines(urls)[m] == UrlLine(k, u) <==> k == m + 1 && u == urls[m]
  {
    if UrlLines(urls)[m] == UrlLine(k, u) {
      UrlLineInjective(m + 1, urls[m], k, u);
    }
  }

  /** Without newlines in the URLs, splitting the list at newlines gives back
      one line per URL. */
  lemma UrlListSplits(urls: seq<string>)
    requires |urls| >= 1
    requires forall k :: 0 <= k < |urls| ==> '\n' !in urls[k]
    ensures Split(UrlList(urls), '\n') == UrlLines(urls)
  {
    var lines := UrlLines(urls);
    forall k | 0 <= k < |lines| ensures '\n' !in lines[k] {
      UrlLineBracket(k + 1, urls[k]);
    }
    SplitJoin(lines, '\n');
  }

  // ---------------------------------------------------------------------
  // Placeholder substitution
  // ---------------------------------------------------------------------

  /** The placeholders, in the order `Generate` replaces them. */
  const Placeholders: seq<string> :=
    ["{Title}", "{URL}", "{Author.Name}", "{Author.URL}", "{Content}", "{URL.List}"]

  /** The values that replace them. */
  function Values(a: Article): (r: seq<string>)
    ensures |r| == 6
  {
    [a.title, a.url, a.author.name, a.author.url, Join("\n\n", a.texts), UrlList(a.urls)]
  }

  function Slots(a: Article): (r: seq<(string, string)>)
    ensures |r| == 6
    ensures forall k :: 0 <= k < 6 ==> r[k] == (Placeholders[k], Values(a)[k])
  {
    seq(6, k requires 0 <= k < 6 => (Placeholders[k], Values(a)[k]))
  }

  /** A chain of `Replace` calls, applied left to right. A text without
      braces holds no placeholder and comes through unchanged. */
  function Substitute(t: string, slots: seq<(string, string)>): (r: string)
    requires forall k :: 0 <= k < |slots| ==> IsPlaceholder(slots[k].0)
    ensures BraceFree(t) ==> r == t
    decreases |slots|
  {
    if |slots| == 0 then t
    else
      var p := slots[0].0;
      assert IsPlaceholder(p);
      assert BraceFree(t) ==> Replace(t, p, slots[0].1) == t by {
        if BraceFree(t) {
          BraceFreeAbsent(t, p);
          ReplaceAbsent(t, p, slots[0].1);
        }
      }
      Substitute(Replace(t, p, slots[0].1), slots[1..])
  }

  /** The template text before `HtmlDecode`. */
  function Fill(template: string, a: Article): (r: string)
    ensures BraceFree(template) ==> r == template
  {
    PlaceholdersWellFormed(a);
    Substitute(template, Slots(a))
  }

  /** `Generate(article, template)`; `decode` stands for `HtmlDecode`. A
      template without braces is only decoded. */
  function Generate(a: Article, template: string, decode: string -> string): (r: string)
    ensures BraceFree(template) ==> r == decode(template)
  {
    decode(Fill(template, a))
  }

  predicate BraceFree(s: string) {
    '{' !in s
  }

  /** A placeholder: an opening brace followed by text without another. */
  predicate IsPlaceholder(p: string) {
    |p| > 0 && p[0] == '{' && BraceFree(p[1..])
  }

  /** Placeholders no one of which begins another one. */
  predicate Unambiguous(slots: seq<(string, string)>) {
    forall i, j :: 0 <= i < |slots| && 0 <= j < |slots| && i != j ==>
      !StartsWith(slots[i].0, slots[j].0)
  }

  predicate WellFormedSlots(slots: seq<(string, string)>) {
    && (forall k :: 0 <= k < |slots| ==> IsPlaceholder(slots[k].0))
    && (forall k :: 0 <= k < |slots| ==> BraceFree(slots[k].1))
    && Unambiguous(slots)
  }

  lemma WellFormedTail(slots: seq<(string, string)>)
    requires |slots| > 0 && Unambiguous(slots)
    requires forall k :: 0 <= k < |slots| ==> IsPlaceholder(slots[k].0)
    requires forall k :: 1 <= k < |slots| ==> BraceFree(slots[k].1)
    ensures WellFormedSlots(slots[1..])
  {
    var rest := slots[1..];
    forall i, j | 0 <= i < |rest| && 0 <= j < |rest| && i != j
      ensures !StartsWith(rest[i].0, rest[j].0)
    {
      assert rest[i] == slots[i + 1] && rest[j] == slots[j + 1];
    }
  }

  /** A brace-free text contains no placeholder. */
  lemma BraceFreeAbsent(s: string, q: string)
    requires BraceFree(s) && IsPlaceholder(q)
    ensures !Contains(s, q)
  {
    forall i | 0 <= i <= |s| - |q| ensures !OccursAt(s, q, i) {
      assert s[i..i + |q|][0] == s[i];
    }
  }

  /** The only brace in `c0 + p + c1` is the first character of `p`. */
  lemma OnlyBraceAt(c0: string, p: string, c1: string, i: int)
    requires BraceFree(c0) && BraceFree(c1) && IsPlaceholder(p)
    requires 0 <= i < |c0 + p + c1| && (c0 + p + c1)[i] == '{'
    ensures i == |c0|
  {
    var s := c0 + p + c1;
    assert forall m :: 0 <= m < |c0| ==> s[m] == c0[m];
    assert forall m :: |c0| < m < |c0| + |p| ==> s[m] == p[1..][m - |c0| - 1];
    assert forall m :: |c0| + |p| <= m < |s| ==> s[m] == c1[m - |c0| - |p|];
  }

  /** A placeholder is replaced where it stands. */
  lemma SlotReplaced(c0: string, p: string, c1: string, r: string)
    requires BraceFree(c0) && BraceFree(c1) && IsPlaceholder(p)
    ensures Replace(c0 + p + c1, p, r) == c0 + r + c1
  {
    var s := c0 + p + c1;
    forall i | OccursAt(s, p, i) ensures i == |c0| {
      assert s[i] == s[i..i + |p|][0] == '{';
      OnlyBraceAt(c0, p, c1, i);
    }
    ReplaceOnce(c0, p, c1, r);
  }

  /** Another placeholder, neither beginning the other, leaves it alone. */
  lemma SlotKept(c0: string, p: string, c1: string, q: string, r: string)
    requires BraceFree(c0) && BraceFree(c1) && IsPlaceholder(p) && IsPlaceholder(q)
    requires !StartsWith(p, q) && !StartsWith(q, p)
    ensures Replace(c0 + p + c1, q, r) == c0 + p + c1
  {
    var s := c0 + p + c1;
    forall i | 0 <= i <= |s| - |q| ensures !OccursAt(s, q, i) {
      if s[i] == '{' {
        OnlyBraceAt(c0, p, c1, i);
        if |q| <= |p| {
          assert s[i..i + |q|] == p[..|q|];
        } else {
          assert s[i..i + |q|][..|p|] == s[i..i + |p|] == p;
        }
      } else {
        assert s[i..i + |q|][0] == s[i];
      }
    }
    ReplaceAbsent(s, q, r);
  }

  /** A template holding one placeholder gets exactly that placeholder's
      value in its place, whatever its position in the chain. */
  lemma {:induction false} SubstituteOne(c0: string, c1: string, slots: seq<(string, string)>, k: int)
    requires BraceFree(c0) && BraceFree(c1)
    requires WellFormedSlots(slots)
    requires 0 <= k < |slots|
    ensures Substitute(c0 + slots[k].0 + c1, slots) == c0 + slots[k].1 + c1
  {
    var p := slots[k].0;
    var v := slots[k].1;
    assert IsPlaceholder(p);
    if k == 0 {
      SlotReplaced(c0, p, c1, v);
      assert BraceFree(c0 + v + c1) by {
        assert BraceFree(v);
        assert forall x :: x in c0 + v + c1 ==> x in c0 || x in v || x in c1;
      }
    } else {
      var q := slots[0].0;
      assert IsPlaceholder(q);
      assert !StartsWith(p, q) && !StartsWith(q, p);
      SlotKept(c0, p, c1, q, slots[0].1);
      var rest := slots[1..];
      assert rest[k - 1] == slots[k];
      WellFormedTail(slots);
      SubstituteOne(c0, c1, rest, k - 1);
    }
  }

  // ---------------------------------------------------------------------
  // Templates with many placeholders
  // ---------------------------------------------------------------------

  /** Brace-free text passes through a placeholder's `Replace` untouched. */
  lemma {:induction false} ReplaceAfterBraceFree(c: string, t: string, p: string, r: string)
    requires BraceFree(c) && IsPlaceholder(p)
    ensures Replace(c + t, p, r) == c + Replace(t, p, r)
    decreases |c|
  {
    if |c| > 0 && |c + t| >= |p| {
      assert (c + t)[..|p|][0] == c[0] != p[0];
      assert (c + t)[1..] == c[1..] + t;
      ReplaceAfterBraceFree(c[1..], t, p, r);
      assert [c[0]] + c[1..] == c;
    } else if |c| > 0 {
      ReplaceAfterBraceFree(c[1..], t, p, r);
      assert c + t == [c[0]] + (c[1..] + t);
    } else {
      assert c + t == t;
    }
  }

  /** The placeholder at the front is replaced, and the scan resumes after
      it. */
  lemma ReplaceAtFront(p: string, t: string, r: string)
    requires |p| > 0
    ensures Replace(p + t, p, r) == r + Replace(t, p, r)
  {
    assert (p + t)[..|p|] == p;
    assert (p + t)[|p|..] == t;
  }

  /** Another placeholder at the front, neither beginning the other, is kept
      whole. */
  lemma ReplacePastOther(q: string, t: string, p: string, r: string)
    requires IsPlaceholder(q) && IsPlaceholder(p)
    requires !StartsWith(q, p) && !StartsWith(p, q)
    ensures Replace(q + t, p, r) == q + Replace(t, p, r)
  {
    var s := q + t;
    if |s| >= |p| {
      assert s[..|p|] != p by {
        if |p| <= |q| {
          assert s[..|p|] == q[..|p|];
        } else {
          assert s[..|p|][..|q|] == q;
        }
      }
      assert Replace(s, p, r) == [s[0]] + Replace(s[1..], p, r);
      assert s[1..] == q[1..] + t;
      ReplaceAfterBraceFree(q[1..], t, p, r);
      assert [q[0]] + q[1..] == q;
    } else {
      assert Replace(t, p, r) == t;
    }
  }

  /** Brace-free chunks `cs` with the items `xs` between them:
      `cs[0] + xs[0] + cs[1] + ... + xs[n-1] + cs[n]`. */
  function Assemble(cs: seq<string>, xs: seq<string>): string
    requires |cs| == |xs| + 1
    decreases |xs|
  {
    if |xs| == 0 then cs[0] else cs[0] + xs[0] + Assemble(cs[1..], xs[1..])
  }

  /** `xs` becomes `ys` by a `Replace` of `p` with `r`: each item is `p`
      and turns into `r`, or stays, being brace-free or a placeholder
      unrelated to `p`. */
  predicate ReplacedItems(xs: seq<string>, ys: seq<string>, p: string, r: string) {
    && |ys| == |xs|
    && forall i :: 0 <= i < |xs| ==>
         || (xs[i] == p && ys[i] == r)
         || (ys[i] == xs[i] && BraceFree(xs[i]))
         || (ys[i] == xs[i] && IsPlaceholder(xs[i]) && !StartsWith(xs[i], p) && !StartsWith(p, xs[i]))
  }

  /** One `Replace` over an assembled text replaces the items equal to the
      placeholder and nothing else. */
  lemma {:induction false} ReplaceAssembled(cs: seq<string>, xs: seq<string>, ys: seq<string>, p: string, r: string)
    requires |cs| == |xs| + 1 && forall i :: 0 <= i < |cs| ==> BraceFree(cs[i])
    requires IsPlaceholder(p) && ReplacedItems(xs, ys, p, r)
    ensures Replace(Assemble(cs, xs), p, r) == Assemble(cs, ys)
    decreases |xs|
  {
    if |xs| == 0 {
      BraceFreeAbsent(cs[0], p);
      ReplaceAbsent(cs[0], p, r);
    } else {
      var rest := Assemble(cs[1..], xs[1..]);
      assert ReplacedItems(xs[1..], ys[1..], p, r) by {
        forall i | 0 <= i < |xs[1..]| ensures xs[1..][i] == xs[i + 1] && ys[1..][i] == ys[i + 1] { }
      }
      ReplaceAssembled(cs[1..], xs[1..], ys[1..], p, r);
      assert Assemble(cs, xs) == cs[0] + (xs[0] + rest);
      ReplaceAfterBraceFree(cs[0], xs[0] + rest, p, r);
      if xs[0] == p && ys[0] == r {
        ReplaceAtFront(p, rest, r);
      } else if ys[0] == xs[0] && BraceFree(xs[0]) {
        ReplaceAfterBraceFree(xs[0], rest, p, r);
      } else {
        ReplacePastOther(xs[0], rest, p, r);
      }
    }
  }

  /** The items of the template named by `ks` once the first `m` slots of
      the chain are applied: values for those, placeholders for the rest. */
  function Stage(ks: seq<int>, slots: seq<(string, string)>, m: int): (r: seq<string>)
    requires forall i :: 0 <= i < |ks| ==> 0 <= ks[i] < |slots|
    ensures |r| == |ks|
  {
    seq(|ks|, i requires 0 <= i < |ks| => if ks[i] < m then slots[ks[i]].1 else slots[ks[i]].0)
  }

  /** Applying the slots from `m` on finishes the substitution. */
  lemma {:induction false} SubstituteStages(cs: seq<string>, ks: seq<int>, slots: seq<(string, string)>, m: int)
    requires WellFormedSlots(slots)
    requires |cs| == |ks| + 1 && forall i :: 0 <= i < |cs| ==> BraceFree(cs[i])
    requires forall i :: 0 <= i < |ks| ==> 0 <= ks[i] < |slots|
    requires 0 <= m <= |slots|
    ensures Substitute(Assemble(cs, Stage(ks, slots, m)), slots[m..])
         == Assemble(cs, Stage(ks, slots, |slots|))
    decreases |slots| - m
  {
    if m == |slots| {
      assert slots[m..] == [];
    } else {
      var p := slots[m].0;
      var v := slots[m].1;
      assert IsPlaceholder(p);
      var xs := Stage(ks, slots, m);
      var ys := Stage(ks, slots, m + 1);
      forall i | 0 <= i < |xs|
        ensures || (xs[i] == p && ys[i] == v)
                || (ys[i] == xs[i] && BraceFree(xs[i]))
                || (ys[i] == xs[i] && IsPlaceholder(xs[i]) && !StartsWith(xs[i], p) && !StartsWith(p, xs[i]))
      {
        var k := ks[i];
        if k < m {
          assert BraceFree(slots[k].1);
        } else if k > m {
          assert IsPlaceholder(slots[k].0);
          assert !StartsWith(slots[k].0, p) && !StartsWith(p, slots[k].0);
        }
      }
      ReplaceAssembled(cs, xs, ys, p, v);
      assert slots[m..][0] == slots[m];
      assert slots[m..][1..] == slots[m + 1..];
      SubstituteStages(cs, ks, slots, m + 1);
    }
  }

  /** A template of brace-free text and any of `Generate`'s placeholders,
      in any order and any number of times, comes out with each
      placeholder's value in its place. */
  lemma FillMany(a: Article, cs: seq<string>, ks: seq<int>)
    requires FieldsBraceFree(a)
    requires |cs| == |ks| + 1 && forall i :: 0 <= i < |cs| ==> BraceFree(cs[i])
    requires forall i :: 0 <= i < |ks| ==> 0 <= ks[i] < 6
    ensures Fill(Assemble(cs, seq(|ks|, i requires 0 <= i < |ks| => Placeholders[ks[i]])), a)
         == Assemble(cs, seq(|ks|, i requires 0 <= i < |ks| => Values(a)[ks[i]]))
  {
    var slots := Slots(a);
    StageEnds(a, ks);
    SlotsUnambiguous(a);
    SubstituteStages(cs, ks, slots, 0);
    assert slots[0..] == slots;
    var t := Assemble(cs, Stage(ks, slots, 0));
    assert Fill(t, a) == Substitute(t, slots);
  }

  /** Before the chain every item is its placeholder; after it, its value. */
  lemma StageEnds(a: Article, ks: seq<int>)
    requires forall i :: 0 <= i < |ks| ==> 0 <= ks[i] < 6
    ensures Stage(ks, Slots(a), 0) == seq(|ks|, i requires 0 <= i < |ks| => Placeholders[ks[i]])
    ensures Stage(ks, Slots(a), 6) == seq(|ks|, i requires 0 <= i < |ks| => Values(a)[ks[i]])
  {
  }

  /** Two texts that differ at a position both reach: neither begins the
      other. */
  lemma DifferAt(p: string, q: string, m: int)
    requires 0 <= m < |p| && m < |q| && p[m] != q[m]
    ensures !StartsWith(p, q) && !StartsWith(q, p)
  {
  }

  /** Each of `Generate`'s six names is a placeholder. */
  lemma PlaceholdersWellFormed(a: Article)
    ensures forall k :: 0 <= k < 6 ==> IsPlaceholder(Placeholders[k])
    ensures forall k :: 0 <= k < 6 ==> IsPlaceholder(Slots(a)[k].0)
  {
    assert IsPlaceholder("{Title}") && IsPlaceholder("{URL}") && IsPlaceholder("{Author.Name}");
    assert IsPlaceholder("{Author.URL}") && IsPlaceholder("{Content}") && IsPlaceholder("{URL.List}");
  }

  /** `Generate`'s six placeholders: none begins another. */
  lemma SlotsUnambiguous(a: Article)
    ensures forall k :: 0 <= k < 6 ==> IsPlaceholder(Slots(a)[k].0)
    ensures Unambiguous(Slots(a))
  {
    PlaceholdersWellFormed(a);
    var ps := Placeholders;
    forall i, j | 0 <= i < 6 && 0 <= j < 6 && i != j ensures !StartsWith(ps[i], ps[j]) {
      if ps[i][1] != ps[j][1] {
        DifferAt(ps[i], ps[j], 1);
      } else if {i, j} == {1, 5} {
        DifferAt(ps[i], ps[j], 4);
      } else {
        assert {i, j} == {2, 3};
        DifferAt(ps[i], ps[j], 8);
      }
    }
  }

  predicate FieldsBraceFree(a: Article) {
    forall k :: 0 <= k < 6 ==> BraceFree(Slots(a)[k].1)
  }

  /** A template with one placeholder in brace-free text comes out as that
      text with the placeholder's value in its place, decoded: the title for
      `{Title}`, the texts joined by blank lines for `{Content}`, the
      numbered reference list for `{URL.List}`, and so on. */
  lemma GenerateOneSlot(a: Article, c0: string, k: int, c1: string, decode: string -> string)
    requires BraceFree(c0) && BraceFree(c1) && FieldsBraceFree(a)
    requires 0 <= k < 6
    ensures Generate(a, c0 + Slots(a)[k].0 + c1, decode) == decode(c0 + Slots(a)[k].1 + c1)
  {
    SlotsUnambiguous(a);
    SubstituteOne(c0, c1, Slots(a), k);
  }

  /** Field values are not escaped: a title that spells `{URL}` is itself
      replaced by the article's URL in the next step of the chain. */
  lemma TitleIsNotEscaped(a: Article)
    requires a.title == "{URL}"
    requires BraceFree(a.url) && BraceFree(a.author.name) && BraceFree(a.author.url)
    requires BraceFree(Join("\n\n", a.texts)) && BraceFree(UrlList(a.urls))
    ensures Fill("{Title}", a) == a.url
  {
    var s := Slots(a);
    SlotsUnambiguous(a);
    SlotReplaced("", s[0].0, "", s[0].1);
    assert Fill("{Title}", a) == Substitute("" + s[1].0 + "", s[1..]);
    var rest := s[1..];
    WellFormedTail(s);
    SubstituteOne("", "", rest, 0);
    assert "" + a.url + "" == a.url;
  }
}
