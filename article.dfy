/** The article record and everything derived from it: the sanitised titles,
    the star rating, the file and branch names, and the per-date counter with
    its `date=count` text form. */
module Articles {
  import opened Wrappers
  import opened Strings
  import opened Dates

  datatype Author = Author(name: string, url: string)

  /** `new Author()`: both fields empty. */
  const NoAuthor: Author := Author("", "")

  /** The values a new `Article` starts with before the request sets them. */
  const DefaultDifficulty: string := "easy"
  const DefaultCategory: string := "tech"

  datatype Article = Article(
    title: string,
    author: Author,
    url: string,
    date: DateTime,
    difficulty: string,
    category: string,
    texts: seq<string>,
    urls: seq<string>)

  // ---------------------------------------------------------------------
  // Titles
  // ---------------------------------------------------------------------

  /** The characters `PathSafeTitle` strips: `<>:"/\|?*#`. */
  predicate IsPathUnsafe(c: char) {
    c == '<' || c == '>' || c == ':' || c == '"' || c == '/' || c == '\\' || c == '|'
    || c == '?' || c == '*' || c == '#'
  }

  /** The title with every path-unsafe character deleted: none is left, the
      rest keep their order, and every other character keeps its count. */
  function PathSafeTitle(title: string): (r: string)
    ensures forall i :: 0 <= i < |r| ==> !IsPathUnsafe(r[i])
    ensures IsSubsequence(r, title)
    ensures forall c :: !IsPathUnsafe(c) ==> multiset(r)[c] == multiset(title)[c]
  {
    if |title| == 0 then ""
    else
      var rest := PathSafeTitle(title[1..]);
      assert title == [title[0]] + title[1..];
      if IsPathUnsafe(title[0]) then
        assert rest == [] || rest[0] != title[0];
        rest
      else
        assert ([title[0]] + rest)[1..] == rest;
        [title[0]] + rest
  }

  /** The path-safe title with every non-word character (the regular
      expression class `\W`, decided by `isWord`) turned into `-`. */
  function BranchSafeTitle(title: string, isWord: char -> bool): (r: string)
    ensures |r| == |PathSafeTitle(title)|
    ensures forall i :: 0 <= i < |r| ==> isWord(r[i]) || r[i] == '-'
    ensures forall i :: 0 <= i < |r| && isWord(PathSafeTitle(title)[i]) ==> r[i] == PathSafeTitle(title)[i]
    ensures forall i :: 0 <= i < |r| && !isWord(PathSafeTitle(title)[i]) ==> r[i] == '-'
  {
    var p := PathSafeTitle(title);
    seq(|p|, i requires 0 <= i < |p| => if isWord(p[i]) then p[i] else '-')
  }

  /** A title without path-unsafe characters is already path-safe. */
  lemma {:induction false} PathSafeKeepsSafeTitle(title: string)
    requires forall i :: 0 <= i < |title| ==> !IsPathUnsafe(title[i])
    ensures PathSafeTitle(title) == title
  {
    if |title| > 0 {
      PathSafeKeepsSafeTitle(title[1..]);
    }
  }

  // ---------------------------------------------------------------------
  // Rating and names
  // ---------------------------------------------------------------------

  /** U+2B50 followed by the emoji presentation selector U+FE0F. */
  const Star: string := "\U{2B50}\U{FE0F}"

  function Stars(n: nat): (r: string)
    ensures |r| == 2 * n
  {
    if n == 0 then "" else Star + Stars(n - 1)
  }

  /** One star for "easy" and for anything unknown, two for "medium", three
      for "hard". */
  function Twinkle(difficulty: string): (r: string)
    ensures r == Stars(1) || r == Stars(2) || r == Stars(3)
    ensures r == Stars(2) <==> difficulty == "medium"
    ensures r == Stars(3) <==> difficulty == "hard"
  {
    match difficulty
    case "easy" => Star
    case "medium" => Star + Star
    case "hard" => Star + Star + Star
    case _ => Star
  }

  function FormattedDate(a: Article): (r: string)
    requires ValidDate(a.date.date)
    ensures |r| == 8 && AllDigits(r)
  {
    FormatCompact(a.date.date)
  }

  /** `counter.GetValueOrDefault(FormattedDate)`. */
  function Number(c: Counter, date: string): int {
    match Lookup(c, date)
    case Some(v) => v
    case None => 0
  }

  /** A date with no entry numbers 0; with distinct keys, a date's number is
      its entry's value. */
  lemma NumberOfEntry(c: Counter, date: string)
    ensures (forall i :: 0 <= i < |c| ==> c[i].0 != date) ==> Number(c, date) == 0
    ensures KeysDistinct(c) ==> forall i :: 0 <= i < |c| && c[i].0 == date ==> Number(c, date) == c[i].1
  {
  }

  /** `{FormattedDate}.{Number} {Twinkle(Difficulty)} {PathSafeTitle}.md`. */
  function Filename(a: Article, c: Counter): (r: string)
    requires ValidDate(a.date.date)
    ensures StartsWith(r, FormattedDate(a) + ".")
    ensures EndsWith(r, PathSafeTitle(a.title) + ".md")
  {
    var p := FormattedDate(a) + ".";
    var f := IntToString(Number(c, FormattedDate(a))) + FileSuffix(a);
    StartsWithBefore(p, f);
    EndsWithAfter(IntToString(Number(c, FormattedDate(a))), FileSuffix(a), PathSafeTitle(a.title) + ".md");
    EndsWithAfter(p, f, PathSafeTitle(a.title) + ".md");
    assert p + f == p + IntToString(Number(c, FormattedDate(a))) + FileSuffix(a);
    p + f
  }

  /** The part of the file name after the sequence number: a space, the
      stars, a space and the path-safe title with `.md`. */
  function FileSuffix(a: Article): (r: string)
    ensures StartsWith(r, " " + Twinkle(a.difficulty) + " ")
    ensures EndsWith(r, PathSafeTitle(a.title) + ".md")
  {
    var p := " " + Twinkle(a.difficulty) + " ";
    var e := PathSafeTitle(a.title) + ".md";
    StartsWithBefore(p, e);
    var r := p + e;
    assert r[|r| - |e|..] == e;
    r
  }

  /** The file name as date-and-dot, number, and the rated, path-safe
      title: `{FormattedDate}.{Number} {Twinkle(Difficulty)} {PathSafeTitle}.md`. */
  lemma FilenameParts(a: Article, c: Counter)
    requires ValidDate(a.date.date)
    ensures Filename(a, c)
      == (FormattedDate(a) + ".") + IntToString(Number(c, FormattedDate(a)))
         + (" " + Twinkle(a.difficulty) + " " + PathSafeTitle(a.title) + ".md")
  {
  }

  /** Two articles that differ only in difficulty, with different ratings,
      get different file names: the rating is part of the name. */
  lemma FilenameShowsRating(a: Article, d: string, c: Counter)
    requires ValidDate(a.date.date)
    requires Twinkle(a.difficulty) != Twinkle(d)
    ensures Filename(a, c) != Filename(a.(difficulty := d), c)
  {
    var b := a.(difficulty := d);
    var p := (FormattedDate(a) + ".") + IntToString(Number(c, FormattedDate(a)));
    var t := PathSafeTitle(a.title) + ".md";
    var ta, tb := Twinkle(a.difficulty), Twinkle(d);
    FilenameParts(a, c);
    FilenameParts(b, c);
    assert |Filename(a, c)| == |p| + 2 + |ta| + |t|;
    assert |Filename(b, c)| == |p| + 2 + |tb| + |t|;
    assert |ta| != |tb|;
  }

  /** Only digits, `-` and word characters. */
  predicate RefSafe(r: string, isWord: char -> bool) {
    forall i :: 0 <= i < |r| ==> IsDigit(r[i]) || r[i] == '-' || isWord(r[i])
  }

  lemma RefSafeConcat(x: string, y: string, isWord: char -> bool)
    requires RefSafe(x, isWord) && RefSafe(y, isWord)
    ensures RefSafe(x + y, isWord)
  {
    forall i | |x| <= i < |x + y| ensures (x + y)[i] == y[i - |x|] { }
  }

  /** Three safe parts joined by `-` make a safe name. */
  lemma RefSafeBranch(d: string, n: string, t: string, isWord: char -> bool)
    requires RefSafe(d, isWord) && RefSafe(n, isWord) && RefSafe(t, isWord)
    ensures RefSafe(d + "-" + n + "-" + t, isWord)
    ensures StartsWith(d + "-" + n + "-" + t, d + "-")
  {
    var x := d + "-";
    assert RefSafe("-", isWord);
    RefSafeConcat(d, "-", isWord);
    RefSafeConcat(x, n, isWord);
    RefSafeConcat(x + n, "-", isWord);
    RefSafeConcat(x + n + "-", t, isWord);
    StartsWithBefore(x, n + "-" + t);
    assert x + (n + "-" + t) == d + "-" + n + "-" + t;
  }

  /** `{FormattedDate}-{Number}-{BranchSafeTitle}`. */
  function Branch(a: Article, c: Counter, isWord: char -> bool): (r: string)
    requires ValidDate(a.date.date)
    ensures StartsWith(r, FormattedDate(a) + "-")
    ensures RefSafe(r, isWord)
  {
    var d := FormattedDate(a);
    var n := IntToString(Number(c, d));
    var t := BranchSafeTitle(a.title, isWord);
    assert RefSafe(d, isWord);
    assert RefSafe(n, isWord);
    assert RefSafe(t, isWord);
    RefSafeBranch(d, n, t, isWord);
    d + "-" + n + "-" + t
  }

  /** The branch name as date-and-dash, number, and dash-and-title. */
  lemma BranchParts(a: Article, c: Counter, isWord: char -> bool)
    requires ValidDate(a.date.date)
    ensures Branch(a, c, isWord)
      == (FormattedDate(a) + "-") + IntToString(Number(c, FormattedDate(a))) + ("-" + BranchSafeTitle(a.title, isWord))
  {
  }

  /** The text between a fixed prefix and a fixed suffix is determined. */
  lemma MiddleDetermined(p: string, m1: string, m2: string, t: string)
    requires p + m1 + t == p + m2 + t
    ensures m1 == m2
  {
    var s := p + m1 + t;
    assert |m1| == |m2|;
    assert m1 == s[|p|..|p| + |m1|];
    assert m2 == (p + m2 + t)[|p|..|p| + |m2|];
  }

  /** Two counters that give the article's date different sequence numbers
      give it different branch names ... */
  lemma BranchDistinguishesNumbers(a: Article, c1: Counter, c2: Counter, isWord: char -> bool)
    requires ValidDate(a.date.date)
    requires Number(c1, FormattedDate(a)) != Number(c2, FormattedDate(a))
    ensures Branch(a, c1, isWord) != Branch(a, c2, isWord)
  {
    var d := FormattedDate(a);
    var n1 := IntToString(Number(c1, d));
    var n2 := IntToString(Number(c2, d));
    var bt := "-" + BranchSafeTitle(a.title, isWord);
    BranchParts(a, c1, isWord);
    BranchParts(a, c2, isWord);
    if Branch(a, c1, isWord) == Branch(a, c2, isWord) {
      MiddleDetermined(d + "-", n1, n2, bt);
      IntToStringInjective(Number(c1, d), Number(c2, d));
    }
  }

  /** ... and different file names. */
  lemma FilenameDistinguishesNumbers(a: Article, c1: Counter, c2: Counter)
    requires ValidDate(a.date.date)
    requires Number(c1, FormattedDate(a)) != Number(c2, FormattedDate(a))
    ensures Filename(a, c1) != Filename(a, c2)
  {
    var d := FormattedDate(a);
    var n1 := IntToString(Number(c1, d));
    var n2 := IntToString(Number(c2, d));
    var ft := FileSuffix(a);
    if Filename(a, c1) == Filename(a, c2) {
      assert Filename(a, c1) == (d + ".") + n1 + FileSuffix(a);
      assert Filename(a, c2) == (d + ".") + n2 + FileSuffix(a);
      MiddleDetermined(d + ".", n1, n2, ft);
      IntToStringInjective(Number(c1, d), Number(c2, d));
    }
  }

  // ---------------------------------------------------------------------
  // The per-date counter
  // ---------------------------------------------------------------------

  /** The counter dictionary, as its entries in insertion order (the order in
      which a `Dictionary` without removals enumerates them). */
  type Counter = seq<(string, int)>

  predicate KeysDistinct(c: Counter) {
    forall i, j :: 0 <= i < j < |c| ==> c[i].0 != c[j].0
  }

  function Lookup(c: Counter, key: string): (r: Option<int>)
    ensures r.Some? <==> exists i :: 0 <= i < |c| && c[i].0 == key
    ensures KeysDistinct(c) ==> forall i :: 0 <= i < |c| && c[i].0 == key ==> r == Some(c[i].1)
  {
    if |c| == 0 then None
    else if c[0].0 == key then Some(c[0].1)
    else
      var r := Lookup(c[1..], key);
      assert forall i :: 1 <= i < |c| ==> c[i] == c[1..][i - 1];
      r
  }

  /** The entries with `key`'s value replaced by `v`, in the same order. */
  function SetValue(c: Counter, key: string, v: int): (r: Counter)
    ensures |r| == |c|
    ensures forall i :: 0 <= i < |c| ==> r[i].0 == c[i].0
    ensures forall i :: 0 <= i < |c| ==> r[i].1 == if c[i].0 == key then v else c[i].1
  {
    seq(|c|, i requires 0 <= i < |c| => if c[i].0 == key then (key, v) else c[i])
  }

  /** `IncreaseCounter(date)` as a value: an absent date enters last with 1,
      a present one goes up by one (with 32-bit wrap-around), and no other
      entry changes. */
  function Increase(c: Counter, date: string): (r: Counter)
    requires KeysDistinct(c)
    ensures KeysDistinct(r)
    ensures Lookup(r, date) == Some(if Lookup(c, date).Some? then Wrap32(Lookup(c, date).value + 1) else 1)
    ensures forall k :: k != date ==> Lookup(r, k) == Lookup(c, k)
    ensures Lookup(c, date).None? ==> r == c + [(date, 1)]
    ensures Lookup(c, date).Some? ==> |r| == |c| && forall i :: 0 <= i < |c| ==> r[i].0 == c[i].0
  {
    match Lookup(c, date)
    case Some(v) =>
      var r := SetValue(c, date, Wrap32(v + 1));
      forall k ensures Lookup(r, k) == if k == date then Some(Wrap32(v + 1)) else Lookup(c, k) {
        LookupSetValue(c, date, Wrap32(v + 1), k);
      }
      r
    case None =>
      var r := c + [(date, 1)];
      forall k ensures Lookup(r, k) == if k == date then Some(1) else Lookup(c, k) {
        LookupAppend(c, (date, 1), k);
      }
      r
  }

  lemma {:induction false} LookupAppend(c: Counter, e: (string, int), k: string)
    ensures Lookup(c + [e], k) == if Lookup(c, k).Some? then Lookup(c, k) else if e.0 == k then Some(e.1) else None
  {
    if |c| > 0 {
      assert (c + [e])[1..] == c[1..] + [e];
      LookupAppend(c[1..], e, k);
    }
  }

  lemma {:induction false} LookupSetValue(c: Counter, key: string, v: int, k: string)
    ensures Lookup(SetValue(c, key, v), k) == if k == key && Lookup(c, k).Some? then Some(v) else Lookup(c, k)
  {
    if |c| > 0 {
      assert SetValue(c, key, v)[1..] == SetValue(c[1..], key, v);
      LookupSetValue(c[1..], key, v, k);
    }
  }

  lemma LookupAt(c: Counter, key: string)
    requires KeysDistinct(c)
    ensures forall i :: 0 <= i < |c| && c[i].0 == key ==> Lookup(c, key) == Some(c[i].1)
    ensures (forall i :: 0 <= i < |c| ==> c[i].0 != key) ==> Lookup(c, key) == None
  {
  }

  /** After an increase the article's sequence number for that date has risen
      by exactly one: the first article of a day is 0 and the next 1. */
  lemma IncreaseAdvancesNumber(c: Counter, date: string)
    requires KeysDistinct(c)
    ensures Number(Increase(c, date), date) == Wrap32(Number(c, date) + 1)
    ensures forall k :: k != date ==> Number(Increase(c, date), k) == Number(c, k)
  {
  }

  /** The key of a counter line: it holds neither `=` nor a line break. */
  predicate SafeKey(k: string) {
    '=' !in k && '\n' !in k
  }

  /** What a counter must satisfy to survive a write and a read: distinct
      keys that hold neither separator, and 32-bit values. */
  predicate WellFormed(c: Counter) {
    && KeysDistinct(c)
    && (forall i :: 0 <= i < |c| ==> SafeKey(c[i].0))
    && (forall i :: 0 <= i < |c| ==> IsInt32(c[i].1))
  }

  function Line(entry: (string, int)): string {
    entry.0 + "=" + IntToString(entry.1)
  }

  function Lines(c: Counter): (r: seq<string>)
    ensures |r| == |c| && forall i :: 0 <= i < |c| ==> r[i] == Line(c[i])
  {
    seq(|c|, i requires 0 <= i < |c| => Line(c[i]))
  }

  /** `SerializeCounter`: one `date=count` line per entry, joined by `\n`. */
  function SerializeCounter(c: Counter): (r: string)
    ensures r == "" <==> |c| == 0
  {
    var r := Join("\n", Lines(c));
    assert |c| > 0 ==> |Line(c[0])| > 0 && |r| >= |Lines(c)[0]|;
    r
  }

  /** One line of the counter file: the text before the first `=` is the key
      and the text between the first and second `=` must parse as an `int`. */
  function ParseLine(line: string): (r: Option<(string, int)>)
    ensures r.Some? ==> SafeKey(r.value.0) || '\n' in line
    ensures r.Some? ==> IsInt32(r.value.1)
  {
    var parts := Split(line, '=');
    if |parts| < 2 then None
    else
      match ParseInt32(parts[1])
      case None => None
      case Some(v) => Some((parts[0], v))
  }

  /** `ToDictionary` over the lines: fails on any bad line and on a
      repeated key, and keeps the lines' order otherwise. */
  function ToCounter(lines: seq<string>): (r: Option<Counter>)
    ensures r.Some? ==> KeysDistinct(r.value) && |r.value| == |lines|
    ensures r.Some? && (forall i :: 0 <= i < |lines| ==> '\n' !in lines[i]) ==> WellFormed(r.value)
  {
    if |lines| == 0 then Some([])
    else
      match ToCounter(lines[..|lines| - 1])
      case None => None
      case Some(prev) =>
        match ParseLine(lines[|lines| - 1])
        case None => None
        case Some(entry) =>
          if Lookup(prev, entry.0).Some? then None
          else
            assert forall i :: 0 <= i < |lines| - 1 ==> lines[..|lines| - 1][i] == lines[i];
            Some(prev + [entry])
  }

  /** `DeserializeCounter`: split at `\n`, then each line at `=`. */
  function DeserializeCounter(conf: string): (r: Option<Counter>)
    ensures r.Some? ==> WellFormed(r.value) && |r.value| >= 1
  {
    ToCounter(Split(conf, '\n'))
  }

  lemma LineParses(entry: (string, int))
    requires SafeKey(entry.0) && IsInt32(entry.1)
    ensures ParseLine(Line(entry)) == Some(entry)
  {
    var num := IntToString(entry.1);
    assert '=' !in num by {
      forall i | 0 <= i < |num| ensures num[i] != '=' { }
    }
    assert Join("=", [entry.0, num]) == Line(entry);
    SplitJoin([entry.0, num], '=');
    ParseIntToString(entry.1);
  }

  /** Reading one more good line with a new key appends its entry. */
  lemma ToCounterSnoc(lines: seq<string>, line: string, prev: Counter, entry: (string, int))
    requires ToCounter(lines) == Some(prev)
    requires ParseLine(line) == Some(entry)
    requires Lookup(prev, entry.0).None?
    ensures ToCounter(lines + [line]) == Some(prev + [entry])
  {
    assert (lines + [line])[..|lines|] == lines;
  }

  lemma {:induction false} ToCounterOfLines(c: Counter)
    requires WellFormed(c)
    ensures ToCounter(Lines(c)) == Some(c)
  {
    if |c| > 0 {
      var init := c[..|c| - 1];
      var last := c[|c| - 1];
      assert c == init + [last];
      assert forall i :: 0 <= i < |init| ==> init[i] == c[i];
      assert Lines(c) == Lines(init) + [Line(last)];
      assert WellFormed(init);
      ToCounterOfLines(init);
      LineParses(last);
      assert Lookup(init, last.0).None? by {
        assert forall i :: 0 <= i < |init| ==> init[i].0 != last.0;
      }
      ToCounterSnoc(Lines(init), Line(last), init, last);
    }
  }

  /** Writing a non-empty well-formed counter and reading it back gives the
      same entries in the same order. */
  lemma SerializeRoundTrip(c: Counter)
    requires |c| >= 1 && WellFormed(c)
    ensures DeserializeCounter(SerializeCounter(c)) == Some(c)
  {
    var lines := Lines(c);
    forall i | 0 <= i < |lines| ensures '\n' !in lines[i] {
      var num := IntToString(c[i].1);
      assert lines[i] == c[i].0 + "=" + num;
      assert '\n' !in num by {
        forall j | 0 <= j < |num| ensures num[j] != '\n' { }
      }
    }
    SplitJoin(lines, '\n');
    ToCounterOfLines(c);
  }

  /** The empty counter writes the empty text, and the empty text does not
      read back: its one line has no `=`. */
  lemma EmptyCounterDoesNotRoundTrip()
    ensures SerializeCounter([]) == ""
    ensures DeserializeCounter("") == None
  {
    SplitEmpty('\n');
    SplitEmpty('=');
  }

  /** A counter read from text, increased for a date and written again,
      reads back as the increased counter. */
  lemma PersistAfterIncrease(conf: string, date: string)
    requires DeserializeCounter(conf).Some?
    requires SafeKey(date)
    ensures var c := Increase(DeserializeCounter(conf).value, date);
            DeserializeCounter(SerializeCounter(c)) == Some(c)
  {
    var c0 := DeserializeCounter(conf).value;
    var c := Increase(c0, date);
    forall i | 0 <= i < |c| ensures SafeKey(c[i].0) && IsInt32(c[i].1) {
      if Lookup(c0, date).None? {
        if i < |c0| { assert c[i] == c0[i]; }
      } else {
        assert c[i].0 == c0[i].0;
        LookupAt(c, c[i].0);
        LookupAt(c0, c[i].0);
      }
    }
    SerializeRoundTrip(c);
  }

  /** The counter dictionary `Article.counter`: replaced by
      `DeserializeCounter`, updated in place by `IncreaseCounter`. */
  class CounterStore {
    var counter: Counter

    ghost predicate Valid()
      reads this
    {
      KeysDistinct(counter)
    }

    constructor ()
      ensures Valid() && counter == []
    {
      counter := [];
    }

    /** Replaces the dictionary by the parsed text; a text that does not
        parse throws before the assignment and leaves the dictionary as it
        was. */
    method Deserialize(conf: string) returns (ok: bool)
      modifies this
      ensures Valid() || (!ok && counter == old(counter))
      ensures ok == DeserializeCounter(conf).Some?
      ensures counter == if ok then DeserializeCounter(conf).value else old(counter)
    {
      var parsed := DeserializeCounter(conf);
      ok := parsed.Some?;
      if ok {
        counter := parsed.value;
      }
    }

    function Serialize(): (r: string)
      reads this
      ensures r == "" <==> |counter| == 0
    {
      SerializeCounter(counter)
    }

    /** Adds the date with the default value 0 when it is absent, then
        increments its value. */
    method IncreaseCounter(date: string)
      requires Valid()
      modifies this
      ensures Valid()
      ensures counter == Increase(old(counter), date)
    {
      if Lookup(counter, date).None? {
        LookupAppend(counter, (date, 0), date);
        counter := counter + [(date, 0)];
      }
      var v := Lookup(counter, date).value;
      counter := SetValue(counter, date, Wrap32(v + 1));
      if Lookup(old(counter), date).None? {
        assert counter == old(counter) + [(date, 1)];
      }
    }
  }
}
