/** `CollectorService.Feed`: validates the date range, then keeps the loaded
    feed items published within it whose URL has not been collected, orders
    them by publication time and, on request, groups them by day. */
module Feeds {
  import opened Wrappers
  import opened Strings
  import opened Dates
  import opened Summaries

  /** An item as the syndication reader yields it; `published` is already
      converted to local time. */
  datatype Entry = Entry(title: string, url: string, summary: string, published: DateTime)

  /** A `Feed` record. */
  datatype FeedItem = FeedItem(title: string, url: string, summary: string, pubDate: DateTime)

  // ---------------------------------------------------------------------
  // Loading one feed
  // ---------------------------------------------------------------------

  /** The items one feed contributes: its entries in order, each with a
      cleaned summary, up to the first entry whose summary throws; the
      exception ends the feed and is swallowed. */
  function Loaded(entries: seq<Entry>, decode: string -> string): (r: seq<FeedItem>)
    ensures |r| <= |entries|
    ensures |r| < |entries| ==> CleanSummarySpec(entries[|r|].summary, UnwantedTags, decode).Failure?
  {
    if |entries| == 0 then []
    else
      var e := entries[0];
      match CleanSummarySpec(e.summary, UnwantedTags, decode)
      case Failure(_) => []
      case Success(summary) => [FeedItem(e.title, e.url, summary, e.published)] + Loaded(entries[1..], decode)
  }

  /** Item `i` is entry `i` with its cleaned summary, and the items stop
      short of the entries only at an entry whose summary throws. */
  lemma {:induction false} LoadedItems(entries: seq<Entry>, decode: string -> string)
    ensures var r := Loaded(entries, decode);
      && |r| <= |entries|
      && (forall i :: 0 <= i < |r| ==>
            && CleanSummarySpec(entries[i].summary, UnwantedTags, decode).Success?
            && r[i] == FeedItem(entries[i].title, entries[i].url,
                                CleanSummarySpec(entries[i].summary, UnwantedTags, decode).value,
                                entries[i].published))
      && (|r| < |entries| ==> CleanSummarySpec(entries[|r|].summary, UnwantedTags, decode).Failure?)
  {
    if |entries| > 0 {
      LoadedItems(entries[1..], decode);
    }
  }

  /** Whether loading the feed never ends: the first entry whose summary
      cannot be cleaned is one whose clean-up loops forever. */
  predicate Stalls(entries: seq<Entry>, decode: string -> string) {
    && |entries| > 0
    && match CleanSummarySpec(entries[0].summary, UnwantedTags, decode)
       case Failure(f) => f == Diverges
       case Success(_) => Stalls(entries[1..], decode)
  }

  /** A feed stalls exactly when the entry its items stop short at is one
      whose clean-up loops forever. */
  lemma {:induction false} StallsAtStop(entries: seq<Entry>, decode: string -> string)
    ensures var n := |Loaded(entries, decode)|;
      Stalls(entries, decode) <==>
        n < |entries| && CleanSummarySpec(entries[n].summary, UnwantedTags, decode) == Failure(Diverges)
  {
    if |entries| > 0 {
      var c := CleanSummarySpec(entries[0].summary, UnwantedTags, decode);
      if c.Success? {
        StallsAtStop(entries[1..], decode);
        var n := |Loaded(entries[1..], decode)|;
        assert |Loaded(entries, decode)| == n + 1;
        if n < |entries[1..]| {
          assert entries[1..][n] == entries[n + 1];
        }
      }
    }
  }

  /** `LoadFeeds(url)` for one feed whose entries were read: adds each entry
      to `feeds` in turn until a summary throws; `hangs` tells that a
      summary's clean-up never ends, so its `Task` never completes. */
  method LoadFeeds(feeds: seq<FeedItem>, entries: seq<Entry>, decode: string -> string)
    returns (feeds': seq<FeedItem>, hangs: bool)
    ensures feeds' == feeds + Loaded(entries, decode)
    ensures hangs == Stalls(entries, decode)
  {
    feeds' := feeds;
    var i := 0;
    while i < |entries|
      invariant 0 <= i <= |entries|
      invariant feeds' + Loaded(entries[i..], decode) == feeds + Loaded(entries, decode)
      invariant Stalls(entries[i..], decode) == Stalls(entries, decode)
    {
      var e := entries[i];
      var summary := CleanSummary(e.summary, UnwantedTags, decode);
      assert entries[i..][1..] == entries[i + 1..];
      if summary.Failure? {
        assert Loaded(entries[i..], decode) == [];
        return feeds', summary.error == Diverges;
      }
      var item := FeedItem(e.title, e.url, summary.value, e.published);
      assert Loaded(entries[i..], decode) == [item] + Loaded(entries[i + 1..], decode);
      feeds' := feeds' + [item];
      i := i + 1;
    }
    return feeds', false;
  }

  /** The items of all feeds, feed after feed. */
  function LoadedAll(feeds: seq<seq<Entry>>, decode: string -> string): (r: seq<FeedItem>)
    ensures |r| <= |Flatten(feeds)|
  {
    if |feeds| == 0 then []
    else
      LoadedItems(feeds[0], decode);
      Loaded(feeds[0], decode) + LoadedAll(feeds[1..], decode)
  }

  function Flatten(feeds: seq<seq<Entry>>): seq<Entry> {
    if |feeds| == 0 then [] else feeds[0] + Flatten(feeds[1..])
  }

  // ---------------------------------------------------------------------
  // Filtering
  // ---------------------------------------------------------------------

  /** The collected-URL store compares URLs without their trailing slashes. */
  predicate Collected(store: set<string>, url: string) {
    TrimEndChar(url, '/') in store
  }

  /** `PubDate.ToString("yyyy-MM-dd")`. A `DateTime` always holds a valid
      date, so the empty key is never produced for a real item. */
  function Day(f: FeedItem): string {
    if ValidDate(f.pubDate.date) then FormatIso(f.pubDate.date) else ""
  }

  /** The conditions the items are filtered by. */
  datatype Criterion =
    | Within(lo: DateTime, hi: DateTime)
    | NotCollected(store: set<string>)
    | At(t: DateTime)
    | OnDay(key: string)

  predicate Holds(c: Criterion, f: FeedItem) {
    match c
    case Within(lo, hi) => AtOrBefore(lo, f.pubDate) && AtOrBefore(f.pubDate, hi)
    case NotCollected(store) => !Collected(store, f.url)
    case At(t) => f.pubDate == t
    case OnDay(key) => Day(f) == key
  }

  /** `Where`: the items meeting `c`, in their order. */
  function Keep(s: seq<FeedItem>, c: Criterion): (r: seq<FeedItem>)
    ensures |r| <= |s|
    ensures forall i :: 0 <= i < |r| ==> Holds(c, r[i])
  {
    if |s| == 0 then []
    else
      var rest := Keep(s[1..], c);
      if Holds(c, s[0]) then [s[0]] + rest else rest
  }

  /** `Keep` holds each item meeting `c` as often as the input does, and no
      other. */
  lemma {:induction false} KeepCount(s: seq<FeedItem>, c: Criterion)
    ensures forall x :: multiset(Keep(s, c))[x] == if Holds(c, x) then multiset(s)[x] else 0
  {
    if |s| > 0 {
      KeepCount(s[1..], c);
      assert s == [s[0]] + s[1..];
    }
  }

  lemma {:induction false} KeepSnoc(s: seq<FeedItem>, x: FeedItem, c: Criterion)
    ensures Keep(s + [x], c) == Keep(s, c) + (if Holds(c, x) then [x] else [])
  {
    if |s| > 0 {
      assert (s + [x])[1..] == s[1..] + [x];
      KeepSnoc(s[1..], x, c);
    } else {
      assert s + [x] == [x];
    }
  }

  lemma {:induction false} KeepNone(s: seq<FeedItem>, c: Criterion)
    requires forall i :: 0 <= i < |s| ==> !Holds(c, s[i])
    ensures Keep(s, c) == []
  {
    if |s| > 0 {
      KeepNone(s[1..], c);
    }
  }

  // ---------------------------------------------------------------------
  // Ordering: a stable sort by publication time (`OrderBy`)
  // ---------------------------------------------------------------------

  predicate Sorted(s: seq<FeedItem>) {
    forall i, j :: 0 <= i < j < |s| ==> AtOrBefore(s[i].pubDate, s[j].pubDate)
  }

  lemma AtOrBeforeTotal(a: DateTime, b: DateTime)
    ensures AtOrBefore(a, b) || AtOrBefore(b, a)
  {
  }

  lemma AtOrBeforeTransitive(a: DateTime, b: DateTime, c: DateTime)
    requires AtOrBefore(a, b) && AtOrBefore(b, c)
    ensures AtOrBefore(a, c)
  {
  }

  /** Inserts `x` after every item published no later than it. */
  function Insert(x: FeedItem, s: seq<FeedItem>): (r: seq<FeedItem>)
    ensures multiset(r) == multiset(s) + multiset{x}
  {
    if |s| == 0 then [x]
    else if !AtOrBefore(s[0].pubDate, x.pubDate) then [x] + s
    else
      assert s == [s[0]] + s[1..];
      [s[0]] + Insert(x, s[1..])
  }

  /** Each item in turn is inserted into the already ordered ones. */
  function SortByDate(s: seq<FeedItem>): (r: seq<FeedItem>)
    ensures multiset(r) == multiset(s)
  {
    if |s| == 0 then []
    else
      assert s == s[..|s| - 1] + [s[|s| - 1]];
      Insert(s[|s| - 1], SortByDate(s[..|s| - 1]))
  }

  lemma {:induction false} InsertSorted(x: FeedItem, s: seq<FeedItem>)
    requires Sorted(s)
    ensures Sorted(Insert(x, s))
  {
    if |s| > 0 {
      var r := Insert(x, s);
      if !AtOrBefore(s[0].pubDate, x.pubDate) {
        AtOrBeforeTotal(s[0].pubDate, x.pubDate);
        forall j | 1 <= j < |r| ensures AtOrBefore(x.pubDate, r[j].pubDate) {
          assert r[j] == s[j - 1];
          if j > 1 { AtOrBeforeTransitive(x.pubDate, s[0].pubDate, s[j - 1].pubDate); }
        }
      } else {
        var tail := Insert(x, s[1..]);
        InsertSorted(x, s[1..]);
        forall j | 0 <= j < |tail| ensures AtOrBefore(s[0].pubDate, tail[j].pubDate) {
          assert tail[j] in multiset(tail);
          if tail[j] != x {
            assert tail[j] in s[1..];
          }
        }
        assert r == [s[0]] + tail;
      }
    }
  }

  /** The result of the sort is ordered by publication time. */
  lemma {:induction false} SortSorted(s: seq<FeedItem>)
    ensures Sorted(SortByDate(s))
  {
    if |s| > 0 {
      SortSorted(s[..|s| - 1]);
      InsertSorted(s[|s| - 1], SortByDate(s[..|s| - 1]));
    }
  }

  /** Inserting `x` puts it after every item published at the same moment. */
  lemma {:induction false} InsertStable(x: FeedItem, s: seq<FeedItem>, t: DateTime)
    requires Sorted(s)
    ensures Keep(Insert(x, s), At(t)) == Keep(s, At(t)) + (if x.pubDate == t then [x] else [])
  {
    if |s| == 0 {
    } else if !AtOrBefore(s[0].pubDate, x.pubDate) {
      if x.pubDate == t {
        forall i | 0 <= i < |s| ensures !Holds(At(t), s[i]) {
          if i > 0 { AtOrBeforeTransitive(s[0].pubDate, s[i].pubDate, s[i].pubDate); }
        }
        KeepNone(s, At(t));
      }
      assert Insert(x, s)[1..] == s;
    } else {
      InsertStable(x, s[1..], t);
      assert Insert(x, s)[1..] == Insert(x, s[1..]);
    }
  }

  /** A non-empty sequence is its front followed by its last item. */
  lemma LastSplit(s: seq<FeedItem>)
    requires |s| > 0
    ensures s == s[..|s| - 1] + [s[|s| - 1]]
  {
  }

  /** `OrderBy` is stable: items published at the same moment keep the order
      they were loaded in. */
  lemma {:induction false} SortStable(s: seq<FeedItem>, t: DateTime)
    ensures Keep(SortByDate(s), At(t)) == Keep(s, At(t))
  {
    if |s| > 0 {
      var init := s[..|s| - 1];
      var x := s[|s| - 1];
      SortStable(init, t);
      SortSorted(init);
      InsertStable(x, SortByDate(init), t);
      LastSplit(s);
      KeepSnoc(init, x, At(t));
    }
  }

  // ---------------------------------------------------------------------
  // Grouping by day (`GroupBy` then `ToDictionary`)
  // ---------------------------------------------------------------------

  /** Position of the group keyed `k`, or -1. */
  function KeyIndex(g: seq<(string, seq<FeedItem>)>, k: string): (r: int)
    ensures -1 <= r < |g|
    ensures r >= 0 ==> g[r].0 == k
    ensures r == -1 ==> forall i :: 0 <= i < |g| ==> g[i].0 != k
  {
    if |g| == 0 then -1
    else if g[|g| - 1].0 == k then |g| - 1
    else KeyIndex(g[..|g| - 1], k)
  }

  /** Adds `x` to the group keyed `k`, or opens that group at the end. */
  function AddToGroup(g: seq<(string, seq<FeedItem>)>, k: string, x: FeedItem): seq<(string, seq<FeedItem>)> {
    var i := KeyIndex(g, k);
    if i < 0 then g + [(k, [x])] else g[i := (k, g[i].1 + [x])]
  }

  function GroupByDay(s: seq<FeedItem>): (r: seq<(string, seq<FeedItem>)>)
    ensures |r| <= |s|
  {
    if |s| == 0 then []
    else
      var x := s[|s| - 1];
      AddToGroup(GroupByDay(s[..|s| - 1]), Day(x), x)
  }

  predicate KeysDistinct(g: seq<(string, seq<FeedItem>)>) {
    forall i, j :: 0 <= i < j < |g| ==> g[i].0 != g[j].0
  }

  /** What adding to the groups does to each group. */
  lemma AddToGroupFacts(g: seq<(string, seq<FeedItem>)>, k: string, x: FeedItem)
    requires KeysDistinct(g)
    ensures var r := AddToGroup(g, k, x);
      && KeysDistinct(r)
      && (KeyIndex(g, k) < 0 ==> |r| == |g| + 1 && r[|g|] == (k, [x]))
      && (KeyIndex(g, k) >= 0 ==> |r| == |g|)
      && KeyIndex(r, k) >= 0
      && forall i :: 0 <= i < |g| ==>
           r[i].0 == g[i].0 && r[i].1 == g[i].1 + (if g[i].0 == k then [x] else [])
  {
    var r := AddToGroup(g, k, x);
    var n := KeyIndex(g, k);
    KeyIndexFinds(r, k, if n < 0 then |g| else n);
  }

  /** The groups are keyed by distinct days, and every item's day is a key. */
  lemma {:induction false} GroupKeys(s: seq<FeedItem>)
    ensures KeysDistinct(GroupByDay(s))
    ensures forall j :: 0 <= j < |s| ==> KeyIndex(GroupByDay(s), Day(s[j])) >= 0
  {
    if |s| > 0 {
      var init := s[..|s| - 1];
      var x := s[|s| - 1];
      var g0 := GroupByDay(init);
      var g := GroupByDay(s);
      GroupKeys(init);
      AddToGroupFacts(g0, Day(x), x);
      forall j | 0 <= j < |s| ensures KeyIndex(g, Day(s[j])) >= 0 {
        if j < |init| {
          assert s[j] == init[j];
          var m := KeyIndex(g0, Day(init[j]));
          KeyIndexFinds(g, Day(s[j]), m);
        }
      }
    }
  }

  /** The group keyed `k` holds exactly the items of day `k`, in their order,
      so never none. */
  lemma {:induction false} GroupContents(s: seq<FeedItem>)
    ensures forall i :: 0 <= i < |GroupByDay(s)| ==>
      GroupByDay(s)[i].1 == Keep(s, OnDay(GroupByDay(s)[i].0)) && GroupByDay(s)[i].1 != []
  {
    if |s| > 0 {
      var init := s[..|s| - 1];
      var x := s[|s| - 1];
      var g0 := GroupByDay(init);
      var g := GroupByDay(s);
      GroupContents(init);
      GroupKeys(init);
      AddToGroupFacts(g0, Day(x), x);
      assert s == init + [x];
      forall i | 0 <= i < |g| ensures g[i].1 == Keep(s, OnDay(g[i].0)) && g[i].1 != [] {
        KeepSnoc(init, x, OnDay(g[i].0));
        if i == |g0| {
          forall j | 0 <= j < |init| ensures !Holds(OnDay(Day(x)), init[j]) {
            assert KeyIndex(g0, Day(init[j])) >= 0;
          }
          KeepNone(init, OnDay(Day(x)));
        }
      }
    }
  }

  lemma {:induction false} KeyIndexFinds(g: seq<(string, seq<FeedItem>)>, k: string, m: int)
    requires 0 <= m < |g| && g[m].0 == k
    ensures KeyIndex(g, k) >= 0
  {
    if g[|g| - 1].0 != k {
      KeyIndexFinds(g[..|g| - 1], k, m);
    }
  }

  // ---------------------------------------------------------------------
  // Feed
  // ---------------------------------------------------------------------

  /** What `Feed` can end in besides success: an error result carrying a
      message, an exception (`AddDays(1)` past the last representable
      day), or no end at all (`Task.WaitAll` waits on a feed that stalls). */
  datatype FeedFailure = Rejected(message: string) | Thrown | Hangs

  datatype FeedOutput = Flat(items: seq<FeedItem>) | Grouped(groups: seq<(string, seq<FeedItem>)>)

  /** The items kept, in order: within the window, not collected, sorted. */
  function Selected(loaded: seq<FeedItem>, lo: DateTime, hi: DateTime, store: set<string>): (r: seq<FeedItem>)
    ensures Sorted(r) && |r| <= |loaded|
    ensures forall i :: 0 <= i < |r| ==> Holds(NotCollected(store), r[i])
  {
    var kept := Keep(Keep(loaded, Within(lo, hi)), NotCollected(store));
    var r := SortByDate(kept);
    SortSorted(kept);
    assert |r| == |multiset(r)| == |multiset(kept)| == |kept|;
    assert forall i :: 0 <= i < |r| ==> Holds(NotCollected(store), r[i]) by {
      forall i | 0 <= i < |r| ensures Holds(NotCollected(store), r[i]) {
        assert r[i] in multiset(r);
        assert r[i] in multiset(kept);
        var j :| 0 <= j < |kept| && kept[j] == r[i];
      }
    }
    r
  }

  /** `Feed(startDate, endDate, groupBy)`, with `today` the clock's date and
      `loaded` the items the feeds yielded, in whatever order they arrived. */
  function Feed(startDate: string, endDate: Option<string>, groupBy: Option<bool>, today: Date,
                loaded: seq<FeedItem>, store: set<string>): (r: Result<FeedOutput, FeedFailure>)
    requires ValidDate(today)
    ensures r != Failure(Hangs)
  {
    var end := if endDate.Some? then endDate.value else FormatCompact(today);
    match ParseCompact(startDate)
    case None => Failure(Rejected(startDate + " is NOT a legal date."))
    case Some(s) =>
      match ParseCompact(end)
      case None => Failure(Rejected(end + " is NOT a legal date."))
      case Some(e) =>
        if DateBefore(e, s) then Failure(Rejected(startDate + " is later than " + end + "."))
        else
          match NextDay(e)
          case None => Failure(Thrown)
          case Some(e1) =>
            var items := Selected(loaded, Midnight(s), Midnight(e1), store);
            if groupBy.GetOr(false) then Success(Grouped(GroupByDay(items)))
            else Success(Flat(items))
  }

  /** The checks come first: whether and how `Feed` fails depends on the
      dates alone, not on the items, the store or the grouping flag. */
  lemma ValidationFirst(startDate: string, endDate: Option<string>, today: Date,
                        g1: Option<bool>, loaded1: seq<FeedItem>, store1: set<string>,
                        g2: Option<bool>, loaded2: seq<FeedItem>, store2: set<string>)
    requires ValidDate(today)
    requires Feed(startDate, endDate, g1, today, loaded1, store1).Failure?
    ensures Feed(startDate, endDate, g2, today, loaded2, store2)
         == Feed(startDate, endDate, g1, today, loaded1, store1)
  {
  }

  /** The messages, in the order the checks are made. */
  lemma Rejections(startDate: string, endDate: string, today: Date, g: Option<bool>,
                   loaded: seq<FeedItem>, store: set<string>)
    requires ValidDate(today)
    ensures var r := Feed(startDate, Some(endDate), g, today, loaded, store);
      && (ParseCompact(startDate).None? ==> r == Failure(Rejected(startDate + " is NOT a legal date.")))
      && (ParseCompact(startDate).Some? && ParseCompact(endDate).None? ==>
            r == Failure(Rejected(endDate + " is NOT a legal date.")))
      && (ParseCompact(startDate).Some? && ParseCompact(endDate).Some? ==>
            (r == Failure(Rejected(startDate + " is later than " + endDate + "."))
             <==> DateBefore(ParseCompact(endDate).value, ParseCompact(startDate).value)))
  {
  }

  /** Without an end date the range ends today, which always parses. */
  lemma DefaultEndIsToday(startDate: string, today: Date, g: Option<bool>,
                          loaded: seq<FeedItem>, store: set<string>)
    requires ValidDate(today)
    ensures ParseCompact(FormatCompact(today)) == Some(today)
    ensures Feed(startDate, None, g, today, loaded, store)
         == Feed(startDate, Some(FormatCompact(today)), g, today, loaded, store)
  {
    FormatThenParse(today);
  }

  /** Parsed start and end dates of a range `Feed` accepts. */
  predicate Accepted(startDate: string, endDate: string, s: Date, e: Date) {
    ParseCompact(startDate) == Some(s) && ParseCompact(endDate) == Some(e)
    && !DateBefore(e, s) && e != LastDate
  }

  /** The flat result: ordered by publication time; it holds each loaded
      item exactly as often as it was loaded when the item's day lies from
      the start through the end date, or it is exactly midnight after the
      end date, and its URL has not been collected, and otherwise not at
      all. */
  lemma FlatResult(startDate: string, endDate: string, s: Date, e: Date, today: Date,
                   loaded: seq<FeedItem>, store: set<string>)
    requires ValidDate(today) && Accepted(startDate, endDate, s, e)
    requires forall i :: 0 <= i < |loaded| ==> ValidDateTime(loaded[i].pubDate)
    ensures Feed(startDate, Some(endDate), None, today, loaded, store).Success?
    ensures var r := Feed(startDate, Some(endDate), None, today, loaded, store).value;
      && r.Flat?
      && Sorted(r.items)
      && forall x: FeedItem :: multiset(r.items)[x] ==
           if ValidDateTime(x.pubDate) && !Collected(store, x.url)
              && ((DateAtOrBefore(s, x.pubDate.date) && DateAtOrBefore(x.pubDate.date, e))
                  || x.pubDate == Midnight(NextDay(e).value))
           then multiset(loaded)[x] else 0
  {
    var hi := Midnight(NextDay(e).value);
    var items := Selected(loaded, Midnight(s), hi, store);
    var within := Keep(loaded, Within(Midnight(s), hi));
    SortSorted(Keep(within, NotCollected(store)));
    KeepCount(loaded, Within(Midnight(s), hi));
    KeepCount(within, NotCollected(store));
    forall x: FeedItem ensures multiset(items)[x] ==
           if ValidDateTime(x.pubDate) && !Collected(store, x.url)
              && ((DateAtOrBefore(s, x.pubDate.date) && DateAtOrBefore(x.pubDate.date, e))
                  || x.pubDate == hi)
           then multiset(loaded)[x] else 0
    {
      if ValidDateTime(x.pubDate) {
        WindowByDay(x.pubDate, s, e);
      } else {
        assert x !in loaded;
      }
    }
  }

  /** Items published at the same moment come out in the order they were
      loaded. */
  lemma FlatStable(startDate: string, endDate: string, today: Date, loaded: seq<FeedItem>,
                   store: set<string>, t: DateTime)
    requires ValidDate(today)
    requires Feed(startDate, Some(endDate), None, today, loaded, store).Success?
    ensures var r := Feed(startDate, Some(endDate), None, today, loaded, store).value;
      r.Flat? && Keep(r.items, At(t)) == Keep(Keep(Keep(loaded, Within(Midnight(ParseCompact(startDate).value),
                                  Midnight(NextDay(ParseCompact(endDate).value).value))),
                                  NotCollected(store)), At(t))
  {
    var lo := Midnight(ParseCompact(startDate).value);
    var hi := Midnight(NextDay(ParseCompact(endDate).value).value);
    SortStable(Keep(Keep(loaded, Within(lo, hi)), NotCollected(store)), t);
  }

  /** Grouping regroups the flat result: the same items, by day, each group
      in the flat order. */
  lemma GroupedResult(startDate: string, endDate: Option<string>, today: Date,
                      loaded: seq<FeedItem>, store: set<string>)
    requires ValidDate(today)
    requires Feed(startDate, endDate, None, today, loaded, store).Success?
    ensures var flat := Feed(startDate, endDate, None, today, loaded, store).value.items;
      var r := Feed(startDate, endDate, Some(true), today, loaded, store);
      && r == Success(Grouped(GroupByDay(flat)))
      && KeysDistinct(r.value.groups)
      && (forall j :: 0 <= j < |flat| ==> KeyIndex(r.value.groups, Day(flat[j])) >= 0)
      && forall i :: 0 <= i < |r.value.groups| ==>
           r.value.groups[i].1 == Keep(flat, OnDay(r.value.groups[i].0))
  {
    var flat := Feed(startDate, endDate, None, today, loaded, store).value.items;
    GroupKeys(flat);
    GroupContents(flat);
  }

  /** Whether some feed stalls. */
  predicate AnyStalls(feeds: seq<seq<Entry>>, decode: string -> string) {
    exists k | 0 <= k < |feeds| :: Stalls(feeds[k], decode)
  }

  /** Whether `Feed` gets past its checks does not depend on the items. */
  lemma ChecksPass(startDate: string, endDate: Option<string>, groupBy: Option<bool>, today: Date,
                   loaded1: seq<FeedItem>, loaded2: seq<FeedItem>, store: set<string>)
    requires ValidDate(today)
    requires Feed(startDate, endDate, groupBy, today, loaded1, store).Success?
    ensures Feed(startDate, endDate, groupBy, today, loaded2, store).Success?
  {
    if Feed(startDate, endDate, groupBy, today, loaded2, store).Failure? {
      ValidationFirst(startDate, endDate, today, groupBy, loaded2, store, groupBy, loaded1, store);
    }
  }

  /** `Feed` from the feeds' entries: the dates are checked and the range
      widened before any feed is read; then every feed is read, and one that
      stalls keeps `Task.WaitAll` waiting forever. */
  function FeedOfEntries(startDate: string, endDate: Option<string>, groupBy: Option<bool>, today: Date,
                         feeds: seq<seq<Entry>>, decode: string -> string, store: set<string>)
    : Result<FeedOutput, FeedFailure>
    requires ValidDate(today)
  {
    var checked := Feed(startDate, endDate, groupBy, today, [], store);
    if checked.Failure? then checked
    else if AnyStalls(feeds, decode) then Failure(Hangs)
    else Feed(startDate, endDate, groupBy, today, LoadedAll(feeds, decode), store)
  }

  /** `Feed` hangs exactly when the dates pass and some feed stalls, and
      otherwise ends as `Feed` over the items all feeds yield. */
  lemma FeedOfEntriesResult(startDate: string, endDate: Option<string>, groupBy: Option<bool>, today: Date,
                            feeds: seq<seq<Entry>>, decode: string -> string, store: set<string>)
    requires ValidDate(today)
    ensures var r := FeedOfEntries(startDate, endDate, groupBy, today, feeds, decode, store);
      var f := Feed(startDate, endDate, groupBy, today, LoadedAll(feeds, decode), store);
      && (r == Failure(Hangs) <==> f.Success? && AnyStalls(feeds, decode))
      && (r != Failure(Hangs) ==> r == f)
  {
    var loaded := LoadedAll(feeds, decode);
    if Feed(startDate, endDate, groupBy, today, [], store).Failure? {
      ValidationFirst(startDate, endDate, today, groupBy, [], store, groupBy, loaded, store);
    } else {
      ChecksPass(startDate, endDate, groupBy, today, [], loaded, store);
    }
  }

  /** A summary that opens a tag at its start and never closes it, in the
      first entry of any feed, keeps `Feed` from ever returning once the
      dates pass. */
  lemma OneStallHangsFeed(startDate: string, endDate: Option<string>, groupBy: Option<bool>, today: Date,
                          feeds: seq<seq<Entry>>, k: int, decode: string -> string, store: set<string>)
    requires ValidDate(today)
    requires Feed(startDate, endDate, groupBy, today, [], store).Success?
    requires 0 <= k < |feeds| && |feeds[k]| > 0 && feeds[k][0].summary == "<b"
    ensures FeedOfEntries(startDate, endDate, groupBy, today, feeds, decode, store) == Failure(Hangs)
  {
    ExampleSummaryStalls(decode);
    assert Stalls(feeds[k], decode);
    assert AnyStalls(feeds, decode);
  }
}
