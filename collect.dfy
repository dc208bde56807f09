/** `CollectorService.Collect`: checks the URL against the collected ones,
    fetches and parses the page, loads the per-date counter, opens a branch,
    a file and a pull request on the hosting service, then advances and
    writes back the counter and records the URL. */
module Collecting {
  import opened Wrappers
  import opened Strings
  import opened Dates
  import opened Articles
  import opened Generating
  import Feeds

  /** The outward calls `Collect` makes, in the order it makes them. */
  datatype Effect =
    | Fetched(url: string)
    | BranchCreated(branch: string)
    | FileCreated(branch: string, category: string, filename: string, content: string)
    | PullRequested(branch: string, category: string, filename: string)
    | CounterPersisted(text: string)
    | UrlRecorded(url: string)

  /** The parsed article and the template of the parser the URL selects. */
  datatype Page = Page(article: Article, template: string)

  /** The request: difficulty, category, URL and optional ready content. */
  datatype Request = Request(difficulty: string, category: string, url: string, content: Option<string>)

  /** A success result with the pull-request URL, an error result with a
      message, or an exception. */
  datatype Reply = Ok(prUrl: string) | Error(message: string) | Threw

  /** The collected-URL table, the counter dictionary, the counter file and
      the calls made so far. */
  datatype State = State(collected: set<string>, counter: Counter, counterFile: string, effects: seq<Effect>)

  /** The article with the request's difficulty and category set. */
  function Requested(p: Page, req: Request): (a: Article)
    ensures a.date == p.article.date && a.title == p.article.title
    ensures a.difficulty == req.difficulty && a.category == req.category
  {
    p.article.(difficulty := req.difficulty, category := req.category)
  }

  /** One `Collect` call. `page` is what fetching and parsing yields (None
      when that throws), `prOf` the URL the hosting service returns for a
      pull request, possibly empty. */
  function CollectStep(st: State, req: Request, page: Option<Page>, isWord: char -> bool,
                       decode: string -> string, prOf: (string, string, string) -> string): (r: (Reply, State))
    requires page.Some? ==> ValidDate(page.value.article.date.date)
    ensures st.collected <= r.1.collected && st.effects <= r.1.effects
    ensures r.0.Ok? ==> Feeds.Collected(r.1.collected, req.url) && |r.1.effects| == |st.effects| + 6
    ensures !r.0.Ok? ==> r.1.collected == st.collected && r.1.counterFile == st.counterFile
  {
    if Feeds.Collected(st.collected, req.url) then (Error("Article Exists: " + req.url), st)
    else
      var fetched := st.effects + [Fetched(req.url)];
      match page
      case None => (Threw, st.(effects := fetched))
      case Some(p) =>
        match DeserializeCounter(st.counterFile)
        case None => (Threw, st.(effects := fetched))
        case Some(loaded) =>
          var pl := PlanFor(Requested(p, req), loaded, req.content, p.template, isWord, decode);
          var r := Accept(st.(effects := fetched), req, pl, loaded, prOf);
          assert st.effects <= fetched <= r.1.effects;
          r
  }

  /** What the loaded counter and the page decide: the branch and file
      names, numbered by the counter's value for the article's date, the
      file content (the given one, else the generated article), and that
      date. */
  datatype Plan = Plan(branch: string, filename: string, content: string, date: string)

  function PlanFor(a: Article, loaded: Counter, content: Option<string>, template: string,
                   isWord: char -> bool, decode: string -> string): (pl: Plan)
    requires ValidDate(a.date.date)
    ensures pl.date == FormattedDate(a)
    ensures var n := IntToString(Number(loaded, pl.date));
      && pl.branch == pl.date + "-" + n + "-" + BranchSafeTitle(a.title, isWord)
      && pl.filename == pl.date + "." + n + FileSuffix(a)
    ensures pl.content == if content.Some? then content.value else Generate(a, template, decode)
  {
    Plan(Branch(a, loaded, isWord), Filename(a, loaded),
         if content.Some? then content.value else Generate(a, template, decode), FormattedDate(a))
  }

  /** The rest of `Collect` once the page is parsed and the counter loaded:
      create the branch, the file and the pull request, then advance and
      persist the counter and record the URL. */
  function Accept(st: State, req: Request, pl: Plan, loaded: Counter,
                  prOf: (string, string, string) -> string): (r: (Reply, State))
    requires KeysDistinct(loaded)
    ensures r.0.Ok? && Feeds.Collected(r.1.collected, req.url)
    ensures r.1.collected == st.collected + {TrimEndChar(req.url, '/')}
    ensures st.effects <= r.1.effects && |r.1.effects| == |st.effects| + 5
    ensures r.1.counterFile == SerializeCounter(r.1.counter)
    ensures r.1.counterFile == "" <==> |r.1.counter| == 0
  {
    var counter := Increase(loaded, pl.date);
    var conf := SerializeCounter(counter);
    (Ok(prOf(pl.branch, req.category, pl.filename)),
     State(st.collected + {TrimEndChar(req.url, '/')}, counter, conf,
           st.effects + [BranchCreated(pl.branch)]
             + [FileCreated(pl.branch, req.category, pl.filename, pl.content)]
             + [PullRequested(pl.branch, req.category, pl.filename)] + [CounterPersisted(conf)]
             + [UrlRecorded(req.url)]))
  }

  /** A URL already collected is refused before anything else happens: no
      fetch, no hosting call, no counter or table change. */
  lemma DuplicateRefusedFirst(st: State, req: Request, page: Option<Page>, isWord: char -> bool,
                              decode: string -> string, prOf: (string, string, string) -> string)
    requires page.Some? ==> ValidDate(page.value.article.date.date)
    requires Feeds.Collected(st.collected, req.url)
    ensures CollectStep(st, req, page, isWord, decode, prOf) == (Error("Article Exists: " + req.url), st)
  {
  }

  /** A call that does not succeed calls the hosting service never, and
      leaves the table, the counter and its file as they were. */
  lemma FailureTouchesNoStore(st: State, req: Request, page: Option<Page>, isWord: char -> bool,
                              decode: string -> string, prOf: (string, string, string) -> string)
    requires page.Some? ==> ValidDate(page.value.article.date.date)
    requires !CollectStep(st, req, page, isWord, decode, prOf).0.Ok?
    ensures var st' := CollectStep(st, req, page, isWord, decode, prOf).1;
      && st'.collected == st.collected && st'.counter == st.counter && st'.counterFile == st.counterFile
      && (st'.effects == st.effects || st'.effects == st.effects + [Fetched(req.url)])
  {
  }

  /** The calls `Accept` adds, in order, the URL last. */
  lemma AcceptEffects(st: State, req: Request, pl: Plan, loaded: Counter,
                      prOf: (string, string, string) -> string)
    requires KeysDistinct(loaded)
    ensures var (r, st') := Accept(st, req, pl, loaded, prOf);
      && r == Ok(prOf(pl.branch, req.category, pl.filename))
      && st'.effects == st.effects + [
           BranchCreated(pl.branch),
           FileCreated(pl.branch, req.category, pl.filename, pl.content),
           PullRequested(pl.branch, req.category, pl.filename),
           CounterPersisted(st'.counterFile), UrlRecorded(req.url)]
  {
    var st' := Accept(st, req, pl, loaded, prOf).1;
    var e := st'.effects;
    assert e == st.effects + [e[|st.effects|]] + [e[|st.effects| + 1]] + [e[|st.effects| + 2]]
      + [e[|st.effects| + 3]] + [e[|st.effects| + 4]];
  }

  /** A successful call fetches, then makes the calls `AcceptEffects`
      lists, and answers with whatever the pull-request call returned, the
      empty string included; the names come from the counter as loaded,
      before the increase. */
  lemma SuccessEffects(st: State, req: Request, p: Page, loaded: Counter, isWord: char -> bool,
                       decode: string -> string, prOf: (string, string, string) -> string)
    requires ValidDate(p.article.date.date)
    requires !Feeds.Collected(st.collected, req.url)
    requires DeserializeCounter(st.counterFile) == Some(loaded)
    ensures var pl := PlanFor(Requested(p, req), loaded, req.content, p.template, isWord, decode);
      CollectStep(st, req, Some(p), isWord, decode, prOf)
        == Accept(st.(effects := st.effects + [Fetched(req.url)]), req, pl, loaded, prOf)
  {
  }

  /** `Accept` stores the loaded counter advanced at the plan's date. */
  lemma AcceptCounter(st: State, req: Request, pl: Plan, loaded: Counter,
                      prOf: (string, string, string) -> string)
    requires KeysDistinct(loaded)
    ensures Accept(st, req, pl, loaded, prOf).1.counter == Increase(loaded, pl.date)
  {
  }

  /** After a success the article's date counts one more (modulo 2^32). */
  lemma SuccessCounter(st: State, req: Request, p: Page, loaded: Counter, isWord: char -> bool,
                       decode: string -> string, prOf: (string, string, string) -> string)
    requires ValidDate(p.article.date.date)
    requires !Feeds.Collected(st.collected, req.url)
    requires DeserializeCounter(st.counterFile) == Some(loaded)
    ensures var date := FormatCompact(p.article.date.date);
      var counter := CollectStep(st, req, Some(p), isWord, decode, prOf).1.counter;
      Number(counter, date) == Wrap32(Number(loaded, date) + 1)
  {
    var date := FormatCompact(p.article.date.date);
    SuccessIncreases(st, req, p, loaded, isWord, decode, prOf);
    IncreaseAdvancesNumber(loaded, date);
  }

  /** The first article of a day was numbered 0, and its day now counts 1. */
  lemma SuccessFirstOfDay(st: State, req: Request, p: Page, loaded: Counter, isWord: char -> bool,
                          decode: string -> string, prOf: (string, string, string) -> string)
    requires ValidDate(p.article.date.date)
    requires !Feeds.Collected(st.collected, req.url)
    requires DeserializeCounter(st.counterFile) == Some(loaded)
    requires Lookup(loaded, FormatCompact(p.article.date.date)).None?
    ensures var date := FormatCompact(p.article.date.date);
      var counter := CollectStep(st, req, Some(p), isWord, decode, prOf).1.counter;
      Number(loaded, date) == 0 && Number(counter, date) == 1
  {
    SuccessCounter(st, req, p, loaded, isWord, decode, prOf);
  }

  /** After a success no other date's count changes. */
  lemma SuccessKeepsOtherDates(st: State, req: Request, p: Page, loaded: Counter, isWord: char -> bool,
                               decode: string -> string, prOf: (string, string, string) -> string)
    requires ValidDate(p.article.date.date)
    requires !Feeds.Collected(st.collected, req.url)
    requires DeserializeCounter(st.counterFile) == Some(loaded)
    ensures var date := FormatCompact(p.article.date.date);
      var counter := CollectStep(st, req, Some(p), isWord, decode, prOf).1.counter;
      forall k :: k != date ==> Number(counter, k) == Number(loaded, k)
  {
    var date := FormatCompact(p.article.date.date);
    SuccessIncreases(st, req, p, loaded, isWord, decode, prOf);
    IncreaseAdvancesNumber(loaded, date);
  }

  /** A success stores the loaded counter advanced at the article's date. */
  lemma SuccessIncreases(st: State, req: Request, p: Page, loaded: Counter, isWord: char -> bool,
                         decode: string -> string, prOf: (string, string, string) -> string)
    requires ValidDate(p.article.date.date)
    requires !Feeds.Collected(st.collected, req.url)
    requires DeserializeCounter(st.counterFile) == Some(loaded)
    ensures CollectStep(st, req, Some(p), isWord, decode, prOf).1.counter
      == Increase(loaded, FormatCompact(p.article.date.date))
  {
    var pl := PlanFor(Requested(p, req), loaded, req.content, p.template, isWord, decode);
    SuccessEffects(st, req, p, loaded, isWord, decode, prOf);
    AcceptCounter(st.(effects := st.effects + [Fetched(req.url)]), req, pl, loaded, prOf);
  }

  /** After a success the counter file reads back as the new counter. */
  lemma SuccessPersists(st: State, req: Request, p: Page, isWord: char -> bool,
                        decode: string -> string, prOf: (string, string, string) -> string)
    requires ValidDate(p.article.date.date)
    requires CollectStep(st, req, Some(p), isWord, decode, prOf).0.Ok?
    ensures var st' := CollectStep(st, req, Some(p), isWord, decode, prOf).1;
      DeserializeCounter(st'.counterFile) == Some(st'.counter)
  {
    var date := FormatCompact(p.article.date.date);
    var loaded := DeserializeCounter(st.counterFile).value;
    assert CollectStep(st, req, Some(p), isWord, decode, prOf).1.counter == Increase(loaded, date);
    PersistAfterIncrease(st.counterFile, date);
  }

  /** `TrimEnd('/')` drops nothing more once it has run. */
  lemma TrimEndCharIdempotent(u: string, c: char)
    ensures TrimEndChar(TrimEndChar(u, c), c) == TrimEndChar(u, c)
    ensures TrimEndChar(u + [c], c) == TrimEndChar(u, c)
  {
    assert (u + [c])[..|u|] == u;
  }

  /** Once collected, the same URL, with or without a trailing slash, is
      refused the next time. */
  lemma SecondCallRefused(st: State, req: Request, p: Page, isWord: char -> bool,
                          decode: string -> string, prOf: (string, string, string) -> string,
                          again: Request, page2: Option<Page>)
    requires ValidDate(p.article.date.date)
    requires page2.Some? ==> ValidDate(page2.value.article.date.date)
    requires CollectStep(st, req, Some(p), isWord, decode, prOf).0.Ok?
    requires again.url == req.url || again.url == req.url + "/"
    ensures var st' := CollectStep(st, req, Some(p), isWord, decode, prOf).1;
      CollectStep(st', again, page2, isWord, decode, prOf) == (Error("Article Exists: " + again.url), st')
  {
    TrimEndCharIdempotent(req.url, '/');
  }

  /** The service with its stores: the collected-URL table, the counter
      dictionary shared by all articles, and the counter file. */
  class Collector {
    var collected: set<string>
    var counterFile: string
    var effects: seq<Effect>
    const counts: CounterStore

    ghost predicate Valid()
      reads this, counts
    {
      counts.Valid()
    }

    function Snapshot(): State
      reads this, counts
    {
      State(collected, counts.counter, counterFile, effects)
    }

    constructor (collected: set<string>, counterFile: string, counts: CounterStore)
      requires counts.Valid()
      ensures Valid()
      ensures this.collected == collected && this.counterFile == counterFile
      ensures this.counts == counts && effects == []
    {
      this.collected := collected;
      this.counterFile := counterFile;
      this.counts := counts;
      effects := [];
    }

    /** `Collect(difficulty, category, url, content)`. */
    method Collect(req: Request, page: Option<Page>, isWord: char -> bool,
                   decode: string -> string, prOf: (string, string, string) -> string)
      returns (r: Reply)
      requires Valid()
      requires page.Some? ==> ValidDate(page.value.article.date.date)
      modifies this, counts
      ensures Valid()
      ensures (r, Snapshot()) == CollectStep(old(Snapshot()), req, page, isWord, decode, prOf)
    {
      ghost var st := Snapshot();
      if Feeds.Collected(collected, req.url) {
        return Error("Article Exists: " + req.url);
      }
      effects := effects + [Fetched(req.url)];
      if page.None? {
        return Threw;
      }
      var p := page.value;
      var article := p.article.(difficulty := req.difficulty, category := req.category);
      var ok := counts.Deserialize(counterFile);
      if !ok {
        return Threw;
      }
      assert article == Requested(p, req);
      r := Publish(req, article, p.template, isWord, decode, prOf);
    }

    /** `Collect` from the branch creation on, with the counter loaded. */
    method Publish(req: Request, article: Article, template: string, isWord: char -> bool,
                   decode: string -> string, prOf: (string, string, string) -> string)
      returns (r: Reply)
      requires Valid()
      requires ValidDate(article.date.date)
      modifies this, counts
      ensures Valid()
      ensures (r, Snapshot()) == Accept(old(Snapshot()), req,
        PlanFor(article, old(counts.counter), req.content, template, isWord, decode), old(counts.counter), prOf)
    {
      ghost var plan := PlanFor(article, counts.counter, req.content, template, isWord, decode);
      var branch := Branch(article, counts.counter, isWord);
      effects := effects + [BranchCreated(branch)];
      var content := req.content;
      if content.None? {
        content := Some(Generate(article, template, decode));
      }
      var filename := Filename(article, counts.counter);
      effects := effects + [FileCreated(branch, req.category, filename, content.value)];
      var prUrl := prOf(branch, req.category, filename);
      effects := effects + [PullRequested(branch, req.category, filename)];
      counts.IncreaseCounter(FormattedDate(article));
      counterFile := counts.Serialize();
      effects := effects + [CounterPersisted(counterFile)];
      collected := collected + {TrimEndChar(req.url, '/')};
      effects := effects + [UrlRecorded(req.url)];
      r := Ok(prUrl);
    }
  }
}
