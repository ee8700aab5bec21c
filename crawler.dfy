/** The decision logic of crawler_src/crawl.py: the consent-button search,
    the stepwise scroll, the abort/continue decision for tracker requests,
    and the crawl of every URL in its allow and block variants, each crawl
    wrapped in a catch-all.

    The browser is abstracted: what a page answers to the consent queries,
    whether its load succeeds and how long it takes, its scroll height and
    whether the steps after consent complete are given per crawl by a
    `Visit`; `tld.get_fld` is a parameter. */
module Crawler {
  import opened Base
  import opened Text
  import opened Statistics
  import opened BlockList

  // ---------------------------------------------------------------------
  // Consent

  /** What the page answers to the consent queries: whether
      `button:has-text("<word>")` finds a button, and whether clicking it
      raises (a Playwright timeout). */
  datatype Page = Page(hasButton: string -> bool, clickRaises: string -> bool)

  /** How `accept_cookie` ends: it clicked the button for `word`, found no
      button for any word, or raised while clicking the button for `word`. */
  datatype Consent = Clicked(word: string) | NotFound | ClickRaised(word: string)

  /** The accept words a word file gives: its lines, stripped. */
  function AcceptWords(lines: seq<string>): (words: seq<string>)
    ensures |words| == |lines|
  {
    seq(|lines|, k requires 0 <= k < |lines| => Strip(lines[k]))
  }

  /** The first word that has a button. */
  function FirstWithButton(page: Page, words: seq<string>): (r: Option<nat>)
    ensures r.Some? ==> r.value < |words| && page.hasButton(words[r.value])
    ensures forall k :: 0 <= k < |words| && (r.None? || k < r.value) ==> !page.hasButton(words[k])
    decreases |words|
  {
    if |words| == 0 then None
    else if page.hasButton(words[0]) then Some(0)
    else
      match FirstWithButton(page, words[1..])
      case None => None
      case Some(k) => Some(k + 1)
  }

  /** The outcome of `accept_cookie` for a page and the accept words. */
  function ConsentOf(page: Page, words: seq<string>): Consent {
    match FirstWithButton(page, words)
    case None => NotFound
    case Some(k) =>
      if page.clickRaises(words[k]) then ClickRaised(words[k]) else Clicked(words[k])
  }

  /** At most one button is clicked, and it is the button of the first word,
      in file order, that has one. */
  lemma FirstMatchWins(page: Page, words: seq<string>, j: nat)
    requires j < |words| && page.hasButton(words[j])
    ensures !ConsentOf(page, words).NotFound?
    ensures exists k :: (0 <= k <= j && ConsentOf(page, words).word == words[k] &&
      page.hasButton(words[k]) && forall i :: 0 <= i < k ==> !page.hasButton(words[i]))
  {
    var k := FirstWithButton(page, words).value;
    assert k <= j;
  }

  /** No button is clicked exactly when no word has one. */
  lemma NotFoundIffNoButton(page: Page, words: seq<string>)
    ensures ConsentOf(page, words) == NotFound <==> forall k :: 0 <= k < |words| ==> !page.hasButton(words[k])
  {
  }

  /** The consent when the first word with a button is the `i`-th. */
  lemma ConsentAt(page: Page, words: seq<string>, i: nat)
    requires i < |words| && page.hasButton(words[i])
    requires forall k :: 0 <= k < i ==> !page.hasButton(words[k])
    ensures ConsentOf(page, words) == if page.clickRaises(words[i]) then ClickRaised(words[i]) else Clicked(words[i])
  {
    var r := FirstWithButton(page, words);
    assert r == Some(i);
  }

  /** A line of the word file is the word itself once its line break is
      stripped. */
  lemma StripLine(w: string)
    requires |w| > 0 && !IsSpace(w[0]) && !IsSpace(w[|w| - 1])
    ensures Strip(w + "\n") == w
  {
    var line := w + "\n";
    assert line[0] == w[0];
    assert TrimStart(line) == line;
    assert line[..|line| - 1] == w;
    assert TrimEnd(line) == TrimEnd(w);
    assert TrimEnd(w) == w;
  }

  /** A page with buttons for `agree` and `accept` gets its `agree` button
      clicked when the word file lists `agree` first. */
  lemma AgreeBeforeAccept(page: Page)
    requires page.hasButton("agree") && page.hasButton("accept") && !page.clickRaises("agree")
    ensures ConsentOf(page, AcceptWords(["agree\n", "accept\n"])) == Clicked("agree")
  {
    StripLine("agree");
    assert "agree" + "\n" == "agree\n";
    assert AcceptWords(["agree\n", "accept\n"])[0] == "agree";
  }

  /** The reading of the word file at the start of `accept_cookie`. */
  method ReadAcceptWords(wordFileLines: seq<string>) returns (words: seq<string>)
    ensures words == AcceptWords(wordFileLines)
  {
    words := ReadLinesOfFile(wordFileLines);
  }

  /** The loop of `accept_cookie` over the accept words: the first word
      with a button has it clicked, and the loop stops there. */
  method ClickFirstAcceptButton(page: Page, acceptWords: seq<string>) returns (consent: Consent)
    ensures consent == ConsentOf(page, acceptWords)
  {
    var foundAcceptButtonOrLink := false;
    consent := NotFound;
    var i := 0;
    while i < |acceptWords|
      invariant 0 <= i <= |acceptWords|
      invariant forall k :: 0 <= k < i ==> !page.hasButton(acceptWords[k])
      invariant !foundAcceptButtonOrLink
    {
      var word := acceptWords[i];
      if page.hasButton(word) {
        foundAcceptButtonOrLink := true;
        ConsentAt(page, acceptWords, i);
        if page.clickRaises(word) {
          return ClickRaised(word);
        }
        consent := Clicked(word);
        break;
      }
      i := i + 1;
    }
    if !foundAcceptButtonOrLink {
      NotFoundIffNoButton(page, acceptWords);
    }
  }

  /** `accept_cookie`: reads the word file, tries the words in turn and
      clicks the first button found; without one, the domain of the URL is
      recorded in `failed_to_find_accept`. A raising click escapes before
      that record. */
  method AcceptCookie(page: Page, statsCrawler: StatisticsCrawler, url: string, fld: string -> string, wordFileLines: seq<string>)
    returns (consent: Consent)
    modifies statsCrawler
    ensures consent == ConsentOf(page, AcceptWords(wordFileLines))
    ensures consent.NotFound? ==>
      statsCrawler.stats == old(statsCrawler.stats).(failedToFindAccept := old(statsCrawler.stats).failedToFindAccept + {fld(url)})
    ensures !consent.NotFound? ==> statsCrawler.stats == old(statsCrawler.stats)
  {
    var acceptWords := ReadAcceptWords(wordFileLines);
    consent := ClickFirstAcceptButton(page, acceptWords);
    if consent.NotFound? {
      var domainOfUrl := fld(url);
      var raised := statsCrawler.UpdateStatSingleSet("failed_to_find_accept", domainOfUrl);
    }
  }

  // ---------------------------------------------------------------------
  // Scrolling

  const ScrollStep: int := 200

  /** The number of 200-pixel steps that reach `maxHeight`: its ceiling
      divided by the step, none for a height of zero or less. */
  function StepCount(maxHeight: int): (n: nat)
    ensures n * ScrollStep >= maxHeight
    ensures n > 0 ==> (n - 1) * ScrollStep < maxHeight
    ensures maxHeight <= 0 <==> n == 0
  {
    if maxHeight <= 0 then 0 else (maxHeight + ScrollStep - 1) / ScrollStep
  }

  /** `scroll_to_bottom_in_multiple_steps`: the amounts passed to
      `window.scrollBy`, in order, and the final tracked position; the
      height is read once. */
  method ScrollToBottomInMultipleSteps(maxHeight: int) returns (scrolls: seq<int>, scrollPosition: int)
    ensures |scrolls| == StepCount(maxHeight) + 1
    ensures forall k :: 0 <= k < |scrolls| - 1 ==> scrolls[k] == ScrollStep
    ensures scrolls[|scrolls| - 1] == ScrollStep * 20
    ensures scrollPosition == StepCount(maxHeight) * ScrollStep
    ensures scrollPosition >= maxHeight && (maxHeight > 0 ==> scrollPosition < maxHeight + ScrollStep)
  {
    var scrollStep := ScrollStep;
    scrollPosition := 0;
    scrolls := [];
    while scrollPosition < maxHeight
      invariant scrollPosition == |scrolls| * scrollStep
      invariant forall k :: 0 <= k < |scrolls| ==> scrolls[k] == scrollStep
      invariant |scrolls| <= StepCount(maxHeight)
      decreases maxHeight - scrollPosition
    {
      scrolls := scrolls + [scrollStep];
      scrollPosition := scrollPosition + scrollStep;
    }
    scrolls := scrolls + [scrollStep * 20];
  }

  // ---------------------------------------------------------------------
  // Blocking tracker requests

  datatype RouteAction = Abort | Continue

  /** `block_tracker_requests`: a request is aborted exactly when the
      first-level domain of its URL is on the block list. */
  function BlockTrackerRequests(fld: string -> string, requestUrl: string, blockList: seq<Json>): (action: RouteAction)
    ensures action == Abort <==> JString(fld(requestUrl)) in blockList
  {
    var domainOfRequestUrl := fld(requestUrl);
    if JString(domainOfRequestUrl) in blockList then Abort else Continue
  }

  /** What happens to a request of a page: with no route installed it
      continues, otherwise the route decides. */
  function Handle(route: Option<seq<Json>>, fld: string -> string, requestUrl: string): RouteAction {
    match route
    case None => Continue
    case Some(blockList) => BlockTrackerRequests(fld, requestUrl, blockList)
  }

  // ---------------------------------------------------------------------
  // One crawl

  /** What the browser and the files give one crawl. */
  datatype Visit = Visit(
    services: Json,             // services.json as json.load returns it
    wordFileLines: seq<string>, // the lines of accept_words.txt
    loads: bool,                // page.goto and the wait for the load state succeed
    loadTime: real,             // end_time - start_time
    preConsent: bool,           // the 10-second wait and the pre-consent screenshot succeed
    page: Page,                 // the answers to the consent queries
    maxHeight: int,             // document.body.scrollHeight
    finishes: bool)             // the later screenshot, waits, scroll and video rename succeed

  /** The world the crawls see. The browser's report is given per crawl:
      by URL, variant and position in the list, so a URL listed twice may
      load, time and consent differently at its two positions. */
  datatype Environment = Environment(
    fld: string -> string,          // tld.get_fld
    visit: (string, bool, int) -> Visit) // the crawl of a URL, allowing or blocking, at its position in the list

  /** The crawl reaches the load-time record: the block list loads and the
      page loads. */
  predicate RecordsSample(env: Environment, url: string, block: bool, urlIndex: int) {
    EmailBlockList(env.visit(url, block, urlIndex).services).Success? && env.visit(url, block, urlIndex).loads
  }

  /** The statistics after `crawler` for one URL and variant, whatever it
      raised: the load time is appended, then, once the wait and the
      pre-consent screenshot succeed, `failed_to_find_accept` or `time_out`
      gets the URL's domain when no button was found or the click raised.
      Nothing is recorded when the block list or the page fails to load, or
      when the index is out of range. */
  function CrawlEffect(env: Environment, url: string, block: bool, urlIndex: int, s: Stats): Stats {
    var v := env.visit(url, block, urlIndex);
    if !RecordsSample(env, url, block, urlIndex) then s
    else
      match AppendSample(s, "page_load_times", block, v.loadTime, urlIndex)
      case Failure(_) => s
      case Success(s1) =>
        if !v.preConsent then s1
        else ConsentEffect(ConsentOf(v.page, AcceptWords(v.wordFileLines)), env.fld(url), s1)
  }

  /** What the consent step records for a crawl of a URL with domain
      `urlDomain`: `accept_cookie` adds it to `failed_to_find_accept` when
      no button is found, the `except` around it adds it to `time_out` when
      the click raises. */
  function ConsentEffect(consent: Consent, urlDomain: string, s: Stats): Stats {
    match consent
    case NotFound => s.(failedToFindAccept := s.failedToFindAccept + {urlDomain})
    case ClickRaised(_) => s.(timeOut := s.timeOut + {urlDomain})
    case Clicked(_) => s
  }

  /** `crawler`: one crawl of `url`, allowing or blocking trackers. It
      returns the exception that escaped, if any, and the block list of the
      route it installed on the page, if any. */
  method Crawl(env: Environment, url: string, blockTrackers: bool, statsCrawler: StatisticsCrawler, urlIndex: int)
    returns (raised: Option<Exception>, route: Option<seq<Json>>)
    modifies statsCrawler
    ensures statsCrawler.stats == CrawlEffect(env, url, blockTrackers, urlIndex, old(statsCrawler.stats))
    ensures route.Some? <==> blockTrackers && EmailBlockList(env.visit(url, blockTrackers, urlIndex).services).Success?
    ensures route.Some? ==> route.value == EmailBlockList(env.visit(url, blockTrackers, urlIndex).services).value
    ensures raised.None? <==>
      && RecordsSample(env, url, blockTrackers, urlIndex)
      && AppendSample(old(statsCrawler.stats), "page_load_times", blockTrackers, env.visit(url, blockTrackers, urlIndex).loadTime, urlIndex).Success?
      && env.visit(url, blockTrackers, urlIndex).preConsent
      && env.visit(url, blockTrackers, urlIndex).finishes
  {
    var urlDomain := env.fld(url);
    var v := env.visit(url, blockTrackers, urlIndex);
    route := None;
    var blockList := LoadBlockList(v.services);
    if blockList.Failure? {
      return Some(blockList.error), None;
    }
    if blockTrackers {
      route := Some(blockList.value);
    }
    if !v.loads {
      return Some(BrowserError), route;
    }
    raised := statsCrawler.UpdateStat("page_load_times", blockTrackers, v.loadTime, urlIndex);
    if raised.Some? {
      return raised, route;
    }
    if !v.preConsent {
      return Some(BrowserError), route;
    }
    var consent := AcceptCookie(v.page, statsCrawler, url, env.fld, v.wordFileLines);
    if consent.ClickRaised? {
      var timeOutRaised := statsCrawler.UpdateStatSingleSet("time_out", urlDomain);
    }
    var scrolls, scrollPosition := ScrollToBottomInMultipleSteps(v.maxHeight);
    if !v.finishes {
      return Some(BrowserError), route;
    }
    raised := None;
  }

  /** An allow crawl never aborts a request; a block crawl aborts exactly
      the requests whose domain is on the list loaded from the `Email`
      category. */
  lemma RouteOnlyWhenBlocking(env: Environment, url: string, blockTrackers: bool, urlIndex: int, route: Option<seq<Json>>, requestUrl: string)
    requires route.Some? <==> blockTrackers && EmailBlockList(env.visit(url, blockTrackers, urlIndex).services).Success?
    requires route.Some? ==> route.value == EmailBlockList(env.visit(url, blockTrackers, urlIndex).services).value
    ensures !blockTrackers ==> Handle(route, env.fld, requestUrl) == Continue
    ensures Handle(route, env.fld, requestUrl) == Abort <==>
      && blockTrackers
      && EmailBlockList(env.visit(url, blockTrackers, urlIndex).services).Success?
      && JString(env.fld(requestUrl)) in EmailBlockList(env.visit(url, blockTrackers, urlIndex).services).value
  {
  }

  /** `run_crawler`: one crawl, every exception swallowed. */
  method RunCrawler(env: Environment, url: string, blockTrackers: bool, statsCrawler: StatisticsCrawler, urlIndex: int, numUrls: int)
    modifies statsCrawler
    ensures statsCrawler.stats == CrawlEffect(env, url, blockTrackers, urlIndex, old(statsCrawler.stats))
  {
    var raised, route := Crawl(env, url, blockTrackers, statsCrawler, urlIndex);
  }

  // ---------------------------------------------------------------------
  // All crawls

  /** The crawls `main` runs, in order, as (URL index, blocking): for each
      of the first `n` URLs the allow crawl, then the block crawl when
      blocking is asked for. */
  function Schedule(n: nat, blockTrackers: bool): seq<(nat, bool)>
    decreases n
  {
    if n == 0 then []
    else Schedule(n - 1, blockTrackers) + [(n - 1, false)] + (if blockTrackers then [(n - 1, true)] else [])
  }

  /** Without blocking, the crawls are the allow crawls of the URLs in
      order; with blocking, each allow crawl is directly followed by the
      block crawl of the same URL. */
  lemma {:induction false} ScheduleShape(n: nat, blockTrackers: bool)
    ensures |Schedule(n, blockTrackers)| == (if blockTrackers then 2 * n else n)
    ensures !blockTrackers ==> forall i :: 0 <= i < n ==> Schedule(n, blockTrackers)[i] == (i, false)
    ensures blockTrackers ==> forall i :: 0 <= i < n ==>
      Schedule(n, blockTrackers)[2 * i] == (i, false) && Schedule(n, blockTrackers)[2 * i + 1] == (i, true)
    decreases n
  {
    if n > 0 {
      ScheduleShape(n - 1, blockTrackers);
    }
  }

  /** The statistics after the crawls of the first `m` URLs, from a fresh
      store: the allow crawl of each URL, then its block crawl when blocking
      is asked for. */
  function StatsAfterUrls(env: Environment, urls: seq<string>, blockTrackers: bool, m: nat): Stats
    requires m <= |urls|
    decreases m
  {
    if m == 0 then InitialStats(|urls|)
    else
      var allowed := CrawlEffect(env, urls[m - 1], false, m - 1, StatsAfterUrls(env, urls, blockTrackers, m - 1));
      if blockTrackers then CrawlEffect(env, urls[m - 1], true, m - 1, allowed) else allowed
  }

  /** `main` after the arguments are read: a store for the URLs, every URL
      crawled allowing trackers and, when asked, blocking them; a crawl that
      raises does not stop the others. Returns what `get_stats` gives after
      the loop, and the crawls run; the `export_to_json(debug)` call that
      follows names a variable `main` never defines. */
  method CrawlAll(env: Environment, urls: seq<string>, blockTrackers: bool) returns (stats: Stats, crawls: seq<(nat, bool)>)
    ensures crawls == Schedule(|urls|, blockTrackers)
    ensures stats == StatsAfterUrls(env, urls, blockTrackers, |urls|)
  {
    var statsCrawler := new StatisticsCrawler(|urls|);
    crawls := [];
    for urlIndex := 0 to |urls|
      invariant crawls == Schedule(urlIndex, blockTrackers)
      invariant statsCrawler.stats == StatsAfterUrls(env, urls, blockTrackers, urlIndex)
    {
      var url := urls[urlIndex];
      RunCrawler(env, url, false, statsCrawler, urlIndex, |urls|);
      crawls := crawls + [(urlIndex, false)];
      if blockTrackers {
        RunCrawler(env, url, true, statsCrawler, urlIndex, |urls|);
        crawls := crawls + [(urlIndex, true)];
      }
    }
    stats := statsCrawler.GetStats();
  }

  /** The load-time lists after the crawls of the first `m` URLs: one
      sample for a crawl that got as far as loading the page, none
      otherwise, and none for the URLs not crawled yet. */
  predicate LoadTimesUpTo(env: Environment, urls: seq<string>, blockTrackers: bool, m: nat, s: Stats) {
    && (forall block :: |Samples(s, block)| == |urls|)
    && (forall i :: 0 <= i < |urls| ==>
          Samples(s, false)[i] == Recorded(env, urls[i], false, i, i < m))
    && (forall i :: 0 <= i < |urls| ==>
          Samples(s, true)[i] == Recorded(env, urls[i], true, i, blockTrackers && i < m))
  }

  /** The samples a crawl that `ran` leaves in its URL's list. */
  function Recorded(env: Environment, url: string, block: bool, urlIndex: int, ran: bool): seq<real> {
    if ran && RecordsSample(env, url, block, urlIndex) then [env.visit(url, block, urlIndex).loadTime] else []
  }

  /** The crawls of URL `m - 1` extend the lists of the first `m - 1` URLs
      to those of the first `m`. */
  lemma LoadTimesStep(env: Environment, urls: seq<string>, blockTrackers: bool, m: nat, s0: Stats)
    requires 0 < m <= |urls|
    requires LoadTimesUpTo(env, urls, blockTrackers, m - 1, s0)
    ensures var s1 := CrawlEffect(env, urls[m - 1], false, m - 1, s0);
      LoadTimesUpTo(env, urls, blockTrackers, m,
        if blockTrackers then CrawlEffect(env, urls[m - 1], true, m - 1, s1) else s1)
  {
    var s1 := CrawlEffect(env, urls[m - 1], false, m - 1, s0);
    CrawlEffectOnSamples(env, urls[m - 1], false, m - 1, s0);
    assert Samples(s1, false)[m - 1] == Recorded(env, urls[m - 1], false, m - 1, true);
    if blockTrackers {
      var s2 := CrawlEffect(env, urls[m - 1], true, m - 1, s1);
      CrawlEffectOnSamples(env, urls[m - 1], true, m - 1, s1);
      assert Samples(s2, true)[m - 1] == Recorded(env, urls[m - 1], true, m - 1, true);
      assert Samples(s2, false) == Samples(s1, false);
    }
  }

  /** Every crawl records its own load time: after the crawls of the
      first `m` URLs, the allow list of URL `i` holds one sample exactly
      when its allow crawl ran and got that far, and the block list holds
      one exactly when blocking was asked for and its block crawl ran and
      got that far. */
  lemma {:induction false} LoadTimesAfterAll(env: Environment, urls: seq<string>, blockTrackers: bool, m: nat)
    requires m <= |urls|
    ensures LoadTimesUpTo(env, urls, blockTrackers, m, StatsAfterUrls(env, urls, blockTrackers, m))
    decreases m
  {
    if m > 0 {
      LoadTimesAfterAll(env, urls, blockTrackers, m - 1);
      LoadTimesStep(env, urls, blockTrackers, m, StatsAfterUrls(env, urls, blockTrackers, m - 1));
    } else {
      var s := InitialStats(|urls|);
      assert forall i :: 0 <= i < |urls| ==> Samples(s, false)[i] == [] && Samples(s, true)[i] == [];
    }
  }

  /** One crawl with an index in range appends its load time, when it gets
      that far, to its own list only. */
  lemma CrawlEffectOnSamples(env: Environment, url: string, block: bool, urlIndex: nat, s: Stats)
    requires urlIndex < |Samples(s, block)|
    ensures var t := CrawlEffect(env, url, block, urlIndex, s);
      && (forall b :: |Samples(t, b)| == |Samples(s, b)|)
      && Samples(t, block)[urlIndex] == Samples(s, block)[urlIndex] +
           (if RecordsSample(env, url, block, urlIndex) then [env.visit(url, block, urlIndex).loadTime] else [])
      && (forall j :: 0 <= j < |Samples(s, block)| && j != urlIndex ==> Samples(t, block)[j] == Samples(s, block)[j])
      && Samples(t, !block) == Samples(s, !block)
  {
    var t := CrawlEffect(env, url, block, urlIndex, s);
    if RecordsSample(env, url, block, urlIndex) {
      var v := env.visit(url, block, urlIndex);
      var s1 := AppendSample(s, "page_load_times", block, v.loadTime, urlIndex).value;
      assert Samples(t, block) == Samples(s1, block) && Samples(t, !block) == Samples(s1, !block);
    }
  }

  /** One crawl reaches the consent step when it records its load time and
      the wait and pre-consent screenshot succeed. */
  predicate ReachesConsent(env: Environment, url: string, block: bool, urlIndex: int, s: Stats) {
    && RecordsSample(env, url, block, urlIndex)
    && AppendSample(s, "page_load_times", block, env.visit(url, block, urlIndex).loadTime, urlIndex).Success?
    && env.visit(url, block, urlIndex).preConsent
  }

  /** One crawl adds the URL's domain to `failed_to_find_accept` exactly
      when it reaches the consent step and finds no button, and to
      `time_out` exactly when it reaches it and the click raises; a crawl
      that fails before the consent step keeps a recorded sample but adds
      to neither set. */
  lemma CrawlEffectOnSets(env: Environment, url: string, block: bool, urlIndex: int, s: Stats)
    ensures var consent := ConsentOf(env.visit(url, block, urlIndex).page, AcceptWords(env.visit(url, block, urlIndex).wordFileLines));
      && CrawlEffect(env, url, block, urlIndex, s).failedToFindAccept ==
           s.failedToFindAccept + (if ReachesConsent(env, url, block, urlIndex, s) && consent.NotFound? then {env.fld(url)} else {})
      && CrawlEffect(env, url, block, urlIndex, s).timeOut ==
           s.timeOut + (if ReachesConsent(env, url, block, urlIndex, s) && consent.ClickRaised? then {env.fld(url)} else {})
  {
    var v := env.visit(url, block, urlIndex);
    if RecordsSample(env, url, block, urlIndex) {
      var appended := AppendSample(s, "page_load_times", block, v.loadTime, urlIndex);
      if appended.Success? && v.preConsent {
        var consent := ConsentOf(v.page, AcceptWords(v.wordFileLines));
        assert CrawlEffect(env, url, block, urlIndex, s) == ConsentEffect(consent, env.fld(url), appended.value);
      }
    }
  }

  /** A crawl whose wait or pre-consent screenshot raises keeps its load
      time and records no consent outcome. */
  lemma PreConsentFailureKeepsSample(env: Environment, url: string, block: bool, urlIndex: int, s: Stats)
    requires RecordsSample(env, url, block, urlIndex) && !env.visit(url, block, urlIndex).preConsent
    requires AppendSample(s, "page_load_times", block, env.visit(url, block, urlIndex).loadTime, urlIndex).Success?
    ensures CrawlEffect(env, url, block, urlIndex, s) ==
      AppendSample(s, "page_load_times", block, env.visit(url, block, urlIndex).loadTime, urlIndex).value
  {
  }
}
