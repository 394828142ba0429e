/** The batch scraping engine: choice of the page's content region, Markdown
    cleaning, a one-URL scrape that turns every failure into a result, and
    the sequential and concurrent batch loops of `WebScraper`. The browser,
    html2text and the clock are outside the model and enter as parameters;
    what the scraper does to the outside world is recorded as a trace of
    events. */
module Scraper {
  import opened Wrappers
  import opened Text

  /** `ScrapeResult`; the clock fields `scrape_time` and `timestamp` are not
      modelled. */
  datatype ScrapeResult = ScrapeResult(
    url: string, success: bool, title: string, markdown: string, error: string, contentLength: int)

  /** A failed result: only the URL and the error are set. */
  function Failed(url: string, error: string): ScrapeResult
  {
    ScrapeResult(url, false, "", "", error, 0)
  }

  /** `ScraperConfig`; the delay is in seconds. */
  datatype ScraperConfig = ScraperConfig(
    headless: bool, timeout: int, waitForIdle: bool,
    removeImages: bool, removeLinks: bool, ignoreEmphasis: bool, bodyWidth: int,
    delayBetweenRequests: real, maxConcurrent: int)

  const DefaultConfig := ScraperConfig(true, 30000, true, false, false, false, 0, 1.0, 3)

  /** The content regions tried, most specific first. */
  const ContentSelectors: seq<string> := [
    "article", "main", "[role=\"main\"]", ".content", ".post-content",
    ".article-content", "#content", "body"]

  /** A region's HTML counts as meaningful when it is longer than this. */
  const MeaningfulLength := 500

  /** What `page.query_selector(s)` and `inner_html()` give for one selector:
      no element, an element's HTML, or an exception (which the loop skips). */
  datatype Query = NoElement | Element(html: string) | QueryFailed

  /** A loaded page: its title (`page.title()`), what each selector finds and its full
      HTML (`page.content()`). */
  datatype Page = Page(title: string, regions: map<string, Query>, content: string)

  /** What the page gives for `selector`; a selector it does not list
      matches no element. */
  function Ask(regions: map<string, Query>, selector: string): Query
  {
    if selector in regions then regions[selector] else NoElement
  }

  /** What opening a URL gives: a loaded page, a Playwright navigation error,
      or any other exception (from creating the context, say). */
  datatype Navigation =
    | Arrived(page: Page)
    | PlaywrightFailed(message: string)
    | OtherFailure(message: string)

  /** The outside world of one scraper: whether launching the browser fails,
      what the listed URLs open to, the message of the Playwright error for
      any other URL, the html2text converter and the "Scraped:" timestamp. */
  datatype Env = Env(
    launchError: Option<string>, sites: map<string, Navigation>, unlisted: string -> string,
    convert: string -> string, stamp: string)

  /** What opening `url` gives; a URL the world does not list fails with a
      Playwright error whose message the world supplies. */
  function Visit(env: Env, url: string): Navigation
  {
    if url in env.sites then env.sites[url]
    else PlaywrightFailed(env.unlisted(url))
  }

  // ---------------------------------------------------------------------------
  // Content selection

  /** The selector loop of `_extract_content`, run over `selectors` with the
      HTML found so far: an element's HTML replaces it, and HTML longer than
      `MeaningfulLength` ends the loop. */
  function Scan(regions: map<string, Query>, selectors: seq<string>, html: string): string
  {
    if selectors == [] then html
    else
      match Ask(regions, selectors[0])
      case Element(h) => if |h| > MeaningfulLength then h else Scan(regions, selectors[1..], h)
      case _ => Scan(regions, selectors[1..], html)
  }

  function PageTitle(page: Page): string
  {
    if page.title == "" then "Untitled" else page.title
  }

  /** The HTML `_extract_content` returns: the scanned region, or the whole
      page when that is empty or shorter than `MeaningfulLength`. */
  function ChosenHtml(page: Page): string
  {
    var h := Scan(page.regions, ContentSelectors, "");
    if h == "" || |h| < MeaningfulLength then page.content else h
  }

  /** Selector `k` yields an element with meaningful HTML. */
  predicate LongAt(regions: map<string, Query>, selectors: seq<string>, k: int)
  {
    0 <= k < |selectors| && Ask(regions, selectors[k]).Element? && |Ask(regions, selectors[k]).html| > MeaningfulLength
  }

  /** The HTML of the last selector that yields an element, or `html` when
      none does. */
  function LastFound(regions: map<string, Query>, selectors: seq<string>, html: string): string
  {
    if selectors == [] then html
    else
      var q := Ask(regions, selectors[|selectors| - 1]);
      if q.Element? then q.html else LastFound(regions, selectors[..|selectors| - 1], html)
  }

  /** The first selector with meaningful HTML wins. */
  lemma {:induction false} ScanFirstLong(regions: map<string, Query>, selectors: seq<string>, html: string, k: int)
    requires LongAt(regions, selectors, k)
    requires forall j :: 0 <= j < k ==> !LongAt(regions, selectors, j)
    ensures Scan(regions, selectors, html) == Ask(regions, selectors[k]).html
  {
    if k > 0 {
      assert !LongAt(regions, selectors, 0);
      var next := if Ask(regions, selectors[0]).Element? then Ask(regions, selectors[0]).html else html;
      assert LongAt(regions, selectors[1..], k - 1);
      forall j | 0 <= j < k - 1 ensures !LongAt(regions, selectors[1..], j) {
        assert !LongAt(regions, selectors, j + 1);
      }
      ScanFirstLong(regions, selectors[1..], next, k - 1);
    }
  }

  /** Taking the last selector off the end of the list. */
  lemma {:induction false} LastFoundCons(regions: map<string, Query>, selectors: seq<string>, html: string)
    requires selectors != []
    ensures LastFound(regions, selectors, html) ==
      LastFound(regions, selectors[1..], if Ask(regions, selectors[0]).Element? then Ask(regions, selectors[0]).html else html)
    decreases |selectors|
  {
    if |selectors| > 1 {
      var init := selectors[..|selectors| - 1];
      assert init[1..] == selectors[1..][..|selectors[1..]| - 1];
      LastFoundCons(regions, init, html);
    }
  }

  /** Without meaningful HTML anywhere, the loop runs to the end and keeps the
      last element's HTML. */
  lemma {:induction false} ScanNoLong(regions: map<string, Query>, selectors: seq<string>, html: string)
    requires forall j :: 0 <= j < |selectors| ==> !LongAt(regions, selectors, j)
    ensures Scan(regions, selectors, html) == LastFound(regions, selectors, html)
    decreases |selectors|
  {
    if selectors != [] {
      assert !LongAt(regions, selectors, 0);
      forall j | 0 <= j < |selectors| - 1 ensures !LongAt(regions, selectors[1..], j) {
        assert !LongAt(regions, selectors, j + 1);
      }
      var next := if Ask(regions, selectors[0]).Element? then Ask(regions, selectors[0]).html else html;
      ScanNoLong(regions, selectors[1..], next);
      LastFoundCons(regions, selectors, html);
    }
  }

  /** The content-selection rule: the first region longer than 500 characters;
      otherwise the last region found when it has at least 500 characters
      (exactly 500 is kept); otherwise the whole page. */
  lemma SelectionRule(page: Page)
    ensures forall k ::
      (LongAt(page.regions, ContentSelectors, k) && forall j :: 0 <= j < k ==> !LongAt(page.regions, ContentSelectors, j)) ==>
        ChosenHtml(page) == Ask(page.regions, ContentSelectors[k]).html
    ensures (forall j :: 0 <= j < |ContentSelectors| ==> !LongAt(page.regions, ContentSelectors, j)) ==>
      var last := LastFound(page.regions, ContentSelectors, "");
      ChosenHtml(page) == if |last| < MeaningfulLength then page.content else last
  {
    forall k | LongAt(page.regions, ContentSelectors, k) &&
      (forall j :: 0 <= j < k ==> !LongAt(page.regions, ContentSelectors, j))
      ensures ChosenHtml(page) == Ask(page.regions, ContentSelectors[k]).html
    {
      ScanFirstLong(page.regions, ContentSelectors, "", k);
    }
    if forall j :: 0 <= j < |ContentSelectors| ==> !LongAt(page.regions, ContentSelectors, j) {
      ScanNoLong(page.regions, ContentSelectors, "");
    }
  }

  /** `_extract_content`: the page title, defaulting to "Untitled", and the
      chosen HTML. */
  method ExtractContent(page: Page) returns (title: string, html: string)
    ensures title == PageTitle(page) && html == ChosenHtml(page)
  {
    title := page.title;
    if title == "" {
      title := "Untitled";
    }
    html := "";
    var i := 0;
    while i < |ContentSelectors|
      invariant 0 <= i <= |ContentSelectors|
      invariant Scan(page.regions, ContentSelectors[i..], html) == Scan(page.regions, ContentSelectors, "")
    {
      assert ContentSelectors[i..][1..] == ContentSelectors[i + 1..];
      var q := Ask(page.regions, ContentSelectors[i]);
      if q.Element? {
        html := q.html;
        if |html| > MeaningfulLength {
          break;
        }
      }
      i := i + 1;
    }
    if html == "" || |html| < MeaningfulLength {
      html := page.content;
    }
  }

  // ---------------------------------------------------------------------------
  // Markdown cleaning

  /** The blank-line collapse of `_clean_markdown`: a whitespace-only line is
      dropped when the line kept before it was whitespace-only too. */
  function Collapse(lines: seq<string>, prevBlank: bool): seq<string>
  {
    if lines == [] then []
    else if IsBlank(lines[0]) && prevBlank then Collapse(lines[1..], true)
    else [lines[0]] + Collapse(lines[1..], IsBlank(lines[0]))
  }

  /** Lines `i - 1` and `i` are both whitespace-only. */
  predicate BlankPairAt(lines: seq<string>, i: int)
  {
    0 < i < |lines| && IsBlank(lines[i - 1]) && IsBlank(lines[i])
  }

  predicate NoBlankRun(lines: seq<string>)
  {
    forall i :: 0 < i < |lines| ==> !BlankPairAt(lines, i)
  }

  /** The lines that are not whitespace-only, in order. */
  function TextLines(lines: seq<string>): seq<string>
  {
    if lines == [] then []
    else (if IsBlank(lines[0]) then [] else [lines[0]]) + TextLines(lines[1..])
  }

  /** After the collapse no two consecutive lines are whitespace-only, and
      after a whitespace-only line the output does not start with one. */
  lemma {:induction false} CollapseNoBlankRun(lines: seq<string>, prevBlank: bool)
    ensures var c := Collapse(lines, prevBlank);
      NoBlankRun(c) && (prevBlank && c != [] ==> !IsBlank(c[0]))
  {
    if lines != [] {
      var x := lines[0];
      CollapseNoBlankRun(lines[1..], IsBlank(x));
      if !(IsBlank(x) && prevBlank) {
        var rest := Collapse(lines[1..], IsBlank(x));
        var c := [x] + rest;
        forall i | 0 < i < |c| ensures !BlankPairAt(c, i) {
          if i > 1 {
            assert !BlankPairAt(rest, i - 1);
          }
        }
      }
    }
  }

  /** The collapse drops only whitespace-only lines: the other lines all stay,
      in order. */
  lemma {:induction false} CollapseKeepsText(lines: seq<string>, prevBlank: bool)
    ensures TextLines(Collapse(lines, prevBlank)) == TextLines(lines)
  {
    if lines != [] {
      CollapseKeepsText(lines[1..], IsBlank(lines[0]));
      CollapseKeepsText(lines[1..], true);
      if !(IsBlank(lines[0]) && prevBlank) {
        var c := [lines[0]] + Collapse(lines[1..], IsBlank(lines[0]));
        assert c[1..] == Collapse(lines[1..], IsBlank(lines[0]));
      }
    }
  }

  /** Collapsing twice is collapsing once. */
  lemma {:induction false} CollapseIdempotent(lines: seq<string>, prevBlank: bool)
    ensures Collapse(Collapse(lines, prevBlank), prevBlank) == Collapse(lines, prevBlank)
  {
    if lines != [] {
      var x := lines[0];
      if IsBlank(x) && prevBlank {
        CollapseIdempotent(lines[1..], true);
      } else {
        var rest := Collapse(lines[1..], IsBlank(x));
        var c := [x] + rest;
        assert c[0] == x && c[1..] == rest;
        CollapseIdempotent(lines[1..], IsBlank(x));
      }
    }
  }

  /** The source header put in front of the cleaned Markdown. */
  function Header(title: string, url: string, stamp: string): string
  {
    "# " + title + "\n\n**Source:** " + url + "  \n**Scraped:** " + stamp + "\n\n---\n\n"
  }

  /** What `_clean_markdown` returns. */
  function CleanedMarkdown(markdown: string, title: string, url: string, stamp: string): string
  {
    Header(title, url, stamp) + Strip(Join(Collapse(Split(markdown, '\n'), false), '\n'))
  }

  /** The cleaned Markdown starts with the title line and then names the
      source URL. */
  lemma CleanedMarkdownHeader(markdown: string, title: string, url: string, stamp: string)
    ensures StartsWith(CleanedMarkdown(markdown, title, url, stamp), "# " + title + "\n\n**Source:** " + url)
  {
    var p := "# " + title + "\n\n**Source:** " + url;
    var rest := "  \n**Scraped:** " + stamp + "\n\n---\n\n" + Strip(Join(Collapse(Split(markdown, '\n'), false), '\n'));
    assert CleanedMarkdown(markdown, title, url, stamp) == p + rest;
    assert (p + rest)[..|p|] == p;
  }

  /** One step of `Collapse` on the lines from `i` on. */
  lemma CollapseAt(lines: seq<string>, i: int, prevBlank: bool)
    requires 0 <= i < |lines|
    ensures Collapse(lines[i..], prevBlank) ==
      if IsBlank(lines[i]) && prevBlank then Collapse(lines[i + 1..], true)
      else [lines[i]] + Collapse(lines[i + 1..], IsBlank(lines[i]))
  {
    assert lines[i..][1..] == lines[i + 1..];
  }

  /** `_clean_markdown`. */
  method CleanMarkdown(markdown: string, title: string, url: string, stamp: string) returns (r: string)
    ensures r == CleanedMarkdown(markdown, title, url, stamp)
  {
    var lines := Split(markdown, '\n');
    var cleaned: seq<string> := [];
    var prevEmpty := false;
    for i := 0 to |lines|
      invariant cleaned + Collapse(lines[i..], prevEmpty) == Collapse(lines, false)
    {
      CollapseAt(lines, i, prevEmpty);
      var isEmpty := IsBlank(lines[i]);
      if isEmpty && prevEmpty {
        continue;
      }
      AppendAssoc(cleaned, [lines[i]], Collapse(lines[i + 1..], isEmpty));
      cleaned := cleaned + [lines[i]];
      prevEmpty := isEmpty;
    }
    assert lines[|lines|..] == [];
    AppendNil(cleaned);
    r := Header(title, url, stamp) + Strip(Join(cleaned, '\n'));
  }

  // ---------------------------------------------------------------------------
  // One URL

  /** The error text of a navigation failure: Playwright network errors are
      re-raised as a `ConnectionError` with a "Network error: " prefix. */
  function NavigationError(message: string): string
  {
    if Contains(message, "net::ERR_") then "Network error: " + message else message
  }

  /** A navigation error keeps the whole original message; only network
      errors get the prefix. */
  lemma NavigationErrorKeepsMessage(message: string)
    ensures EndsWith(NavigationError(message), message)
    ensures Contains(message, "net::ERR_") ==> StartsWith(NavigationError(message), "Network error: ")
    ensures !Contains(message, "net::ERR_") ==> NavigationError(message) == message
  {
    var e := NavigationError(message);
    if Contains(message, "net::ERR_") {
      assert e[|e| - |message|..] == message;
    } else {
      assert e[|e| - |message|..] == e;
    }
  }

  /** The result `scrape_url` gives for `url` once the browser is running. */
  function ScrapeOf(env: Env, url: string): ScrapeResult
  {
    match Visit(env, url)
    case OtherFailure(m) => Failed(url, m)
    case PlaywrightFailed(m) => Failed(url, NavigationError(m))
    case Arrived(page) =>
      var title := PageTitle(page);
      var markdown := CleanedMarkdown(env.convert(ChosenHtml(page)), title, url, env.stamp);
      ScrapeResult(url, true, title, markdown, "", |markdown|)
  }

  /** Every result carries the requested URL; a successful one has no error,
      its length is that of its Markdown and the Markdown starts with the
      title header; a failed one has empty title and Markdown and the full
      error text. */
  lemma ScrapeResultShape(env: Env, url: string)
    ensures var r := ScrapeOf(env, url);
      && r.url == url
      && (r.success ==> r.error == "" && r.contentLength == |r.markdown| && StartsWith(r.markdown, "# " + r.title))
      && (!r.success ==> r.title == "" && r.markdown == "" && r.contentLength == 0)
      && (Visit(env, url).OtherFailure? ==> !r.success && r.error == Visit(env, url).message)
      && (Visit(env, url).PlaywrightFailed? ==> !r.success && EndsWith(r.error, Visit(env, url).message))
  {
    var r := ScrapeOf(env, url);
    match Visit(env, url)
    case OtherFailure(m) =>
    case PlaywrightFailed(m) =>
      NavigationErrorKeepsMessage(m);
    case Arrived(page) =>
      var title := PageTitle(page);
      var html := env.convert(ChosenHtml(page));
      CleanedMarkdownHeader(html, title, url, env.stamp);
      var p := "# " + title + "\n\n**Source:** " + url;
      assert r.markdown[..|"# " + title|] == p[..|"# " + title|];
  }

  // ---------------------------------------------------------------------------
  // Batches

  /** What the scraper does to the outside world, in order. */
  datatype Event =
    | Launched
    | Progress(current: int, total: int, url: string)
    | Fetched(url: string)
    | Slept(seconds: real)
    | Closed

  /** The progress callback `(current, total, url)`; it may raise. */
  type ProgressCallback = (int, int, string) -> Outcome

  /** What the callback does for the `i`-th URL (nothing when there is none). */
  function CallbackOutcome(callback: Option<ProgressCallback>, urls: seq<string>, i: int): Outcome
    requires 0 <= i < |urls|
  {
    if callback.None? then Ok else callback.value(i + 1, |urls|, urls[i])
  }

  /** The first index from `i` on at which the callback raises, or `|urls|`. */
  function FirstRaise(callback: Option<ProgressCallback>, urls: seq<string>, i: nat): (k: nat)
    requires i <= |urls|
    ensures i <= k <= |urls|
    ensures k < |urls| ==> CallbackOutcome(callback, urls, k).Raised?
    decreases |urls| - i
  {
    if i == |urls| then |urls|
    else if CallbackOutcome(callback, urls, i).Raised? then i
    else FirstRaise(callback, urls, i + 1)
  }

  lemma {:induction false} FirstRaiseSpec(callback: Option<ProgressCallback>, urls: seq<string>, i: nat)
    requires i <= |urls|
    ensures var k := FirstRaise(callback, urls, i);
      && i <= k <= |urls|
      && (forall j :: i <= j < k ==> CallbackOutcome(callback, urls, j).Ok?)
      && (k < |urls| ==> CallbackOutcome(callback, urls, k).Raised?)
    decreases |urls| - i
  {
    if i < |urls| && CallbackOutcome(callback, urls, i).Ok? {
      FirstRaiseSpec(callback, urls, i + 1);
    }
  }

  /** The result of scraping every URL of the batch, in order. */
  function ScrapeAll(env: Env, urls: seq<string>): (r: seq<ScrapeResult>)
    ensures |r| == |urls|
  {
    seq(|urls|, i requires 0 <= i < |urls| => ScrapeOf(env, urls[i]))
  }

  /** How many turns of the loop run: all of them, or up to and including
      the turn whose callback raises. */
  function BatchTurns(callback: Option<ProgressCallback>, urls: seq<string>): (t: nat)
    ensures t <= |urls|
  {
    var k := FirstRaise(callback, urls, 0);
    if k == |urls| then k else k + 1
  }

  /** What the loop of `scrape_urls` delivers: every URL's result, or the
      exception of the first callback that raises. */
  function BatchOutcome(env: Env, callback: Option<ProgressCallback>, urls: seq<string>): Fallible<seq<ScrapeResult>>
  {
    var k := FirstRaise(callback, urls, 0);
    if k == |urls| then Value(ScrapeAll(env, urls)) else Raises(CallbackOutcome(callback, urls, k).message)
  }

  /** The batch yields its results exactly when no callback raises; then
      there is one result per URL, the URL's own scrape, naming that URL;
      otherwise it is the message of the first raising callback, all the
      earlier ones having returned normally. */
  lemma BatchOutcomeSpec(env: Env, callback: Option<ProgressCallback>, urls: seq<string>)
    ensures var o := BatchOutcome(env, callback, urls);
      && (o.Value? <==> forall j :: 0 <= j < |urls| ==> CallbackOutcome(callback, urls, j).Ok?)
      && (o.Value? ==> |o.value| == |urls| && forall i :: 0 <= i < |urls| ==>
            o.value[i] == ScrapeOf(env, urls[i]) && o.value[i].url == urls[i])
      && (o.Raises? ==> exists k :: (0 <= k < |urls| && CallbackOutcome(callback, urls, k).Raised?
            && o.message == CallbackOutcome(callback, urls, k).message
            && forall j :: 0 <= j < k ==> CallbackOutcome(callback, urls, j).Ok?))
    ensures BatchTurns(callback, urls) <= |urls|
  {
    FirstRaiseSpec(callback, urls, 0);
    var k := FirstRaise(callback, urls, 0);
    var o := BatchOutcome(env, callback, urls);
    if o.Value? {
      forall i | 0 <= i < |urls| ensures o.value[i].url == urls[i] {
        ScrapeResultShape(env, urls[i]);
      }
    }
  }

  /** A turn whose callback does not raise moves the search for the first
      raise on. */
  lemma FirstRaiseStep(callback: Option<ProgressCallback>, urls: seq<string>, i: nat)
    requires i < |urls| && FirstRaise(callback, urls, 0) == FirstRaise(callback, urls, i)
    requires CallbackOutcome(callback, urls, i).Ok?
    ensures FirstRaise(callback, urls, 0) == FirstRaise(callback, urls, i + 1)
  {
  }

  /** A turn whose callback raises, with none raising before, ends the batch
      with that callback's exception after `i + 1` turns. */
  lemma BatchRaisesAt(env: Env, callback: Option<ProgressCallback>, urls: seq<string>, i: nat)
    requires i < |urls| && FirstRaise(callback, urls, 0) == FirstRaise(callback, urls, i)
    requires CallbackOutcome(callback, urls, i).Raised?
    ensures BatchTurns(callback, urls) == i + 1
    ensures BatchOutcome(env, callback, urls) == Raises(CallbackOutcome(callback, urls, i).message)
  {
  }

  /** Once every turn has run, the batch yields the results of all URLs. */
  lemma BatchCompletes(env: Env, callback: Option<ProgressCallback>, urls: seq<string>)
    requires FirstRaise(callback, urls, 0) == FirstRaise(callback, urls, |urls|)
    ensures BatchTurns(callback, urls) == |urls|
    ensures BatchOutcome(env, callback, urls) == Value(ScrapeAll(env, urls))
  {
  }

  /** The callback event of the `i`-th turn, when there is a callback. */
  function Announce(callback: Option<ProgressCallback>, urls: seq<string>, i: int): seq<Event>
    requires 0 <= i < |urls|
  {
    if callback.Some? then [Progress(i + 1, |urls|, urls[i])] else []
  }

  /** The pause after the `i`-th fetch: none after the last URL or without a
      positive delay. */
  function Pause(delay: real, urls: seq<string>, i: int): seq<Event>
  {
    if i < |urls| - 1 && delay > 0.0 then [Slept(delay)] else []
  }

  /** The events of the `i`-th turn of the `scrape_urls` loop: the callback,
      then (unless it raised) the fetch, then the pause. */
  function StepTrace(callback: Option<ProgressCallback>, delay: real, urls: seq<string>, i: int): seq<Event>
    requires 0 <= i < |urls|
  {
    if CallbackOutcome(callback, urls, i).Raised? then Announce(callback, urls, i)
    else Announce(callback, urls, i) + [Fetched(urls[i])] + Pause(delay, urls, i)
  }

  /** The events of the first `n` turns. */
  function Trace(callback: Option<ProgressCallback>, delay: real, urls: seq<string>, n: int): seq<Event>
    requires 0 <= n <= |urls|
  {
    Flatten(Steps(callback, delay, urls, n))
  }

  /** The events of each of the first `n` turns. */
  function Steps(callback: Option<ProgressCallback>, delay: real, urls: seq<string>, n: int): (r: seq<seq<Event>>)
    requires 0 <= n <= |urls|
    ensures |r| == n
  {
    seq(n, i requires 0 <= i < n => StepTrace(callback, delay, urls, i))
  }

  /** The concatenation of a sequence of sequences. */
  function Flatten<T>(ss: seq<seq<T>>): seq<T>
  {
    if ss == [] then [] else Flatten(ss[..|ss| - 1]) + ss[|ss| - 1]
  }

  /** The URLs fetched in a trace, in order. */
  function FetchedUrls(trace: seq<Event>): seq<string>
  {
    if trace == [] then []
    else (if trace[0].Fetched? then [trace[0].url] else []) + FetchedUrls(trace[1..])
  }

  /** The number of pauses in a trace. */
  function Pauses(trace: seq<Event>): nat
  {
    if trace == [] then 0 else (if trace[0].Slept? then 1 else 0) + Pauses(trace[1..])
  }

  lemma {:induction false} FetchedAppend(a: seq<Event>, b: seq<Event>)
    ensures FetchedUrls(a + b) == FetchedUrls(a) + FetchedUrls(b)
  {
    if a == [] {
      assert a + b == b;
    } else {
      assert (a + b)[0] == a[0];
      assert (a + b)[1..] == a[1..] + b;
      FetchedAppend(a[1..], b);
      AppendAssoc(if a[0].Fetched? then [a[0].url] else [], FetchedUrls(a[1..]), FetchedUrls(b));
    }
  }

  lemma {:induction false} PausesAppend(a: seq<Event>, b: seq<Event>)
    ensures Pauses(a + b) == Pauses(a) + Pauses(b)
  {
    if a == [] {
      assert a + b == b;
    } else {
      assert (a + b)[0] == a[0];
      assert (a + b)[1..] == a[1..] + b;
      PausesAppend(a[1..], b);
    }
  }

  /** Both counts distribute over concatenation. */
  lemma TraceCountsAppend(a: seq<Event>, b: seq<Event>)
    ensures FetchedUrls(a + b) == FetchedUrls(a) + FetchedUrls(b)
    ensures Pauses(a + b) == Pauses(a) + Pauses(b)
  {
    FetchedAppend(a, b);
    PausesAppend(a, b);
  }

  /** Launching before and closing after a trace adds no fetch and no
      pause. */
  lemma BracketCounts(trace: seq<Event>)
    ensures FetchedUrls([Launched] + trace + [Closed]) == FetchedUrls(trace)
    ensures Pauses([Launched] + trace + [Closed]) == Pauses(trace)
  {
    TraceCountsAppend([Launched] + trace, [Closed]);
    TraceCountsAppend([Launched], trace);
    assert [Launched][1..] == [] && [Closed][1..] == [];
  }

  /** The turns a batch runs fetch the URLs before the first raising
      callback, in order; a batch without a raising callback fetches every
      URL and pauses between consecutive URLs when the delay is positive. */
  lemma BatchTraceCounts(callback: Option<ProgressCallback>, delay: real, urls: seq<string>)
    ensures var t := Trace(callback, delay, urls, BatchTurns(callback, urls));
      var k := FirstRaise(callback, urls, 0);
      && FetchedUrls(t) == urls[..k]
      && (k == |urls| ==> Pauses(t) == if delay <= 0.0 || |urls| == 0 then 0 else |urls| - 1)
  {
    FirstRaiseSpec(callback, urls, 0);
    var k := FirstRaise(callback, urls, 0);
    TraceFetchesInOrder(callback, delay, urls, k);
    TraceSleeps(callback, delay, urls, k);
    if k < |urls| {
      TraceSnoc(callback, delay, urls, k + 1);
      var step := StepTrace(callback, delay, urls, k);
      assert step == Announce(callback, urls, k);
      assert FetchedUrls(step) == [] by {
        if callback.Some? {
          assert step[1..] == [];
        }
      }
      TraceCountsAppend(Trace(callback, delay, urls, k), step);
      assert urls[..k] + [] == urls[..k];
    }
  }

  /** A turn whose callback does not raise fetches its URL once and pauses
      unless it is the last. */
  lemma StepCounts(callback: Option<ProgressCallback>, delay: real, urls: seq<string>, i: int)
    requires 0 <= i < |urls|
    requires CallbackOutcome(callback, urls, i).Ok?
    ensures FetchedUrls(StepTrace(callback, delay, urls, i)) == [urls[i]]
    ensures Pauses(StepTrace(callback, delay, urls, i)) == if i < |urls| - 1 && delay > 0.0 then 1 else 0
  {
    var a := Announce(callback, urls, i);
    var f := [Fetched(urls[i])];
    var p := Pause(delay, urls, i);
    TraceCountsAppend(a, f);
    TraceCountsAppend(a + f, p);
    assert FetchedUrls(a) == [] && Pauses(a) == 0;
    assert FetchedUrls(p) == [];
  }

  /** A turn whose callback returns normally: the callback event, then the
      fetch and the pause. */
  lemma StepTraceOk(callback: Option<ProgressCallback>, delay: real, urls: seq<string>, i: int)
    requires 0 <= i < |urls| && CallbackOutcome(callback, urls, i).Ok?
    ensures StepTrace(callback, delay, urls, i) == Announce(callback, urls, i) + ([Fetched(urls[i])] + Pause(delay, urls, i))
  {
    AppendAssoc(Announce(callback, urls, i), [Fetched(urls[i])], Pause(delay, urls, i));
  }

  /** The events of the first `n` turns are those of the first `n - 1`
      followed by those of turn `n - 1`. */
  lemma TraceSnoc(callback: Option<ProgressCallback>, delay: real, urls: seq<string>, n: int)
    requires 0 < n <= |urls|
    ensures Trace(callback, delay, urls, n) == Trace(callback, delay, urls, n - 1) + StepTrace(callback, delay, urls, n - 1)
  {
    assert Steps(callback, delay, urls, n)[..n - 1] == Steps(callback, delay, urls, n - 1);
  }

  /** When the callback does not raise, the loop fetches every URL once, in
      input order. */
  lemma {:induction false} TraceFetchesInOrder(callback: Option<ProgressCallback>, delay: real, urls: seq<string>, n: int)
    requires 0 <= n <= |urls|
    requires forall j :: 0 <= j < n ==> CallbackOutcome(callback, urls, j).Ok?
    ensures FetchedUrls(Trace(callback, delay, urls, n)) == urls[..n]
  {
    if n > 0 {
      var t := Trace(callback, delay, urls, n - 1);
      var step := StepTrace(callback, delay, urls, n - 1);
      assert FetchedUrls(t) == urls[..n - 1] by {
        TraceFetchesInOrder(callback, delay, urls, n - 1);
      }
      assert FetchedUrls(step) == [urls[n - 1]] by {
        StepCounts(callback, delay, urls, n - 1);
      }
      assert FetchedUrls(Trace(callback, delay, urls, n)) == FetchedUrls(t) + FetchedUrls(step) by {
        TraceSnoc(callback, delay, urls, n);
        TraceCountsAppend(t, step);
      }
      TakeSnoc(urls, n);
    }
  }

  /** The loop pauses once between consecutive fetches and never after the
      last one: `n - 1` pauses after all `n` URLs, `n` after the first `n`
      of more. */
  lemma {:induction false} TraceSleeps(callback: Option<ProgressCallback>, delay: real, urls: seq<string>, n: int)
    requires 0 <= n <= |urls|
    requires forall j :: 0 <= j < n ==> CallbackOutcome(callback, urls, j).Ok?
    ensures Pauses(Trace(callback, delay, urls, n)) ==
      if delay <= 0.0 || n == 0 then 0 else if n < |urls| then n else n - 1
  {
    if n > 0 {
      var t := Trace(callback, delay, urls, n - 1);
      var step := StepTrace(callback, delay, urls, n - 1);
      assert Pauses(t) == if delay <= 0.0 || n - 1 == 0 then 0 else n - 1 by {
        TraceSleeps(callback, delay, urls, n - 1);
      }
      assert Pauses(step) == if n - 1 < |urls| - 1 && delay > 0.0 then 1 else 0 by {
        StepCounts(callback, delay, urls, n - 1);
      }
      assert Pauses(Trace(callback, delay, urls, n)) == Pauses(t) + Pauses(step) by {
        TraceSnoc(callback, delay, urls, n);
        TraceCountsAppend(t, step);
      }
      SleepCount(Pauses(t), Pauses(step), Pauses(Trace(callback, delay, urls, n)), n, |urls|, delay);
    }
  }

  /** The arithmetic of one more turn's pauses. */
  lemma SleepCount(before: int, step: int, total: int, n: int, len: int, delay: real)
    requires 0 < n <= len && total == before + step
    requires before == if delay <= 0.0 || n - 1 == 0 then 0 else n - 1
    requires step == if n - 1 < len - 1 && delay > 0.0 then 1 else 0
    ensures total == if delay <= 0.0 || n == 0 then 0 else if n < len then n else n - 1
  {
  }

  /** The loop never ends on a pause: after all URLs the last event is the
      last fetch. */
  lemma TraceEndsWithFetch(callback: Option<ProgressCallback>, delay: real, urls: seq<string>)
    requires urls != []
    requires forall j :: 0 <= j < |urls| ==> CallbackOutcome(callback, urls, j).Ok?
    ensures var t := Trace(callback, delay, urls, |urls|);
      t != [] && t[|t| - 1] == Fetched(urls[|urls| - 1])
  {
    var n := |urls|;
    TraceSnoc(callback, delay, urls, n);
    var step := StepTrace(callback, delay, urls, n - 1);
    assert step == Announce(callback, urls, n - 1) + [Fetched(urls[n - 1])];
  }

  /** The first `k` elements of `a + b` are those of `a`. */
  lemma PrefixOfAppend<T>(a: seq<T>, b: seq<T>, k: int)
    requires 0 <= k <= |a|
    ensures (a + b)[..k] == a[..k]
  {
    assert forall i :: 0 <= i < k ==> (a + b)[..k][i] == a[..k][i];
  }

  ghost predicate IsPrefix<T>(s: seq<T>, t: seq<T>)
  {
    |s| <= |t| && t[..|s|] == s
  }

  /** A prefix of `t` is a prefix of `t` extended. */
  lemma PrefixExtend<T>(s: seq<T>, t: seq<T>, step: seq<T>, u: seq<T>)
    requires IsPrefix(s, t) && u == t + step
    ensures IsPrefix(s, u)
  {
    PrefixOfAppend(t, step, |s|);
  }

  /** A shorter run's trace is a prefix of a longer run's. */
  lemma {:induction false} TracePrefix(callback: Option<ProgressCallback>, delay: real, urls: seq<string>, m: int, n: int)
    requires 0 <= m <= n <= |urls|
    ensures IsPrefix(Trace(callback, delay, urls, m), Trace(callback, delay, urls, n))
    decreases n - m
  {
    var s := Trace(callback, delay, urls, m);
    if m < n {
      TracePrefix(callback, delay, urls, m, n - 1);
      TraceSnoc(callback, delay, urls, n);
      PrefixExtend(s, Trace(callback, delay, urls, n - 1), StepTrace(callback, delay, urls, n - 1), Trace(callback, delay, urls, n));
    } else {
      TakeAll(s);
    }
  }

  /** With a callback that does not raise, the callback for URL `j` comes
      immediately before URL `j` is fetched. */
  lemma ProgressPrecedesFetch(callback: Option<ProgressCallback>, delay: real, urls: seq<string>, n: int, j: int)
    requires callback.Some?
    requires 0 <= j < n <= |urls|
    requires CallbackOutcome(callback, urls, j).Ok?
    ensures var t := Trace(callback, delay, urls, n);
      exists p :: 0 <= p < |t| - 1 && t[p] == Progress(j + 1, |urls|, urls[j]) && t[p + 1] == Fetched(urls[j])
  {
    TracePrefix(callback, delay, urls, j + 1, n);
    TraceSnoc(callback, delay, urls, j + 1);
    var t := Trace(callback, delay, urls, n);
    var before := Trace(callback, delay, urls, j);
    var upto := Trace(callback, delay, urls, j + 1);
    var step := StepTrace(callback, delay, urls, j);
    var p := |before|;
    assert step[0] == Progress(j + 1, |urls|, urls[j]) && step[1] == Fetched(urls[j]);
    assert upto[p] == step[0] && upto[p + 1] == step[1];
    assert t[..|upto|][p] == t[p] && t[..|upto|][p + 1] == t[p + 1];
  }

  /** Pairing the results of `asyncio.gather` back with their URLs by `zip`:
      an exception for URL `i` becomes a failed result for `urls[i]`. */
  function Paired(urls: seq<string>, gathered: seq<Fallible<ScrapeResult>>): (r: seq<ScrapeResult>)
    ensures |r| == if |urls| < |gathered| then |urls| else |gathered|
  {
    if urls == [] || gathered == [] then []
    else
      [match gathered[0] case Raises(m) => Failed(urls[0], m) case Value(res) => res]
      + Paired(urls[1..], gathered[1..])
  }

  /** `zip` keeps the pairing by index: each result is the gathered one, or a
      failure for the URL at the same index carrying the exception's text. */
  lemma {:induction false} PairedAligned(urls: seq<string>, gathered: seq<Fallible<ScrapeResult>>)
    ensures forall i :: 0 <= i < |Paired(urls, gathered)| ==>
      Paired(urls, gathered)[i] == match gathered[i] case Raises(m) => Failed(urls[i], m) case Value(res) => res
  {
    if urls != [] && gathered != [] {
      PairedAligned(urls[1..], gathered[1..]);
      var r := Paired(urls, gathered);
      forall i | 1 <= i < |r|
        ensures r[i] == match gathered[i] case Raises(m) => Failed(urls[i], m) case Value(res) => res
      {
        assert r[i] == Paired(urls[1..], gathered[1..])[i - 1];
      }
    }
  }

  /** When `gather` delivers one outcome per URL, each either an exception
      (the progress callback raising) or that URL's own scrape, the
      concurrent batch gives one result per URL, in order, naming its own
      URL: the URL's scrape, or a failure carrying the exception's text. */
  lemma PairedUrls(env: Env, urls: seq<string>, gathered: seq<Fallible<ScrapeResult>>)
    requires |gathered| == |urls|
    requires forall i :: 0 <= i < |urls| && gathered[i].Value? ==> gathered[i].value == ScrapeOf(env, urls[i])
    ensures |Paired(urls, gathered)| == |urls|
    ensures forall i :: 0 <= i < |urls| ==> Paired(urls, gathered)[i].url == urls[i]
    ensures forall i :: 0 <= i < |urls| && gathered[i].Value? ==> Paired(urls, gathered)[i] == ScrapeOf(env, urls[i])
    ensures forall i :: 0 <= i < |urls| && gathered[i].Raises? ==>
      Paired(urls, gathered)[i] == Failed(urls[i], gathered[i].message)
  {
    PairedAligned(urls, gathered);
    forall i | 0 <= i < |urls| && gathered[i].Value? ensures gathered[i].value.url == urls[i] {
      ScrapeResultShape(env, urls[i]);
    }
  }

  /** What a task of `scrape_urls_concurrent` does once its page is
      scraped: the fetch, then, with a callback, the progress call with
      the number of tasks finished so far. */
  function Completion(callback: Option<ProgressCallback>, total: int, url: string, completed: int): seq<Event>
  {
    [Fetched(url)] + (if callback.Some? then [Progress(completed, total, url)] else [])
  }

  /** The events of the tasks, in the order they finish. */
  function Completions(callback: Option<ProgressCallback>, total: int, finished: seq<string>): seq<Event>
  {
    if finished == [] then []
    else
      Completions(callback, total, finished[..|finished| - 1])
        + Completion(callback, total, finished[|finished| - 1], |finished|)
  }

  /** A task fetches its URL once and does not pause. */
  lemma CompletionCounts(callback: Option<ProgressCallback>, total: int, url: string, completed: int)
    ensures FetchedUrls(Completion(callback, total, url, completed)) == [url]
    ensures Pauses(Completion(callback, total, url, completed)) == 0
  {
    var tail := if callback.Some? then [Progress(completed, total, url)] else [];
    var step := Completion(callback, total, url, completed);
    assert step[1..] == tail;
    if tail != [] {
      assert tail[1..] == [];
      assert FetchedUrls(tail) == FetchedUrls(tail[1..]) && Pauses(tail) == Pauses(tail[1..]);
    }
    assert FetchedUrls(tail) == [] && Pauses(tail) == 0;
  }

  /** The finished tasks fetch their URLs once each, in the order they
      finish, and never pause; so when every URL's task finishes once, the
      batch fetches its URLs, each as often as it is listed, in some order. */
  lemma {:induction false} CompletionsFetch(callback: Option<ProgressCallback>, urls: seq<string>, finished: seq<string>)
    ensures FetchedUrls(Completions(callback, |urls|, finished)) == finished
    ensures Pauses(Completions(callback, |urls|, finished)) == 0
    ensures multiset(finished) == multiset(urls) ==>
      multiset(FetchedUrls(Completions(callback, |urls|, finished))) == multiset(urls)
  {
    if finished != [] {
      var init := finished[..|finished| - 1];
      var last := finished[|finished| - 1];
      CompletionsFetch(callback, urls, init);
      var step := Completion(callback, |urls|, last, |finished|);
      TraceCountsAppend(Completions(callback, |urls|, init), step);
      CompletionCounts(callback, |urls|, last, |finished|);
      assert finished == init + [last];
    }
  }

  /** `WebScraper`: its configuration, whether its browser is running, the
      progress callback, and the events so far. */
  class WebScraper {
    var config: ScraperConfig
    var browserOpen: bool
    var progress: Option<ProgressCallback>
    var events: seq<Event>

    /** `WebScraper(config)`, with the default configuration for `None`. */
    constructor(config: Option<ScraperConfig>)
      ensures this.config == (if config.Some? then config.value else DefaultConfig)
      ensures !browserOpen && progress.None? && events == []
    {
      this.config := if config.Some? then config.value else DefaultConfig;
      browserOpen := false;
      progress := None;
      events := [];
    }

    /** `set_progress_callback`. */
    method SetProgressCallback(callback: ProgressCallback)
      modifies this`progress
      ensures progress == Some(callback)
    {
      progress := Some(callback);
    }

    /** `_init_browser`: launches the browser unless it is running; a failed
        launch raises. */
    method InitBrowser(env: Env) returns (outcome: Outcome)
      modifies this`browserOpen, this`events
      ensures old(browserOpen) ==> outcome == Ok && browserOpen && events == old(events)
      ensures !old(browserOpen) && env.launchError.Some? ==>
        outcome == Raised(env.launchError.value) && !browserOpen && events == old(events)
      ensures !old(browserOpen) && env.launchError.None? ==>
        outcome == Ok && browserOpen && events == old(events) + [Launched]
    {
      outcome := Ok;
      if !browserOpen {
        match env.launchError {
          case Some(m) =>
            outcome := Raised(m);
          case None =>
            browserOpen := true;
            events := events + [Launched];
        }
      }
    }

    /** `close`: closes the browser if it is running. */
    method Close()
      modifies this`browserOpen, this`events
      ensures !browserOpen
      ensures events == old(events) + if old(browserOpen) then [Closed] else []
    {
      if browserOpen {
        browserOpen := false;
        events := events + [Closed];
      }
    }

    /** `scrape_url`: never raises; a failure to launch the browser, to
        create the page or to navigate becomes a failed result. */
    method ScrapeUrl(env: Env, url: string) returns (r: ScrapeResult)
      modifies this`browserOpen, this`events
      ensures !old(browserOpen) && env.launchError.Some? ==>
        r == Failed(url, env.launchError.value) && !browserOpen && events == old(events)
      ensures old(browserOpen) || env.launchError.None? ==>
        && r == ScrapeOf(env, url) && browserOpen
        && events == old(events) + (if old(browserOpen) then [] else [Launched]) + [Fetched(url)]
    {
      var launched := InitBrowser(env);
      if launched.Raised? {
        r := Failed(url, launched.message);
        return;
      }
      events := events + [Fetched(url)];
      match Visit(env, url) {
        case OtherFailure(m) =>
          r := Failed(url, m);
        case PlaywrightFailed(m) =>
          var message := m;
          if Contains(m, "net::ERR_") {
            message := "Network error: " + m;
          }
          r := Failed(url, message);
        case Arrived(page) =>
          var title, html := ExtractContent(page);
          var markdown := CleanMarkdown(env.convert(html), title, url, env.stamp);
          r := ScrapeResult(url, true, title, markdown, "", |markdown|);
      }
    }

    /** `scrape_urls`: one result per URL, in order, with the callback before
        each fetch and a pause between fetches; a raising callback aborts
        the batch, and the browser is closed on every exit. */
    method ScrapeUrls(env: Env, urls: seq<string>) returns (outcome: Fallible<seq<ScrapeResult>>)
      modifies this`browserOpen, this`events
      ensures !browserOpen
      ensures !old(browserOpen) && env.launchError.Some? ==>
        outcome == Raises(env.launchError.value) && events == old(events)
      ensures old(browserOpen) || env.launchError.None? ==>
        && outcome == BatchOutcome(env, progress, urls)
        && events == old(events) + (if old(browserOpen) then [] else [Launched])
             + Trace(progress, config.delayBetweenRequests, urls, BatchTurns(progress, urls)) + [Closed]
    {
      var launched := InitBrowser(env);
      if launched.Raised? {
        Close();
        return Raises(launched.message);
      }
      outcome := RunTurns(env, urls);
      Close();
    }

    /** The loop of `scrape_urls`, with the browser running: the turns up to
        the end or up to the first callback that raises. */
    method RunTurns(env: Env, urls: seq<string>) returns (outcome: Fallible<seq<ScrapeResult>>)
      requires browserOpen
      modifies this`browserOpen, this`events
      ensures browserOpen
      ensures outcome == BatchOutcome(env, progress, urls)
      ensures events == old(events) + Trace(progress, config.delayBetweenRequests, urls, BatchTurns(progress, urls))
    {
      ghost var start := events;
      var results := [];
      var i := 0;
      while i < |urls|
        invariant 0 <= i <= |urls| && browserOpen
        invariant FirstRaise(progress, urls, 0) == FirstRaise(progress, urls, i)
        invariant results == ScrapeAll(env, urls)[..i]
        invariant events == start + Trace(progress, config.delayBetweenRequests, urls, i)
      {
        var called;
        results, called := Advance(env, urls, i, results, start);
        if called.Raised? {
          return Raises(called.message);
        }
        i := i + 1;
      }
      TakeAll(ScrapeAll(env, urls));
      BatchCompletes(env, progress, urls);
      outcome := Value(results);
    }

    /** A turn of the loop with its bookkeeping: either the batch ends with
        the callback's exception, or one more result is gathered. */
    method Advance(env: Env, urls: seq<string>, i: int, results: seq<ScrapeResult>, ghost start: seq<Event>)
      returns (gathered: seq<ScrapeResult>, called: Outcome)
      requires 0 <= i < |urls| && browserOpen
      requires FirstRaise(progress, urls, 0) == FirstRaise(progress, urls, i)
      requires results == ScrapeAll(env, urls)[..i]
      requires events == start + Trace(progress, config.delayBetweenRequests, urls, i)
      modifies this`browserOpen, this`events
      ensures browserOpen
      ensures events == start + Trace(progress, config.delayBetweenRequests, urls, i + 1)
      ensures called.Raised? ==>
        BatchTurns(progress, urls) == i + 1 && BatchOutcome(env, progress, urls) == Raises(called.message)
      ensures called.Ok? ==>
        FirstRaise(progress, urls, 0) == FirstRaise(progress, urls, i + 1) && gathered == ScrapeAll(env, urls)[..i + 1]
    {
      var r;
      r, called := Turn(env, urls, i, start);
      gathered := results;
      if called.Raised? {
        BatchRaisesAt(env, progress, urls, i);
        return;
      }
      FirstRaiseStep(progress, urls, i);
      assert r == ScrapeAll(env, urls)[i];
      TakeSnoc(ScrapeAll(env, urls), i + 1);
      gathered := results + [r];
    }

    /** One turn of the `scrape_urls` loop: the callback for URL `i`, then,
        unless it raised, the scrape of URL `i` and the pause after it. */
    method Turn(env: Env, urls: seq<string>, i: int, ghost start: seq<Event>) returns (r: ScrapeResult, called: Outcome)
      requires 0 <= i < |urls| && browserOpen
      requires events == start + Trace(progress, config.delayBetweenRequests, urls, i)
      modifies this`browserOpen, this`events
      ensures browserOpen && called == CallbackOutcome(progress, urls, i)
      ensures events == start + Trace(progress, config.delayBetweenRequests, urls, i + 1)
      ensures called.Ok? ==> r == ScrapeOf(env, urls[i])
    {
      ghost var trace := Trace(progress, config.delayBetweenRequests, urls, i);
      ghost var announce := Announce(progress, urls, i);
      called := Report(urls, i);
      r := Failed(urls[i], "");
      if called.Raised? {
        assert events == start + Trace(progress, config.delayBetweenRequests, urls, i + 1) by {
          TraceSnoc(progress, config.delayBetweenRequests, urls, i + 1);
          AppendAssoc(start, trace, announce);
        }
        return;
      }
      r := FetchAndPause(env, urls, i);
      assert events == start + Trace(progress, config.delayBetweenRequests, urls, i + 1) by {
        var rest := [Fetched(urls[i])] + Pause(config.delayBetweenRequests, urls, i);
        TraceSnoc(progress, config.delayBetweenRequests, urls, i + 1);
        StepTraceOk(progress, config.delayBetweenRequests, urls, i);
        AppendAssoc3(start, trace, announce, rest);
      }
    }

    /** Calls the progress callback, if one is set, before the `i`-th URL. */
    method Report(urls: seq<string>, i: int) returns (called: Outcome)
      requires 0 <= i < |urls|
      modifies this`events
      ensures called == CallbackOutcome(progress, urls, i)
      ensures events == old(events) + Announce(progress, urls, i)
    {
      called := Ok;
      if progress.Some? {
        called := CallbackOutcome(progress, urls, i);
        events := events + [Progress(i + 1, |urls|, urls[i])];
      } else {
        AppendNil(events);
      }
    }

    /** The scrape of URL `i` and, unless it is the last, the pause after it. */
    method FetchAndPause(env: Env, urls: seq<string>, i: int) returns (r: ScrapeResult)
      requires 0 <= i < |urls| && browserOpen
      modifies this`browserOpen, this`events
      ensures browserOpen && r == ScrapeOf(env, urls[i])
      ensures events == old(events) + ([Fetched(urls[i])] + Pause(config.delayBetweenRequests, urls, i))
    {
      r := ScrapeUrl(env, urls[i]);
      if i < |urls| - 1 && config.delayBetweenRequests > 0.0 {
        events := events + [Slept(config.delayBetweenRequests)];
      }
    }

    /** The tasks of the concurrent batch, in the order they finish. */
    method RunTasks(total: int, finished: seq<string>)
      modifies this`events
      ensures events == old(events) + Completions(progress, total, finished)
    {
      for k := 0 to |finished|
        invariant events == old(events) + Completions(progress, total, finished[..k])
      {
        assert finished[..k + 1][..k] == finished[..k];
        AppendAssoc(old(events), Completions(progress, total, finished[..k]),
                    Completion(progress, total, finished[k], k + 1));
        events := events + Completion(progress, total, finished[k], k + 1);
      }
      assert finished[..|finished|] == finished;
    }

    /** `scrape_urls_concurrent`, given the order in which the URLs' tasks
        finish (each URL's task once, as `asyncio.gather` awaits them all)
        and what `gather` returned for them: the tasks' events in that
        order, then the results paired back with their URLs, with the
        browser closed on every exit. */
    method ScrapeUrlsConcurrent(env: Env, urls: seq<string>, finished: seq<string>,
                                gathered: seq<Fallible<ScrapeResult>>)
      returns (outcome: Fallible<seq<ScrapeResult>>)
      requires multiset(finished) == multiset(urls)
      modifies this`browserOpen, this`events
      ensures !browserOpen
      ensures !old(browserOpen) && env.launchError.Some? ==>
        outcome == Raises(env.launchError.value) && events == old(events)
      ensures old(browserOpen) || env.launchError.None? ==>
        && outcome == Value(Paired(urls, gathered))
        && events == old(events) + (if old(browserOpen) then [] else [Launched])
             + Completions(progress, |urls|, finished) + [Closed]
    {
      var launched := InitBrowser(env);
      if launched.Raised? {
        Close();
        return Raises(launched.message);
      }
      RunTasks(|urls|, finished);
      PairedAligned(urls, gathered);
      var processed: seq<ScrapeResult> := [];
      var i := 0;
      while i < |urls| && i < |gathered|
        invariant 0 <= i <= |Paired(urls, gathered)|
        invariant processed == Paired(urls, gathered)[..i]
      {
        match gathered[i] {
          case Raises(m) =>
            processed := processed + [Failed(urls[i], m)];
          case Value(res) =>
            processed := processed + [res];
        }
        i := i + 1;
      }
      assert processed == Paired(urls, gathered);
      Close();
      outcome := Value(processed);
    }
  }
}
