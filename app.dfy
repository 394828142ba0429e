/** The orchestrator of the desktop application: it gathers URLs from dropped
    files and from the drop zone's text, and runs the pipeline that scrapes
    them, saves each successful page as markdown and, in analysis mode, has
    the local model write a research report. */
module App {
  import opened Wrappers
  import opened Text
  import UrlParser
  import Scraper
  import Components
  import Analyzer

  // ---------------------------------------------------------------------------
  // Removing duplicates

  /** `list(set(xs))`. Python leaves the order of the result unspecified;
      this model keeps the first occurrence of each value. */
  function Dedup(xs: seq<string>): seq<string>
  {
    if xs == [] then []
    else
      var init := Dedup(xs[..|xs| - 1]);
      if xs[|xs| - 1] in init then init else init + [xs[|xs| - 1]]
  }

  /** The result has no repetitions and holds exactly the values of `xs`. */
  lemma {:induction false} DedupSpec(xs: seq<string>)
    ensures var r := Dedup(xs);
      UrlParser.Distinct(r) && |r| <= |xs| && forall u :: u in r <==> u in xs
  {
    if xs != [] {
      var init := xs[..|xs| - 1];
      DedupSpec(init);
      assert xs == init + [xs[|xs| - 1]];
    }
  }

  /** A list without repetitions comes back unchanged. */
  lemma {:induction false} DedupDistinct(xs: seq<string>)
    requires UrlParser.Distinct(xs)
    ensures Dedup(xs) == xs
  {
    if xs != [] {
      var init := xs[..|xs| - 1];
      assert UrlParser.Distinct(init) by {
        forall a, b | 0 <= a < b < |init| ensures init[a] != init[b] {
          assert init[a] == xs[a] && init[b] == xs[b];
        }
      }
      DedupDistinct(init);
      assert xs[|xs| - 1] !in init by {
        forall a | 0 <= a < |init| ensures init[a] != xs[|xs| - 1] {
          assert init[a] == xs[a];
        }
      }
      assert xs == init + [xs[|xs| - 1]];
    }
  }

  /** Removing duplicates twice is removing them once. */
  lemma DedupIdempotent(xs: seq<string>)
    ensures Dedup(Dedup(xs)) == Dedup(xs)
  {
    DedupSpec(xs);
    DedupDistinct(Dedup(xs));
  }

  // ---------------------------------------------------------------------------
  // The terminal lines the application writes

  /** The statuses `log_to_terminal` is given. */
  datatype Status = Info | Success | Error | Warning | Ai

  /** What a line of the terminal says, by kind and data. */
  datatype Message =
    | Started
    | FilesReceived(count: nat)
    | Reading(name: string)
    | Skipped(entry: string)
    | ReadFailed(name: string, error: string)
    | UrlsDetected(count: nat)
    | AnalyzeNeedsDownload
    | NoUrls
    | Rule
    | ScrapingPhase
    | ScrapingUrl(current: nat, total: nat, domain: string)
    | Scraped(succeeded: nat, total: nat)
    | AnalysisPhase
    | DownloadingModel
    | AnalyzerNotice(notice: Analyzer.Notice)
    | DownloadFailed
    | LoadFailed
    | ReportSaved
    | AnalysisFailed(error: string)
    | ProcessDone
    | PipelineError(message: string)

  datatype LogLine = LogLine(message: Message, status: Status)

  /** A title between two rules, all three lines with the same status. */
  function Banner(title: Message, status: Status): seq<LogLine>
  {
    [LogLine(Rule, status), LogLine(title, status), LogLine(Rule, status)]
  }

  // ---------------------------------------------------------------------------
  // Reading dropped files

  /** A dropped file: its name, and its text or the message of the exception
      reading it raised. */
  datatype DroppedFile = DroppedFile(name: string, content: Fallible<string>)

  /** What `parse_url_file` makes of a file's text. */
  function ValidOf(parse: UrlParser.UrlParse, find: UrlParser.FindUrls, content: string): seq<string>
  {
    UrlParser.Scrapeable(parse, UrlParser.LinesUrls(parse, find, Split(Strip(content), '\n')))
  }

  function RejectedOf(parse: UrlParser.UrlParse, find: UrlParser.FindUrls, content: string): seq<string>
  {
    UrlParser.Rejected(parse, UrlParser.LinesUrls(parse, find, Split(Strip(content), '\n')))
  }

  /** The valid URLs of every file that could be read, file after file. */
  function FilesUrls(parse: UrlParser.UrlParse, find: UrlParser.FindUrls, files: seq<DroppedFile>): seq<string>
  {
    if files == [] then []
    else
      var f := files[|files| - 1];
      FilesUrls(parse, find, files[..|files| - 1])
        + (if f.content.Value? then ValidOf(parse, find, f.content.value) else [])
  }

  /** `invalid[:3]`. */
  function FirstThree(xs: seq<string>): seq<string>
  {
    if |xs| <= 3 then xs else xs[..3]
  }

  /** One warning per entry. */
  function SkippedLines(entries: seq<string>): seq<LogLine>
  {
    if entries == [] then []
    else SkippedLines(entries[..|entries| - 1]) + [LogLine(Skipped(entries[|entries| - 1]), Warning)]
  }

  /** The lines written for one file: its name, then up to three of its
      rejected entries, or the read error. */
  function FileLog(parse: UrlParser.UrlParse, find: UrlParser.FindUrls, f: DroppedFile): seq<LogLine>
  {
    [LogLine(Reading(f.name), Info)]
      + match f.content
        case Value(text) => SkippedLines(FirstThree(RejectedOf(parse, find, text)))
        case Raises(m) => [LogLine(ReadFailed(f.name, m), Error)]
  }

  function FilesLog(parse: UrlParser.UrlParse, find: UrlParser.FindUrls, files: seq<DroppedFile>): seq<LogLine>
  {
    if files == [] then []
    else FilesLog(parse, find, files[..|files| - 1]) + FileLog(parse, find, files[|files| - 1])
  }

  /** Every URL gathered from the files passes `is_scrapeable_url`. */
  lemma {:induction false} FilesUrlsScrapeable(parse: UrlParser.UrlParse, find: UrlParser.FindUrls, files: seq<DroppedFile>)
    ensures forall u :: u in FilesUrls(parse, find, files) ==> UrlParser.IsScrapeableUrl(parse, u).0
  {
    if files != [] {
      FilesUrlsScrapeable(parse, find, files[..|files| - 1]);
      var f := files[|files| - 1];
      if f.content.Value? {
        var text := f.content.value;
        UrlParser.PartitionComplete(parse, UrlParser.LinesUrls(parse, find, Split(Strip(text), '\n')));
      }
    }
  }

  // ---------------------------------------------------------------------------
  // The progress callback of the scraping phase

  /** The message of Python's `IndexError` on a list. */
  const IndexOutOfRange := "list index out of range"

  /** Counting from the first occurrence on. */
  lemma {:induction false} CountFromFirst(s: string, c: char)
    requires c in s
    ensures Count(s, c) == 1 + Count(s[IndexOf(s, c) + 1..], c)
  {
    if s[0] != c {
      CountFromFirst(s[1..], c);
      assert s[IndexOf(s, c) + 1..] == s[1..][IndexOf(s[1..], c) + 1..];
    }
  }

  lemma {:induction false} CountAbsent(s: string, c: char)
    requires c !in s
    ensures Count(s, c) == 0
  {
    if s != [] {
      CountAbsent(s[1..], c);
    }
  }

  /** Splitting on `c` gives one more part than there are `c`s. */
  lemma {:induction false} SplitCount(s: string, c: char)
    ensures |Split(s, c)| == Count(s, c) + 1
    decreases |s|
  {
    if c !in s {
      CountAbsent(s, c);
    } else {
      CountFromFirst(s, c);
      SplitCount(s[IndexOf(s, c) + 1..], c);
    }
  }

  /** `url.split('/')[2] if '/' in url else url`: the part after the second
      slash, which raises `IndexError` when there is only one slash. */
  function ProgressDomain(url: string): Fallible<string>
  {
    if '/' in url then
      var parts := Split(url, '/');
      if |parts| > 2 then Value(parts[2]) else Raises(IndexOutOfRange)
    else Value(url)
  }

  /** The domain slice raises exactly for URLs with a single slash; otherwise
      the domain holds no slash, and a URL without slashes is its own
      domain. */
  lemma ProgressDomainSpec(url: string)
    ensures var d := ProgressDomain(url);
      && (d.Raises? <==> Count(url, '/') == 1)
      && (d.Raises? ==> d.message == IndexOutOfRange)
      && (d.Value? ==> '/' !in d.value)
      && ('/' !in url ==> d == Value(url))
  {
    SplitCount(url, '/');
    if '/' !in url {
      CountAbsent(url, '/');
    } else {
      CountFromFirst(url, '/');
    }
  }

  /** The `scrape_progress` callback: it only logs, and it raises what the
      domain slice raises. */
  function ScrapeProgress(current: int, total: int, url: string): Outcome
  {
    match ProgressDomain(url)
    case Value(_) => Ok
    case Raises(m) => Raised(m)
  }

  /** With this callback the batch yields its results exactly when no URL
      has a single slash; otherwise the scrape raises `IndexError`. */
  lemma ProgressAbortsBatch(env: Scraper.Env, urls: seq<string>)
    ensures var o := Scraper.BatchOutcome(env, Some(ScrapeProgress), urls);
      && (o.Value? <==> forall j :: 0 <= j < |urls| ==> Count(urls[j], '/') != 1)
      && (o.Raises? ==> o.message == IndexOutOfRange)
  {
    Scraper.BatchOutcomeSpec(env, Some(ScrapeProgress), urls);
    forall j | 0 <= j < |urls|
      ensures Scraper.CallbackOutcome(Some(ScrapeProgress), urls, j).Ok? <==> Count(urls[j], '/') != 1
      ensures Scraper.CallbackOutcome(Some(ScrapeProgress), urls, j).Raised? ==>
        Scraper.CallbackOutcome(Some(ScrapeProgress), urls, j).message == IndexOutOfRange
    {
      ProgressDomainSpec(urls[j]);
    }
  }

  /** A URL typed without a scheme, such as "x.io/a", aborts the
      whole batch. */
  lemma SchemelessUrlAborts(env: Scraper.Env)
    ensures Scraper.BatchOutcome(env, Some(ScrapeProgress), ["x.io/a"]).Raises?
  {
    var urls := ["x.io/a"];
    ProgressAbortsBatch(env, urls);
    assert Count("/a", '/') == 1;
    assert Count(urls[0], '/') == 1;
  }

  /** What one call of `scrape_progress` logs: the position and the first
      40 characters of the domain, or nothing when the domain slice
      raises before the line is written. */
  function ProgressLine(current: nat, total: nat, url: string): seq<LogLine>
  {
    match ProgressDomain(url)
    case Value(d) => [LogLine(ScrapingUrl(current, total, Prefix(d, 40)), Info)]
    case Raises(_) => []
  }

  /** What the callback logs over the first `k` turns of the batch. */
  function ProgressLines(urls: seq<string>, k: nat): seq<LogLine>
    requires k <= |urls|
  {
    if k == 0 then [] else ProgressLines(urls, k - 1) + ProgressLine(k, |urls|, urls[k - 1])
  }

  /** While every domain slice succeeds, turn `i` logs line `i`: position
      `i + 1` of the batch and the first 40 characters of its domain. */
  lemma {:induction false} ProgressLinesWhileOk(urls: seq<string>, m: nat)
    requires m <= |urls|
    requires forall j :: 0 <= j < m ==> ProgressDomain(urls[j]).Value?
    ensures var lines := ProgressLines(urls, m);
      && |lines| == m
      && forall i :: 0 <= i < m ==>
           lines[i] == LogLine(ScrapingUrl(i + 1, |urls|, Prefix(ProgressDomain(urls[i]).value, 40)), Info)
  {
    if m > 0 {
      ProgressLinesWhileOk(urls, m - 1);
    }
  }

  /** What the scrape stage logs besides its banner: nothing when the
      browser does not launch, else one line per turn of the batch whose
      callback returns. */
  function ScrapeLines(env: Scraper.Env, urls: seq<string>): seq<LogLine>
  {
    if env.launchError.Some? then []
    else ProgressLines(urls, Scraper.BatchTurns(Some(ScrapeProgress), urls))
  }

  /** A launched batch logs one line per URL before the first one whose
      domain slice raises (all of them when none does); line `i` names
      position `i + 1` of `|urls|` and at most 40 characters of a domain
      without slashes. */
  lemma ScrapeLinesSpec(env: Scraper.Env, urls: seq<string>)
    requires env.launchError.None?
    ensures var lines := ScrapeLines(env, urls);
      var k := Scraper.FirstRaise(Some(ScrapeProgress), urls, 0);
      && |lines| == k
      && (k < |urls| ==> Count(urls[k], '/') == 1)
      && forall i :: 0 <= i < k ==>
           && Count(urls[i], '/') != 1
           && lines[i].status == Info && lines[i].message.ScrapingUrl?
           && lines[i].message.current == i + 1 && lines[i].message.total == |urls|
           && |lines[i].message.domain| <= 40 && '/' !in lines[i].message.domain
  {
    var cb := Some(ScrapeProgress);
    Scraper.FirstRaiseSpec(cb, urls, 0);
    var k := Scraper.FirstRaise(cb, urls, 0);
    forall j | 0 <= j < |urls|
      ensures Scraper.CallbackOutcome(cb, urls, j).Ok? <==> ProgressDomain(urls[j]).Value?
      ensures ProgressDomain(urls[j]).Raises? <==> Count(urls[j], '/') == 1
      ensures ProgressDomain(urls[j]).Value? ==> '/' !in ProgressDomain(urls[j]).value
    {
      ProgressDomainSpec(urls[j]);
    }
    ProgressLinesWhileOk(urls, k);
    if k < |urls| {
      assert ProgressLine(k + 1, |urls|, urls[k]) == [];
      assert ProgressLines(urls, k + 1) == ProgressLines(urls, k) + [];
    }
    forall i | 0 <= i < k
      ensures |Prefix(ProgressDomain(urls[i]).value, 40)| <= 40
      ensures '/' !in Prefix(ProgressDomain(urls[i]).value, 40)
    {
      var d := ProgressDomain(urls[i]).value;
      assert Prefix(d, 40) == d[..|Prefix(d, 40)|];
    }
  }

  // ---------------------------------------------------------------------------
  // Results and file names

  /** `[r for r in results if r.success]`. */
  function Successes(results: seq<Scraper.ScrapeResult>): seq<Scraper.ScrapeResult>
  {
    if results == [] then []
    else
      var r := results[|results| - 1];
      Successes(results[..|results| - 1]) + (if r.success then [r] else [])
  }

  /** The successes are exactly the successful results. */
  lemma {:induction false} SuccessesSpec(results: seq<Scraper.ScrapeResult>)
    ensures forall r :: r in Successes(results) <==> r in results && r.success
  {
    if results != [] {
      SuccessesSpec(results[..|results| - 1]);
      assert results == results[..|results| - 1] + [results[|results| - 1]];
    }
  }

  /** Filtering keeps the order: it distributes over concatenation. */
  lemma {:induction false} SuccessesAppend(a: seq<Scraper.ScrapeResult>, b: seq<Scraper.ScrapeResult>)
    ensures Successes(a + b) == Successes(a) + Successes(b)
  {
    if b == [] {
      assert a + b == a;
    } else {
      var init := b[..|b| - 1];
      var r := b[|b| - 1];
      assert (a + b)[..|a + b| - 1] == a + init;
      SuccessesAppend(a, init);
      AppendAssoc(Successes(a), Successes(init), if r.success then [r] else []);
    }
  }

  /** `[r.markdown for r in successful]`. */
  function Markdowns(results: seq<Scraper.ScrapeResult>): (m: seq<string>)
    ensures |m| == |results| && forall i :: 0 <= i < |results| ==> m[i] == results[i].markdown
  {
    seq(|results|, i requires 0 <= i < |results| => results[i].markdown)
  }

  /** The characters the file name keeps: `c.isalnum() or c in '_.-'`. */
  predicate Kept(isAlnum: char -> bool, c: char)
  {
    isAlnum(c) || c == '_' || c == '.' || c == '-'
  }

  /** `"".join(c for c in s if ...)`. */
  function Filtered(isAlnum: char -> bool, s: string): (r: string)
    ensures |r| <= |s| && forall c :: c in r ==> Kept(isAlnum, c) && c in s
  {
    if s == [] then [] else (if Kept(isAlnum, s[0]) then [s[0]] else []) + Filtered(isAlnum, s[1..])
  }

  lemma {:induction false} FilteredAppend(isAlnum: char -> bool, a: string, b: string)
    ensures Filtered(isAlnum, a + b) == Filtered(isAlnum, a) + Filtered(isAlnum, b)
  {
    if a == [] {
      assert a + b == b;
    } else {
      assert (a + b)[0] == a[0];
      assert (a + b)[1..] == a[1..] + b;
      FilteredAppend(isAlnum, a[1..], b);
      AppendAssoc(if Kept(isAlnum, a[0]) then [a[0]] else [], Filtered(isAlnum, a[1..]), Filtered(isAlnum, b));
    }
  }

  /** A string of kept characters passes the filter unchanged. */
  lemma {:induction false} FilteredKept(isAlnum: char -> bool, s: string)
    requires forall c :: c in s ==> Kept(isAlnum, c)
    ensures Filtered(isAlnum, s) == s
  {
    if s != [] {
      FilteredKept(isAlnum, s[1..]);
    }
  }

  /** `s.replace(' ', '_')`. */
  function Underscored(s: string): string
  {
    Replace(s, " ", "_")
  }

  /** Replacing spaces changes exactly the spaces. */
  lemma {:induction false} UnderscoredSpec(s: string)
    ensures var r := Underscored(s);
      |r| == |s| && ' ' !in r && forall i :: 0 <= i < |s| ==> r[i] == if s[i] == ' ' then '_' else s[i]
  {
    if s != [] {
      UnderscoredSpec(s[1..]);
    }
  }

  /** What `str.isalnum` says of the ASCII letters and digits. */
  predicate AsciiAlnum(isAlnum: char -> bool)
  {
    forall c :: ('a' <= c <= 'z' || 'A' <= c <= 'Z' || '0' <= c <= '9') ==> isAlnum(c)
  }

  /** The fixed parts of the name pass the filter. */
  lemma PrefixKept(isAlnum: char -> bool)
    requires isAlnum('s') && isAlnum('c') && isAlnum('r') && isAlnum('a') && isAlnum('p') && isAlnum('e')
    ensures Filtered(isAlnum, "scrape_") == "scrape_"
  {
    FilteredKept(isAlnum, "scrape_");
  }

  lemma ExtensionKept(isAlnum: char -> bool)
    requires isAlnum('m') && isAlnum('d')
    ensures Filtered(isAlnum, ".md") == ".md"
  {
    FilteredKept(isAlnum, ".md");
  }

  /** A sequence framed by two others starts with the first and ends with
      the second. */
  lemma Framed<T>(a: seq<T>, x: seq<T>, b: seq<T>)
    ensures var f := a + x + b;
      |f| == |a| + |x| + |b| && f[..|a|] == a && f[|f| - |b|..] == b
      && forall y :: y in f <==> y in a || y in x || y in b
  {
  }

  /** Filtering a string framed by two kept strings filters the middle. */
  lemma FilteredFramed(isAlnum: char -> bool, p: string, m: string, e: string)
    requires Filtered(isAlnum, p) == p && Filtered(isAlnum, e) == e
    ensures Filtered(isAlnum, p + m + e) == p + Filtered(isAlnum, m) + e
  {
    FilteredAppend(isAlnum, p + m, e);
    FilteredAppend(isAlnum, p, m);
  }

  /** The fixed parts of the name hold no space. */
  lemma FixedPartsUnspaced()
    ensures ' ' !in "scrape_" && ' ' !in ".md"
  {
  }

  /** The name a successful page is saved under. */
  function OutputFilename(isAlnum: char -> bool, title: string): string
  {
    Filtered(isAlnum, "scrape_" + Underscored(Prefix(title, 30)) + ".md")
  }

  /** The name starts with "scrape_", ends with ".md", is at most 40
      characters long and holds only letters, digits, `_`, `.` and `-`,
      never a space. */
  lemma OutputFilenameSpec(isAlnum: char -> bool, title: string)
    requires AsciiAlnum(isAlnum)
    ensures var f := OutputFilename(isAlnum, title);
      && StartsWith(f, "scrape_") && EndsWith(f, ".md") && |f| <= 40
      && ' ' !in f && forall c :: c in f ==> Kept(isAlnum, c)
  {
    var mid := Underscored(Prefix(title, 30));
    UnderscoredSpec(Prefix(title, 30));
    assert isAlnum('s') && isAlnum('c') && isAlnum('r') && isAlnum('a') && isAlnum('p') && isAlnum('e');
    PrefixKept(isAlnum);
    assert isAlnum('m') && isAlnum('d');
    ExtensionKept(isAlnum);
    FilteredFramed(isAlnum, "scrape_", mid, ".md");
    var x := Filtered(isAlnum, mid);
    Framed("scrape_", x, ".md");
    FixedPartsUnspaced();
  }

  /** A short title made only of kept characters, without spaces, is kept
      whole between the prefix and the extension. */
  lemma OutputFilenameKeepsCleanTitle(isAlnum: char -> bool, title: string)
    requires AsciiAlnum(isAlnum)
    requires |title| <= 30 && ' ' !in title && forall c :: c in title ==> Kept(isAlnum, c)
    ensures OutputFilename(isAlnum, title) == "scrape_" + title + ".md"
  {
    UnderscoredSpec(title);
    assert Underscored(title) == title;
    FilteredKept(isAlnum, "scrape_" + title + ".md");
  }

  /** A markdown file written to the output folder. */
  datatype SavedFile = SavedFile(name: string, markdown: string)

  /** The files the pipeline saves, one per successful result, in order. */
  function SavedFiles(isAlnum: char -> bool, successful: seq<Scraper.ScrapeResult>): (s: seq<SavedFile>)
    ensures |s| == |successful|
  {
    if successful == [] then []
    else
      var r := successful[|successful| - 1];
      SavedFiles(isAlnum, successful[..|successful| - 1]) + [SavedFile(OutputFilename(isAlnum, r.title), r.markdown)]
  }

  /** The i-th saved file holds the i-th successful page under its name. */
  lemma {:induction false} SavedFilesAt(isAlnum: char -> bool, successful: seq<Scraper.ScrapeResult>, i: int)
    requires 0 <= i < |successful|
    ensures SavedFiles(isAlnum, successful)[i]
      == SavedFile(OutputFilename(isAlnum, successful[i].title), successful[i].markdown)
  {
    var n := |successful| - 1;
    if i < n {
      SavedFilesAt(isAlnum, successful[..n], i);
    }
  }

  // ---------------------------------------------------------------------------
  // The pipeline

  /** The outside facts the analysis phase depends on: whether the model
      file is present, whether downloading it succeeds, whether the
      analyzer has the model loaded, and what loading it yields. */
  datatype AiSetup = AiSetup(modelAvailable: bool, downloadOk: bool, analyzerLoaded: bool, load: Analyzer.LoadOutcome)

  /** The report the analyzer writes from the contents, on the topic
      "Investigación Web". */
  type Generate = seq<string> -> Analyzer.AnalysisResult

  /** The model is on disk (or was downloaded) and loaded (or loads). */
  predicate ModelReady(ai: AiSetup)
  {
    (ai.modelAvailable || ai.downloadOk) && (ai.analyzerLoaded || ai.load.Loaded?)
  }

  /** What `scrape_urls` delivers to a pipeline whose browser is closed:
      the launch error, or the batch with the pipeline's callback. */
  function ScrapeStage(env: Scraper.Env, urls: seq<string>): Fallible<seq<Scraper.ScrapeResult>>
  {
    if env.launchError.Some? then Raises(env.launchError.value)
    else Scraper.BatchOutcome(env, Some(ScrapeProgress), urls)
  }

  /** What the scraper records over that scrape, with `delay` between
      requests: nothing when the browser does not launch; otherwise the
      launch, the turns of the batch and the close. */
  function ScrapeEvents(env: Scraper.Env, urls: seq<string>, delay: real): seq<Scraper.Event>
  {
    if env.launchError.Some? then []
    else
      [Scraper.Launched]
        + Scraper.Trace(Some(ScrapeProgress), delay, urls, Scraper.BatchTurns(Some(ScrapeProgress), urls))
        + [Scraper.Closed]
  }

  /** A launched scrape opens and closes the browser once and fetches the
      URLs before the first one whose domain slice raises, in order; when
      the scrape delivers, that is every URL, with one pause between
      consecutive URLs when the delay is positive. */
  lemma ScrapeEventsSpec(env: Scraper.Env, urls: seq<string>, delay: real)
    requires env.launchError.None?
    ensures var t := ScrapeEvents(env, urls, delay);
      var k := Scraper.FirstRaise(Some(ScrapeProgress), urls, 0);
      && |t| >= 2 && t[0] == Scraper.Launched && t[|t| - 1] == Scraper.Closed
      && Scraper.FetchedUrls(t) == urls[..k]
      && (ScrapeStage(env, urls).Value? ==>
            k == |urls| && Scraper.Pauses(t) == if delay <= 0.0 || |urls| == 0 then 0 else |urls| - 1)
  {
    var cb := Some(ScrapeProgress);
    var trace := Scraper.Trace(cb, delay, urls, Scraper.BatchTurns(cb, urls));
    Scraper.BatchTraceCounts(cb, delay, urls);
    Scraper.BracketCounts(trace);
    if ScrapeStage(env, urls).Value? {
      Scraper.BatchOutcomeSpec(env, cb, urls);
    }
  }

  /** What `analyzer_progress` logs for the analyzer's notices. */
  function NoticeLines(notices: seq<Analyzer.Notice>): seq<LogLine>
  {
    if notices == [] then [] else [LogLine(AnalyzerNotice(notices[0]), Ai)] + NoticeLines(notices[1..])
  }

  /** The lines are the notices, in order, each with status `Ai`. */
  lemma {:induction false} NoticeLinesSpec(notices: seq<Analyzer.Notice>)
    ensures var lines := NoticeLines(notices);
      && |lines| == |notices|
      && (forall i :: 0 <= i < |notices| ==> lines[i] == LogLine(AnalyzerNotice(notices[i]), Ai))
      && (forall l :: l in lines <==> l.status == Ai && l.message.AnalyzerNotice? && l.message.notice in notices)
  {
    if notices != [] {
      NoticeLinesSpec(notices[1..]);
      assert notices == [notices[0]] + notices[1..];
    }
  }

  /** The lines of the load step: the load's notices when the analyzer
      has no model yet, then an error line when loading fails. */
  function LoadLog(ai: AiSetup): seq<LogLine>
  {
    if ai.analyzerLoaded then []
    else
      NoticeLines(Analyzer.LoadNotices(true, ai.load))
        + (if ai.load.Loaded? then [] else [LogLine(LoadFailed, Error)])
  }

  /** The lines of the report step: the analysis notices, then the outcome. */
  function ReportLog(result: Analyzer.AnalysisResult): seq<LogLine>
  {
    NoticeLines(Analyzer.AnalysisNotices(true, result.success))
      + (if result.success then [LogLine(ReportSaved, Success)]
         else [LogLine(AnalysisFailed(result.error), Error)])
  }

  /** The lines of the analysis phase after the download announcement: the
      download error, or the load step and, when the model is ready, the
      report step with the report `result`. */
  function PhaseTail(ai: AiSetup, result: Analyzer.AnalysisResult): seq<LogLine>
  {
    if !ai.modelAvailable && !ai.downloadOk then [LogLine(DownloadFailed, Error)]
    else LoadLog(ai) + (if ModelReady(ai) then ReportLog(result) else [])
  }

  /** The lines of the analysis phase. */
  function AnalysisLog(ai: AiSetup, contents: seq<string>, generate: Generate): seq<LogLine>
  {
    Banner(AnalysisPhase, Ai)
      + (if ai.modelAvailable then [] else [LogLine(DownloadingModel, Ai)])
      + PhaseTail(ai, generate(contents))
  }

  /** The analysis phase ends with an error line exactly when the model is
      not ready or the report fails, and with the saved-report line
      otherwise. */
  lemma AnalysisLogEnds(ai: AiSetup, contents: seq<string>, generate: Generate)
    ensures var log := AnalysisLog(ai, contents, generate);
      var produced := ModelReady(ai) && generate(contents).success;
      && |log| >= 4
      && (log[|log| - 1].status == Error <==> !produced)
      && (produced ==> log[|log| - 1] == LogLine(ReportSaved, Success))
  {
    var head := Banner(AnalysisPhase, Ai) + (if ai.modelAvailable then [] else [LogLine(DownloadingModel, Ai)]);
    PhaseTailEnds(ai, generate(contents));
    FromEnd(head, PhaseTail(ai, generate(contents)), 1);
  }

  /** The tail of the phase ends with an error line exactly when the model
      is not ready or the report fails, and otherwise with the saved-report
      line. */
  lemma PhaseTailEnds(ai: AiSetup, result: Analyzer.AnalysisResult)
    ensures var tail := PhaseTail(ai, result);
      var produced := ModelReady(ai) && result.success;
      && |tail| >= 1
      && (tail[|tail| - 1].status == Error <==> !produced)
      && (produced ==> tail[|tail| - 1] == LogLine(ReportSaved, Success))
  {
    if !ai.modelAvailable && !ai.downloadOk {
    } else if ModelReady(ai) {
      ReportLogEnds(result);
      FromEnd(LoadLog(ai), ReportLog(result), 1);
    } else {
      LoadLogEnds(ai);
      assert PhaseTail(ai, result) == LoadLog(ai) + [];
    }
  }

  /** A failed load ends its step with the error line. */
  lemma LoadLogEnds(ai: AiSetup)
    requires !ai.analyzerLoaded && !ai.load.Loaded?
    ensures |LoadLog(ai)| >= 1 && LoadLog(ai)[|LoadLog(ai)| - 1] == LogLine(LoadFailed, Error)
  {
    FromEnd(NoticeLines(Analyzer.LoadNotices(true, ai.load)), [LogLine(LoadFailed, Error)], 1);
  }

  /** The report step ends with the saved-report line or the error. */
  lemma ReportLogEnds(result: Analyzer.AnalysisResult)
    ensures var log := ReportLog(result);
      && |log| >= 1
      && log[|log| - 1] == if result.success then LogLine(ReportSaved, Success)
                           else LogLine(AnalysisFailed(result.error), Error)
  {
    var last := if result.success then LogLine(ReportSaved, Success) else LogLine(AnalysisFailed(result.error), Error);
    FromEnd(NoticeLines(Analyzer.AnalysisNotices(true, result.success)), [last], 1);
  }

  /** The load step logs the "loading" notice exactly when it loads, and
      never the "done" notice. */
  lemma LoadLogNotices(ai: AiSetup)
    ensures LogLine(AnalyzerNotice(Analyzer.AnalysisDone), Ai) !in LoadLog(ai)
    ensures LogLine(AnalyzerNotice(Analyzer.LoadingModel), Ai) in LoadLog(ai) <==> !ai.analyzerLoaded
  {
    if !ai.analyzerLoaded {
      NoticeLinesSpec(Analyzer.LoadNotices(true, ai.load));
    }
  }

  /** The report step logs the "done" notice exactly when the report
      succeeds, and never the "loading" notice. */
  lemma ReportLogNotices(result: Analyzer.AnalysisResult)
    ensures LogLine(AnalyzerNotice(Analyzer.LoadingModel), Ai) !in ReportLog(result)
    ensures LogLine(AnalyzerNotice(Analyzer.AnalysisDone), Ai) in ReportLog(result) <==> result.success
  {
    NoticeLinesSpec(Analyzer.AnalysisNotices(true, result.success));
  }

  /** The analyzer's "loading" notice is logged exactly when the model
      file is there and not loaded yet, and its "done" notice exactly when
      a report is produced. */
  lemma AnalysisLogNotices(ai: AiSetup, contents: seq<string>, generate: Generate)
    ensures var log := AnalysisLog(ai, contents, generate);
      && (LogLine(AnalyzerNotice(Analyzer.LoadingModel), Ai) in log <==>
            (ai.modelAvailable || ai.downloadOk) && !ai.analyzerLoaded)
      && (LogLine(AnalyzerNotice(Analyzer.AnalysisDone), Ai) in log <==>
            ModelReady(ai) && generate(contents).success)
  {
    var done := LogLine(AnalyzerNotice(Analyzer.AnalysisDone), Ai);
    var loading := LogLine(AnalyzerNotice(Analyzer.LoadingModel), Ai);
    var head := Banner(AnalysisPhase, Ai) + (if ai.modelAvailable then [] else [LogLine(DownloadingModel, Ai)]);
    assert done !in head && loading !in head;
    if !ai.modelAvailable && !ai.downloadOk {
      assert AnalysisLog(ai, contents, generate) == head + [LogLine(DownloadFailed, Error)];
      return;
    }
    var load := LoadLog(ai);
    var report := if ModelReady(ai) then ReportLog(generate(contents)) else [];
    LoadLogNotices(ai);
    if ModelReady(ai) {
      ReportLogNotices(generate(contents));
    }
    assert AnalysisLog(ai, contents, generate) == head + (load + report);
  }

  /** What one run of the pipeline adds: the application's own terminal lines, saved pages, report
      requests and saved reports. */
  datatype Run = Run(log: seq<LogLine>, saved: seq<SavedFile>, inputs: seq<seq<string>>, reports: seq<string>)

  /** The lines after the page count: the analysis phase when it runs, then
      the completion banner unless the model was not ready. */
  function ClosingLog(analyse: bool, ai: AiSetup, contents: seq<string>, generate: Generate): seq<LogLine>
  {
    (if analyse then AnalysisLog(ai, contents, generate) else [])
      + (if !analyse || ModelReady(ai) then Banner(ProcessDone, Success) else [])
  }

  /** The closing lines end with the completion banner unless the analysis
      phase runs and the model is not ready; then they end with an error
      line. */
  lemma ClosingEnds(analyse: bool, ai: AiSetup, contents: seq<string>, generate: Generate)
    ensures var log := ClosingLog(analyse, ai, contents, generate);
      && |log| >= 1
      && (!analyse || ModelReady(ai) ==> |log| >= 3 && log[|log| - 2] == LogLine(ProcessDone, Success))
      && (analyse && !ModelReady(ai) ==> log[|log| - 1].status == Error)
  {
    var phase := if analyse then AnalysisLog(ai, contents, generate) else [];
    if analyse && !ModelReady(ai) {
      AnalysisLogEnds(ai, contents, generate);
      assert ClosingLog(analyse, ai, contents, generate) == phase + [];
    } else {
      FromEnd(phase, Banner(ProcessDone, Success), 2);
    }
  }

  /** The run after a scrape that delivered `results`. */
  function AfterScrape(isAlnum: char -> bool, results: seq<Scraper.ScrapeResult>, useAi: bool, ai: AiSetup,
                       generate: Generate): Run
  {
    var successful := Successes(results);
    var analyse := useAi && successful != [];
    var contents := Markdowns(successful);
    var requested := analyse && ModelReady(ai);
    Run([LogLine(Scraped(|successful|, |results|), Success)] + ClosingLog(analyse, ai, contents, generate),
        SavedFiles(isAlnum, successful),
        if requested then [contents] else [],
        if requested && generate(contents).success then [generate(contents).summary] else [])
  }

  /** The run after the scrape stage: an error line when it raised. */
  function AfterStage(isAlnum: char -> bool, stage: Fallible<seq<Scraper.ScrapeResult>>, useAi: bool, ai: AiSetup,
                      generate: Generate): Run
  {
    match stage
    case Raises(m) => Run([LogLine(PipelineError(m), Error)], [], [], [])
    case Value(results) => AfterScrape(isAlnum, results, useAi, ai, generate)
  }

  function Pipeline(isAlnum: char -> bool, env: Scraper.Env, urls: seq<string>, useAi: bool, ai: AiSetup,
                    generate: Generate): Run
  {
    var rest := AfterStage(isAlnum, ScrapeStage(env, urls), useAi, ai, generate);
    Run(Banner(ScrapingPhase, Info) + ScrapeLines(env, urls) + rest.log, rest.saved, rest.inputs, rest.reports)
  }

  /** A report is asked for exactly when the scrape delivers, the mode is
      analysis, some page succeeded and the model is ready; it is asked for
      the markdown of the successful pages, in scrape order, and a page is
      saved for each of them. */
  lemma PipelineReport(isAlnum: char -> bool, env: Scraper.Env, urls: seq<string>, useAi: bool, ai: AiSetup,
                       generate: Generate)
    ensures var run := Pipeline(isAlnum, env, urls, useAi, ai, generate);
      var stage := ScrapeStage(env, urls);
      && (run.inputs != [] <==> stage.Value? && useAi && Successes(stage.value) != [] && ModelReady(ai))
      && (stage.Value? ==> forall r :: r in Successes(stage.value) <==> r in stage.value && r.success)
      && (run.inputs != [] ==> run.inputs == [Markdowns(Successes(stage.value))])
      && (stage.Value? ==> |run.saved| == |Successes(stage.value)|)
      && (stage.Raises? ==> run.saved == [] && run.reports == [])
      && |run.reports| <= |run.inputs| <= 1
  {
    var stage := ScrapeStage(env, urls);
    if stage.Value? {
      SuccessesSpec(stage.value);
    }
  }

  /** The run ends with the completion banner exactly when it is not cut
      short by a raising scrape, a failed download or a failed load. */
  lemma PipelineCompletes(isAlnum: char -> bool, env: Scraper.Env, urls: seq<string>, useAi: bool, ai: AiSetup,
                          generate: Generate)
    ensures var run := Pipeline(isAlnum, env, urls, useAi, ai, generate);
      var stage := ScrapeStage(env, urls);
      var done := stage.Value? && (!useAi || Successes(stage.value) == [] || ModelReady(ai));
      && |run.log| >= 4
      && (done ==> run.log[|run.log| - 2] == LogLine(ProcessDone, Success))
      && (!done ==> run.log[|run.log| - 1].status == Error)
  {
    var stage := ScrapeStage(env, urls);
    var rest := AfterStage(isAlnum, stage, useAi, ai, generate);
    var scraping := Banner(ScrapingPhase, Info) + ScrapeLines(env, urls);
    if stage.Value? {
      AfterScrapeEnds(isAlnum, stage.value, useAi, ai, generate);
      FromEnd(scraping, rest.log, 2);
    }
    FromEnd(scraping, rest.log, 1);
  }

  /** After a delivered scrape the run ends with the completion banner,
      unless the analysis phase runs and the model is not ready; then it
      ends with an error line. */
  lemma AfterScrapeEnds(isAlnum: char -> bool, results: seq<Scraper.ScrapeResult>, useAi: bool, ai: AiSetup,
                        generate: Generate)
    ensures var log := AfterScrape(isAlnum, results, useAi, ai, generate).log;
      var done := !useAi || Successes(results) == [] || ModelReady(ai);
      && |log| >= 1
      && (done ==> |log| >= 3 && log[|log| - 2] == LogLine(ProcessDone, Success))
      && (!done ==> log[|log| - 1].status == Error)
  {
    var successful := Successes(results);
    var analyse := useAi && successful != [];
    var closing := ClosingLog(analyse, ai, Markdowns(successful), generate);
    var count := [LogLine(Scraped(|successful|, |results|), Success)];
    ClosingEnds(analyse, ai, Markdowns(successful), generate);
    assert AfterScrape(isAlnum, results, useAi, ai, generate).log == count + closing;
    FromEnd(count, closing, 1);
    if !analyse || ModelReady(ai) {
      FromEnd(count, closing, 2);
    }
  }

  /** `PrismaApp`: the state the handlers share. `logs` holds the lines the
      application itself writes with `log_to_terminal`; the logger lines
      forwarded to the same terminal are not part of it. */
  class PrismaApp {
    const scraper: Scraper.WebScraper
    var isProcessing: bool
    var currentUrls: seq<string>
    var logs: seq<LogLine>
    var saved: seq<SavedFile>
    var reportInputs: seq<seq<string>>
    var reports: seq<string>

    /** Between runs the scraper's browser is closed. */
    predicate Valid()
      reads this, scraper
    {
      !scraper.browserOpen
    }

    /** `__init__`: nothing loaded, no URLs, and the start-up line logged. */
    constructor()
      ensures Valid() && fresh(scraper)
      ensures !isProcessing && currentUrls == [] && saved == [] && reportInputs == [] && reports == []
      ensures logs == [LogLine(Started, Info)]
    {
      scraper := new Scraper.WebScraper(None);
      isProcessing := false;
      currentUrls := [];
      logs := [LogLine(Started, Info)];
      saved := [];
      reportInputs := [];
      reports := [];
    }

    /** `log_to_terminal`. */
    method Log(line: LogLine)
      modifies this`logs
      ensures logs == old(logs) + [line]
    {
      logs := logs + [line];
    }

    /** `handle_file_drop` followed by `_process_files`: every readable
        file's valid URLs are gathered, file after file, and the URL list
        becomes them without duplicates. */
    method HandleFileDrop(parse: UrlParser.UrlParse, find: UrlParser.FindUrls, files: seq<DroppedFile>)
      modifies this`currentUrls, this`logs
      ensures currentUrls == Dedup(FilesUrls(parse, find, files))
      ensures UrlParser.Distinct(currentUrls)
      ensures forall u :: u in currentUrls <==> u in FilesUrls(parse, find, files)
      ensures forall u :: u in currentUrls ==> UrlParser.IsScrapeableUrl(parse, u).0
      ensures logs == old(logs) + [LogLine(FilesReceived(|files|), Info)] + FilesLog(parse, find, files)
        + (if currentUrls != [] then [LogLine(UrlsDetected(|currentUrls|), Success)] else [])
    {
      Log(LogLine(FilesReceived(|files|), Info));
      var all := ProcessFiles(parse, find, files);
      currentUrls := Dedup(all);
      DedupSpec(all);
      FilesUrlsScrapeable(parse, find, files);
      if currentUrls != [] {
        Log(LogLine(UrlsDetected(|currentUrls|), Success));
      } else {
        AppendNil(old(logs) + [LogLine(FilesReceived(|files|), Info)] + FilesLog(parse, find, files));
      }
    }

    /** The loop of `_process_files`, gathering the valid URLs. */
    method ProcessFiles(parse: UrlParser.UrlParse, find: UrlParser.FindUrls, files: seq<DroppedFile>)
      returns (all: seq<string>)
      modifies this`logs
      ensures all == FilesUrls(parse, find, files)
      ensures logs == old(logs) + FilesLog(parse, find, files)
    {
      all := [];
      for i := 0 to |files|
        invariant all == FilesUrls(parse, find, files[..i])
        invariant logs == old(logs) + FilesLog(parse, find, files[..i])
      {
        ReadFile(parse, find, files[i]);
        var valid := if files[i].content.Value? then ValidOf(parse, find, files[i].content.value) else [];
        all := all + valid;
        TakeTake(files, i, i + 1);
        AppendAssoc(old(logs), FilesLog(parse, find, files[..i]), FileLog(parse, find, files[i]));
      }
      TakeAll(files);
    }

    /** One turn of that loop: the file's name, then its first three
        rejected entries or the read error. */
    method ReadFile(parse: UrlParser.UrlParse, find: UrlParser.FindUrls, f: DroppedFile)
      modifies this`logs
      ensures logs == old(logs) + FileLog(parse, find, f)
    {
      Log(LogLine(Reading(f.name), Info));
      match f.content {
        case Value(text) =>
          var urls, invalid := UrlParser.ParseUrlFile(parse, find, text);
          LogSkipped(FirstThree(invalid));
          AppendAssoc(old(logs), [LogLine(Reading(f.name), Info)], SkippedLines(FirstThree(invalid)));
        case Raises(m) =>
          Log(LogLine(ReadFailed(f.name, m), Error));
          AppendAssoc(old(logs), [LogLine(Reading(f.name), Info)], [LogLine(ReadFailed(f.name, m), Error)]);
      }
    }

    /** A warning for each skipped entry. */
    method LogSkipped(shown: seq<string>)
      modifies this`logs
      ensures logs == old(logs) + SkippedLines(shown)
    {
      for k := 0 to |shown|
        invariant logs == old(logs) + SkippedLines(shown[..k])
      {
        Log(LogLine(Skipped(shown[k]), Warning));
        TakeTake(shown, k, k + 1);
        AppendAssoc(old(logs), SkippedLines(shown[..k]), [LogLine(Skipped(shown[k]), Warning)]);
      }
      TakeAll(shown);
    }

    /** `handle_mode_change`: choosing analysis without the model on disk
        warns that it will be downloaded. */
    method HandleModeChange(mode: string, modelAvailable: bool)
      modifies this`logs
      ensures logs == old(logs) + if mode == "analyze" && !modelAvailable then [LogLine(AnalyzeNeedsDownload, Warning)] else []
    {
      if mode == "analyze" {
        if !modelAvailable {
          Log(LogLine(AnalyzeNeedsDownload, Warning));
        }
      }
    }

    /** `handle_execute`: nothing while a run is in progress; otherwise the
        typed URLs join the list without duplicates, and the pipeline starts
        only when the list is not empty, a warning being written when it
        is. */
    method HandleExecute(typed: Option<string>) returns (start: bool)
      modifies this`currentUrls, this`logs
      ensures old(isProcessing) ==> !start && currentUrls == old(currentUrls) && logs == old(logs)
      ensures !old(isProcessing) ==>
        var manual := Components.GetUrls(typed);
        && currentUrls == (if manual != [] then Dedup(old(currentUrls) + manual) else old(currentUrls))
        && (start <==> currentUrls != [])
        && logs == old(logs) + (if start then [] else [LogLine(NoUrls, Warning)])
      ensures !old(isProcessing) && Components.GetUrls(typed) != [] ==>
        && UrlParser.Distinct(currentUrls)
        && forall u :: u in currentUrls <==> u in old(currentUrls) || u in Components.GetUrls(typed)
    {
      if isProcessing {
        return false;
      }
      var manual := Components.GetUrls(typed);
      if manual != [] {
        DedupSpec(currentUrls + manual);
        currentUrls := Dedup(currentUrls + manual);
      }
      if currentUrls == [] {
        Log(LogLine(NoUrls, Warning));
        return false;
      }
      return true;
    }

    /** The loop that saves each successful page. */
    method SaveAll(isAlnum: char -> bool, successful: seq<Scraper.ScrapeResult>)
      modifies this`saved
      ensures saved == old(saved) + SavedFiles(isAlnum, successful)
    {
      for i := 0 to |successful|
        invariant saved == old(saved) + SavedFiles(isAlnum, successful[..i])
      {
        var r := successful[i];
        saved := saved + [SavedFile(OutputFilename(isAlnum, r.title), r.markdown)];
        assert successful[..i + 1][..i] == successful[..i];
        AppendAssoc(old(saved), SavedFiles(isAlnum, successful[..i]), [SavedFile(OutputFilename(isAlnum, r.title), r.markdown)]);
      }
      assert successful[..|successful|] == successful;
    }

    /** `analyzer_progress`, called with each notice the analyzer sends, in
        order. */
    method LogNotices(notices: seq<Analyzer.Notice>)
      modifies this`logs
      ensures logs == old(logs) + NoticeLines(notices)
    {
      logs := logs + NoticeLines(notices);
    }

    /** `log_to_terminal` three times: a title between two rules. */
    method LogBanner(title: Message, status: Status)
      modifies this`logs
      ensures logs == old(logs) + Banner(title, status)
    {
      Log(LogLine(Rule, status));
      Log(LogLine(title, status));
      Log(LogLine(Rule, status));
    }

    /** The load step of phase 2: when the analyzer has no model, load it
        with the notices logged, and log an error if that fails. */
    method LoadStep(ai: AiSetup) returns (ok: bool)
      modifies this`logs
      ensures ok == (ai.analyzerLoaded || ai.load.Loaded?)
      ensures logs == old(logs) + LoadLog(ai)
    {
      if ai.analyzerLoaded {
        return true;
      }
      LogNotices(Analyzer.LoadNotices(true, ai.load));
      if !ai.load.Loaded? {
        Log(LogLine(LoadFailed, Error));
        return false;
      }
      return true;
    }

    /** The report step of phase 2: ask for the report with the notices
        logged, keep it when it succeeds, and log the outcome. */
    method ReportStep(contents: seq<string>, generate: Generate)
      modifies this`logs, this`reportInputs, this`reports
      ensures logs == old(logs) + ReportLog(generate(contents))
      ensures reportInputs == old(reportInputs) + [contents]
      ensures reports == old(reports) + (if generate(contents).success then [generate(contents).summary] else [])
    {
      reportInputs := reportInputs + [contents];
      var result := generate(contents);
      LogNotices(Analyzer.AnalysisNotices(true, result.success));
      if result.success {
        reports := reports + [result.summary];
        Log(LogLine(ReportSaved, Success));
      } else {
        Log(LogLine(AnalysisFailed(result.error), Error));
      }
    }

    /** The load and report steps of phase 2, once the model file is there. */
    method LoadAndReport(ai: AiSetup, contents: seq<string>, generate: Generate) returns (ready: bool)
      requires ai.modelAvailable || ai.downloadOk
      modifies this`logs, this`reportInputs, this`reports
      ensures ready == ModelReady(ai)
      ensures logs == old(logs) + (LoadLog(ai) + (if ready then ReportLog(generate(contents)) else []))
      ensures reportInputs == old(reportInputs) + (if ready then [contents] else [])
      ensures reports == old(reports) + (if ready && generate(contents).success then [generate(contents).summary] else [])
    {
      ready := LoadStep(ai);
      if !ready {
        AppendNil(LoadLog(ai));
        AppendNil(reportInputs);
        AppendNil(reports);
        return;
      }
      ReportStep(contents, generate);
      AppendAssoc(old(logs), LoadLog(ai), ReportLog(generate(contents)));
    }

    /** Phase 2: download the model if it is missing, load it if it is not
        loaded, then ask for the report; a failed download or load ends the
        phase with an error line. */
    method RunAnalysis(ai: AiSetup, contents: seq<string>, generate: Generate) returns (ready: bool)
      modifies this`logs, this`reportInputs, this`reports
      ensures ready == ModelReady(ai)
      ensures logs == old(logs) + AnalysisLog(ai, contents, generate)
      ensures reportInputs == old(reportInputs) + (if ready then [contents] else [])
      ensures reports == old(reports) + (if ready && generate(contents).success then [generate(contents).summary] else [])
    {
      LogBanner(AnalysisPhase, Ai);
      var fetched: seq<LogLine> := [];
      if !ai.modelAvailable {
        Log(LogLine(DownloadingModel, Ai));
        fetched := [LogLine(DownloadingModel, Ai)];
      }
      ghost var head := Banner(AnalysisPhase, Ai) + fetched;
      assert logs == old(logs) + head;
      if !ai.modelAvailable && !ai.downloadOk {
        Log(LogLine(DownloadFailed, Error));
        AppendAssoc(old(logs), head, [LogLine(DownloadFailed, Error)]);
        return false;
      }
      ready := LoadAndReport(ai, contents, generate);
      AppendAssoc(old(logs), head, LoadLog(ai) + (if ready then ReportLog(generate(contents)) else []));
    }

    /** Everything after a scrape that delivered: save the pages, report
        the count, run the analysis phase when it applies, and announce the
        end unless that phase failed. */
    method Finish(isAlnum: char -> bool, results: seq<Scraper.ScrapeResult>, useAi: bool, ai: AiSetup,
                  generate: Generate)
      modifies this`logs, this`saved, this`reportInputs, this`reports
      ensures var run := AfterScrape(isAlnum, results, useAi, ai, generate);
        && logs == old(logs) + run.log
        && saved == old(saved) + run.saved
        && reportInputs == old(reportInputs) + run.inputs
        && reports == old(reports) + run.reports
    {
      var successful := Successes(results);
      SaveAll(isAlnum, successful);
      Log(LogLine(Scraped(|successful|, |results|), Success));
      var analyse := useAi && successful != [];
      var contents := Markdowns(successful);
      var phase: seq<LogLine> := [];
      if analyse {
        var ready := RunAnalysis(ai, contents, generate);
        phase := AnalysisLog(ai, contents, generate);
      }
      var closing: seq<LogLine> := [];
      if !analyse || ModelReady(ai) {
        LogBanner(ProcessDone, Success);
        closing := Banner(ProcessDone, Success);
      }
      assert ClosingLog(analyse, ai, contents, generate) == phase + closing;
      AppendAssoc3(old(logs), [LogLine(Scraped(|successful|, |results|), Success)], phase, closing);
      if !analyse {
        AppendNil(old(reportInputs));
        AppendNil(old(reports));
      }
    }

    /** What follows the scrape stage: the error line when it raised, the
        rest of the run when it delivered. */
    method Conclude(isAlnum: char -> bool, scraped: Fallible<seq<Scraper.ScrapeResult>>, useAi: bool, ai: AiSetup,
                    generate: Generate)
      modifies this`logs, this`saved, this`reportInputs, this`reports
      ensures var run := AfterStage(isAlnum, scraped, useAi, ai, generate);
        && logs == old(logs) + run.log
        && saved == old(saved) + run.saved
        && reportInputs == old(reportInputs) + run.inputs
        && reports == old(reports) + run.reports
    {
      if scraped.Raises? {
        Log(LogLine(PipelineError(scraped.message), Error));
        AppendNil(saved);
        AppendNil(reportInputs);
        AppendNil(reports);
      } else {
        Finish(isAlnum, scraped.value, useAi, ai, generate);
      }
    }

    /** Phase 1: the banner, then the batch with the domain-logging
        callback. The callback's lines are appended once the batch is
        over; no other `log_to_terminal` call of the application runs
        while it does. */
    method ScrapePhase(env: Scraper.Env) returns (scraped: Fallible<seq<Scraper.ScrapeResult>>)
      requires Valid()
      modifies this`logs, scraper
      ensures Valid()
      ensures scraper.progress == Some(ScrapeProgress) && scraper.config == old(scraper.config)
      ensures scraper.events == old(scraper.events) + ScrapeEvents(env, currentUrls, scraper.config.delayBetweenRequests)
      ensures scraped == ScrapeStage(env, currentUrls)
      ensures logs == old(logs) + Banner(ScrapingPhase, Info) + ScrapeLines(env, currentUrls)
    {
      LogBanner(ScrapingPhase, Info);
      scraper.SetProgressCallback(ScrapeProgress);
      scraped := scraper.ScrapeUrls(env, currentUrls);
      logs := logs + ScrapeLines(env, currentUrls);
    }

    /** `_execute_pipeline`: scrape the URL list with the domain-logging
        callback, save the successful pages, run the analysis phase in
        analysis mode when some page succeeded, and clear the processing
        flag on every way out. */
    method ExecutePipeline(isAlnum: char -> bool, env: Scraper.Env, useAi: bool, ai: AiSetup, generate: Generate)
      requires Valid()
      modifies this, scraper
      ensures Valid() && !isProcessing && currentUrls == old(currentUrls)
      ensures scraper.progress == Some(ScrapeProgress) && scraper.config == old(scraper.config)
      ensures scraper.events == old(scraper.events)
        + ScrapeEvents(env, old(currentUrls), old(scraper.config).delayBetweenRequests)
      ensures var run := Pipeline(isAlnum, env, old(currentUrls), useAi, ai, generate);
        && logs == old(logs) + run.log
        && saved == old(saved) + run.saved
        && reportInputs == old(reportInputs) + run.inputs
        && reports == old(reports) + run.reports
    {
      isProcessing := true;
      var scraped := ScrapePhase(env);
      ghost var scraping := Banner(ScrapingPhase, Info) + ScrapeLines(env, currentUrls);
      ghost var rest := AfterStage(isAlnum, scraped, useAi, ai, generate);
      AppendAssoc(old(logs), Banner(ScrapingPhase, Info), ScrapeLines(env, currentUrls));
      Conclude(isAlnum, scraped, useAi, ai, generate);
      AppendAssoc(old(logs), scraping, rest.log);
      isProcessing := false;
    }
  }
}
