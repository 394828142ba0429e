/** URL utilities: validation, the scrapeable-page rules, extraction of URLs
    from pasted text and from URL files, a filename sanitiser and grouping by
    domain. `urllib.parse.urlparse` and the `URL_PATTERN` regular expression
    are library code outside the model and enter as parameters. */
module UrlParser {
  import opened Wrappers
  import opened Text

  /** What `urlparse(url)` yields for the fields the code reads, or the
      `ValueError` it raises (for an unbalanced IPv6 bracket, say). */
  datatype ParseOutcome =
    | Parsed(scheme: string, netloc: string, path: string)
    | Unparseable(message: string)

  /** `urllib.parse.urlparse`. */
  type UrlParse = string -> ParseOutcome

  /** `URL_PATTERN.findall`: the regular-expression matches in a text. */
  type FindUrls = string -> seq<string>

  /** File extensions that are not web pages. */
  const SkipExtensions: set<string> := {
    ".pdf", ".doc", ".docx", ".xls", ".xlsx", ".ppt", ".pptx",
    ".zip", ".rar", ".7z", ".tar", ".gz",
    ".jpg", ".jpeg", ".png", ".gif", ".webp", ".svg",
    ".mp3", ".mp4", ".avi", ".mov", ".wmv",
    ".exe", ".msi", ".dmg", ".apk" }

  /** Path fragments of API and feed endpoints, in the order they are tried. */
  const SkipPaths: seq<string> := ["/api/", "/graphql", "/feed", "/rss"]

  /** Characters `rstrip` removes from the end of a regex match. */
  const TrailingPunctuation: set<char> := {'.', ',', ';', ':', '!', '?', '\'', '"', ')', '>'}

  predicate IsTrailingPunctuation(c: char)
  {
    c in TrailingPunctuation
  }

  predicate IsSlash(c: char)
  {
    c == '/'
  }

  predicate IsUnderscore(c: char)
  {
    c == '_'
  }

  /** Characters the filename sanitiser replaces by `_`. */
  const Forbidden: set<char> := {'<', '>', ':', '"', '/', '\\', '|', '?', '*'}

  // ---------------------------------------------------------------------------
  // Validation

  /** `is_valid_url`: a URL whose scheme is http or https and whose network
      location is not empty; a URL that `urlparse` rejects is not valid. */
  predicate IsValidUrl(parse: UrlParse, url: string)
    ensures IsValidUrl(parse, url) <==>
      parse(url).Parsed? && parse(url).scheme in {"http", "https"} && parse(url).netloc != ""
  {
    match parse(url)
    case Unparseable(_) => false
    case Parsed(scheme, netloc, _) => (scheme == "http" || scheme == "https") && netloc != ""
  }

  /** Every skip extension is a dot followed by dot-free characters. */
  predicate DotOnlyFirst(e: string)
  {
    e != [] && e[0] == '.' && '.' !in e[1..]
  }

  lemma SkipExtensionsDotted()
    ensures forall e :: e in SkipExtensions ==> DotOnlyFirst(e)
  {
  }

  /** Two extensions that each hold their only dot in front cannot both end
      the same path unless they are equal: the shorter one's dot would sit
      inside the longer one. */
  lemma DottedSuffixUnique(path: string, e1: string, e2: string)
    requires DotOnlyFirst(e1) && DotOnlyFirst(e2)
    requires EndsWith(path, e1) && EndsWith(path, e2)
    ensures e1 == e2
  {
    if |e1| < |e2| {
      assert false;
    } else if |e2| < |e1| {
      assert false;
    }
  }

  /** No path ends with two different skip extensions, so the verdict of
      `is_scrapeable_url` does not depend on the order in which Python happens
      to iterate the set `SKIP_EXTENSIONS`. */
  lemma SkipExtensionUnique(path: string, e1: string, e2: string)
    requires e1 in SkipExtensions && e2 in SkipExtensions
    requires EndsWith(path, e1) && EndsWith(path, e2)
    ensures e1 == e2
  {
    SkipExtensionsDotted();
    DottedSuffixUnique(path, e1, e2);
  }

  lemma SkipExtensionsUnique(path: string)
    ensures forall e1, e2 ::
      (e1 in SkipExtensions && EndsWith(path, e1) && e2 in SkipExtensions && EndsWith(path, e2)) ==> e1 == e2
  {
    forall e1, e2 | e1 in SkipExtensions && EndsWith(path, e1) && e2 in SkipExtensions && EndsWith(path, e2)
      ensures e1 == e2
    {
      SkipExtensionUnique(path, e1, e2);
    }
  }

  /** `is_scrapeable_url`: the verdict and its reason. */
  function IsScrapeableUrl(parse: UrlParse, url: string): (r: (bool, string))
  {
    if !IsValidUrl(parse, url) then (false, "Invalid URL format")
    else
      var path := Lower(parse(url).path);
      if exists e :: e in SkipExtensions && EndsWith(path, e) then
        SkipExtensionsUnique(path);
        var e :| e in SkipExtensions && EndsWith(path, e);
        (false, "File type " + e + " not supported")
      else if exists p :: p in SkipPaths && Contains(path, p) then
        (false, "API/Feed endpoint detected")
      else
        (true, "OK")
  }

  /** The verdict of `is_scrapeable_url`, case by case: accepted with "OK"
      exactly when the URL is valid, its lower-cased path ends with no skip
      extension and contains no skip fragment; otherwise the first failing
      rule gives the reason. */
  lemma ScrapeableVerdict(parse: UrlParse, url: string)
    ensures var r := IsScrapeableUrl(parse, url);
      && (r.0 <==> r.1 == "OK")
      && (!IsValidUrl(parse, url) ==> r == (false, "Invalid URL format"))
      && (IsValidUrl(parse, url) ==>
            var path := Lower(parse(url).path);
            && (forall e :: e in SkipExtensions && EndsWith(path, e) ==>
                  r == (false, "File type " + e + " not supported"))
            && ((forall e :: e in SkipExtensions ==> !EndsWith(path, e)) &&
                (exists p :: p in SkipPaths && Contains(path, p)) ==>
                  r == (false, "API/Feed endpoint detected"))
            && (r.0 <==> (forall e :: e in SkipExtensions ==> !EndsWith(path, e)) &&
                         (forall p :: p in SkipPaths ==> !Contains(path, p))))
  {
    var r := IsScrapeableUrl(parse, url);
    if IsValidUrl(parse, url) {
      var path := Lower(parse(url).path);
      forall e | e in SkipExtensions && EndsWith(path, e)
        ensures r == (false, "File type " + e + " not supported")
      {
        var e' :| e' in SkipExtensions && EndsWith(path, e') && r == (false, "File type " + e' + " not supported");
        SkipExtensionUnique(path, e, e');
      }
      if !r.0 {
        assert r.1 != "OK" by {
          if exists e :: e in SkipExtensions && EndsWith(path, e) {
            var e :| e in SkipExtensions && EndsWith(path, e) && r.1 == "File type " + e + " not supported";
            assert r.1[0] == 'F';
          }
        }
      }
    }
  }

  /** `is_scrapeable_url` as the source runs it: the extensions are tried in
      whatever order the set yields them, then the path fragments in list
      order against the (again) lower-cased path. */
  method CheckScrapeable(parse: UrlParse, url: string) returns (ok: bool, reason: string)
    ensures (ok, reason) == IsScrapeableUrl(parse, url)
  {
    if !IsValidUrl(parse, url) {
      return false, "Invalid URL format";
    }
    var path := Lower(parse(url).path);
    var ext := MatchExtension(path);
    if ext.Some? {
      SkipExtensionsUnique(path);
      return false, "File type " + ext.value + " not supported";
    }
    LowerIdempotent(parse(url).path);
    var endpoint := MatchEndpoint(path);
    if endpoint {
      return false, "API/Feed endpoint detected";
    }
    return true, "OK";
  }

  /** Tries the skipped extensions, in whatever order the set yields them,
      against the end of `path`. */
  method MatchExtension(path: string) returns (found: Option<string>)
    ensures found.Some? <==> exists e :: e in SkipExtensions && EndsWith(path, e)
    ensures found.Some? ==> found.value in SkipExtensions && EndsWith(path, found.value)
  {
    var remaining := SkipExtensions;
    while remaining != {}
      invariant remaining <= SkipExtensions
      invariant forall e :: e in SkipExtensions && e !in remaining ==> !EndsWith(path, e)
      decreases |remaining|
    {
      var ext :| ext in remaining;
      if EndsWith(path, ext) {
        return Some(ext);
      }
      remaining := remaining - {ext};
    }
    return None;
  }

  /** Tries the endpoint fragments in list order against the lower-cased
      (already lower-case) `path`. */
  method MatchEndpoint(path: string) returns (found: bool)
    requires Lower(path) == path
    ensures found <==> exists p :: p in SkipPaths && Contains(path, p)
  {
    for i := 0 to |SkipPaths|
      invariant forall j :: 0 <= j < i ==> !Contains(path, SkipPaths[j])
    {
      if Contains(Lower(path), SkipPaths[i]) {
        assert SkipPaths[i] in SkipPaths;
        return true;
      }
    }
    return false;
  }

  // ---------------------------------------------------------------------------
  // Extraction from text

  /** The clean-up of one regex match: trailing punctuation removed, and
      `https://` put in front when it does not start with "http". */
  function CleanMatch(m: string): (u: string)
    ensures StartsWith(u, "http")
    ensures u != [] && u[|u| - 1] !in TrailingPunctuation
  {
    var t := RTrim(m, IsTrailingPunctuation);
    RTrimSpec(m, IsTrailingPunctuation);
    if StartsWith(t, "http") then t else "https://" + t
  }

  /** The cleaned matches, one per match, in match order. */
  function Cleaned(matches: seq<string>): (r: seq<string>)
    ensures |r| == |matches|
    ensures forall i :: 0 <= i < |matches| ==> r[i] == CleanMatch(matches[i])
  {
    seq(|matches|, i requires 0 <= i < |matches| => CleanMatch(matches[i]))
  }

  /** The URLs `extract_urls_from_text` returns for these regex matches. */
  function TextUrls(matches: seq<string>): seq<string>
  {
    SortedDistinct(Cleaned(matches))
  }

  /** What `extract_urls_from_text` promises: its URLs are sorted without
      repetition, they are exactly the cleaned matches, and each starts with
      "http" and does not end in punctuation. */
  lemma TextUrlsSpec(matches: seq<string>)
    ensures StrictlySorted(TextUrls(matches))
    ensures forall u :: u in TextUrls(matches) <==> exists i :: 0 <= i < |matches| && u == CleanMatch(matches[i])
    ensures forall u :: u in TextUrls(matches) ==> StartsWith(u, "http") && u[|u| - 1] !in TrailingPunctuation
  {
    var r := TextUrls(matches);
    var c := Cleaned(matches);
    forall u ensures u in r <==> exists i :: 0 <= i < |matches| && u == CleanMatch(matches[i]) {
      assert u in r <==> u in Elems(r);
      assert u in c <==> u in Elems(c);
      if u in c {
        var i :| 0 <= i < |c| && c[i] == u;
        assert u == CleanMatch(matches[i]);
      }
      if exists i :: 0 <= i < |matches| && u == CleanMatch(matches[i]) {
        var i :| 0 <= i < |matches| && u == CleanMatch(matches[i]);
        assert c[i] == u;
      }
    }
  }

  /** `extract_urls_from_text`, given the matches of `URL_PATTERN`: cleaned
      matches collected in a set, then sorted. */
  method ExtractUrlsFromText(matches: seq<string>) returns (result: seq<string>)
    ensures result == TextUrls(matches)
  {
    var urls: set<string> := {};
    for i := 0 to |matches|
      invariant urls == Elems(Cleaned(matches)[..i])
    {
      var url := CleanMatch(matches[i]);
      assert Cleaned(matches)[..i + 1] == Cleaned(matches)[..i] + [url];
      urls := urls + {url};
    }
    assert Cleaned(matches)[..|matches|] == Cleaned(matches);
    result := SortStrings(urls);
    SortedUnique(result, TextUrls(matches));
  }

  // ---------------------------------------------------------------------------
  // Extraction from lines and files

  /** The lists of `parts` joined end to end. */
  function Concat(parts: seq<seq<string>>): seq<string>
  {
    if parts == [] then [] else Concat(parts[..|parts| - 1]) + parts[|parts| - 1]
  }

  lemma {:induction false} ConcatAppend(a: seq<seq<string>>, b: seq<seq<string>>)
    ensures Concat(a + b) == Concat(a) + Concat(b)
    decreases |b|
  {
    if b == [] {
      assert a + b == a;
    } else {
      assert (a + b)[..|a + b| - 1] == a + b[..|b| - 1];
      ConcatAppend(a, b[..|b| - 1]);
    }
  }

  /** An element of the concatenation comes from one of the parts, and every
      element of every part is in it. */
  lemma {:induction false} ConcatMember(parts: seq<seq<string>>, u: string)
    ensures u in Concat(parts) <==> exists i :: 0 <= i < |parts| && u in parts[i]
  {
    if parts != [] {
      var init := parts[..|parts| - 1];
      ConcatMember(init, u);
      if exists i :: 0 <= i < |init| && u in init[i] {
        var i :| 0 <= i < |init| && u in init[i];
        assert parts[i] == init[i];
      }
    }
  }

  /** What one line of a URL file contributes: nothing for a blank or `#`
      line; the stripped line itself when it starts with http:// or https://
      and is a valid URL; otherwise the URLs found in it by the regex. */
  function LineUrls(parse: UrlParse, find: FindUrls, line: string): seq<string>
  {
    var t := Strip(line);
    if t == [] || StartsWith(t, "#") then []
    else if StartsWith(t, "http://") || StartsWith(t, "https://") then
      (if IsValidUrl(parse, t) then [t] else [])
    else TextUrls(find(t))
  }

  /** The contribution of each line. */
  function PerLine(parse: UrlParse, find: FindUrls, lines: seq<string>): (r: seq<seq<string>>)
    ensures |r| == |lines|
    ensures forall i :: 0 <= i < |lines| ==> r[i] == LineUrls(parse, find, lines[i])
  {
    seq(|lines|, i requires 0 <= i < |lines| => LineUrls(parse, find, lines[i]))
  }

  /** The contributions of all lines, in line order. */
  function LinesUrls(parse: UrlParse, find: FindUrls, lines: seq<string>): seq<string>
  {
    Concat(PerLine(parse, find, lines))
  }

  /** Extraction is compositional in the lines: the URLs of a concatenation
      are those of the first part followed by those of the second. */
  lemma LinesUrlsAppend(parse: UrlParse, find: FindUrls, a: seq<string>, b: seq<string>)
    ensures LinesUrls(parse, find, a + b) == LinesUrls(parse, find, a) + LinesUrls(parse, find, b)
  {
    assert PerLine(parse, find, a + b) == PerLine(parse, find, a) + PerLine(parse, find, b);
    ConcatAppend(PerLine(parse, find, a), PerLine(parse, find, b));
  }

  /** Taking one more line appends that line's contribution. */
  lemma LinesUrlsSnoc(parse: UrlParse, find: FindUrls, lines: seq<string>, i: int)
    requires 0 <= i < |lines|
    ensures LinesUrls(parse, find, lines[..i + 1]) == LinesUrls(parse, find, lines[..i]) + LineUrls(parse, find, lines[i])
  {
    assert lines[..i + 1] == lines[..i] + [lines[i]];
    LinesUrlsAppend(parse, find, lines[..i], [lines[i]]);
    assert PerLine(parse, find, [lines[i]]) == [LineUrls(parse, find, lines[i])];
    assert Concat([LineUrls(parse, find, lines[i])]) == LineUrls(parse, find, lines[i]);
  }

  /** Every URL one line contributes starts with "http". */
  lemma LineUrlsStartWithHttp(parse: UrlParse, find: FindUrls, line: string)
    ensures forall u :: u in LineUrls(parse, find, line) ==> StartsWith(u, "http")
  {
    var t := Strip(line);
    if t == [] || StartsWith(t, "#") {
    } else if StartsWith(t, "http://") || StartsWith(t, "https://") {
      assert t[..4] == "http" by {
        if StartsWith(t, "http://") {
          assert t[..4] == t[..7][..4];
        } else {
          assert t[..4] == t[..8][..4];
        }
      }
    } else {
      assert forall u :: u in TextUrls(find(t)) ==> StartsWith(u, "http") by {
        TextUrlsSpec(find(t));
      }
    }
  }

  /** Every URL taken from a list of lines starts with "http". */
  lemma LinesUrlsStartWithHttp(parse: UrlParse, find: FindUrls, lines: seq<string>)
    ensures forall u :: u in LinesUrls(parse, find, lines) ==> StartsWith(u, "http")
  {
    forall u | u in LinesUrls(parse, find, lines) ensures StartsWith(u, "http") {
      var parts := PerLine(parse, find, lines);
      ConcatMember(parts, u);
      var i :| 0 <= i < |parts| && u in parts[i];
      LineUrlsStartWithHttp(parse, find, lines[i]);
    }
  }

  /** A line that is blank or a comment contributes nothing; an http(s) line
      is kept exactly when it is valid. */
  lemma LineUrlsCases(parse: UrlParse, find: FindUrls, line: string)
    ensures IsBlank(line) || StartsWith(Strip(line), "#") ==> LineUrls(parse, find, line) == []
    ensures !IsBlank(line) && (StartsWith(Strip(line), "http://") || StartsWith(Strip(line), "https://")) ==>
      (LineUrls(parse, find, line) == [Strip(line)] <==> IsValidUrl(parse, Strip(line)))
  {
    var t := Strip(line);
    if !IsBlank(line) && (StartsWith(t, "http://") || StartsWith(t, "https://")) {
      assert t[0] == 'h' by {
        if StartsWith(t, "http://") { HeadOfPrefix(t, "http://"); } else { HeadOfPrefix(t, "https://"); }
      }
      assert !StartsWith(t, "#") by { HeadOfPrefix(t, "#"); }
    }
  }

  /** A string starts with the first character of each of its prefixes. */
  lemma HeadOfPrefix(s: string, p: string)
    ensures p != [] && StartsWith(s, p) ==> s[0] == p[0]
  {
    if p != [] && StartsWith(s, p) {
      assert s[..|p|][0] == s[0];
    }
  }

  /** `extract_urls_from_lines`. */
  method ExtractUrlsFromLines(parse: UrlParse, find: FindUrls, lines: seq<string>) returns (urls: seq<string>)
    ensures urls == LinesUrls(parse, find, lines)
  {
    urls := [];
    for i := 0 to |lines|
      invariant urls == LinesUrls(parse, find, lines[..i])
    {
      var found := ExtractUrlsFromLine(parse, find, lines[i]);
      LinesUrlsSnoc(parse, find, lines, i);
      urls := urls + found;
    }
    assert lines[..|lines|] == lines;
  }

  /** The body of the loop of `extract_urls_from_lines`, for one line. */
  method ExtractUrlsFromLine(parse: UrlParse, find: FindUrls, raw: string) returns (found: seq<string>)
    ensures found == LineUrls(parse, find, raw)
  {
    var line := Strip(raw);
    found := [];
    if line == [] || StartsWith(line, "#") {
    } else if StartsWith(line, "http://") || StartsWith(line, "https://") {
      if IsValidUrl(parse, line) {
        found := [line];
      }
    } else {
      found := ExtractUrlsFromText(find(line));
    }
  }

  /** The URLs that pass `is_scrapeable_url`, in order. */
  function Scrapeable(parse: UrlParse, urls: seq<string>): seq<string>
  {
    if urls == [] then []
    else
      var u := urls[|urls| - 1];
      Scrapeable(parse, urls[..|urls| - 1]) + (if IsScrapeableUrl(parse, u).0 then [u] else [])
  }

  /** The rejected URLs, each as "url (reason)", in order. */
  function Rejected(parse: UrlParse, urls: seq<string>): seq<string>
  {
    if urls == [] then []
    else
      var u := urls[|urls| - 1];
      var v := IsScrapeableUrl(parse, u);
      Rejected(parse, urls[..|urls| - 1]) + (if v.0 then [] else [u + " (" + v.1 + ")"])
  }

  /** Every URL lands in exactly one of the two lists: the accepted ones are
      scrapeable, each rejected entry names a URL that is not, with its
      reason, and the counts add up. */
  lemma {:induction false} PartitionComplete(parse: UrlParse, urls: seq<string>)
    ensures |Scrapeable(parse, urls)| + |Rejected(parse, urls)| == |urls|
    ensures forall u :: u in Scrapeable(parse, urls) ==> u in urls && IsScrapeableUrl(parse, u).0
    ensures forall u :: u in urls && IsScrapeableUrl(parse, u).0 ==> u in Scrapeable(parse, urls)
    ensures forall u :: u in urls && !IsScrapeableUrl(parse, u).0 ==>
      u + " (" + IsScrapeableUrl(parse, u).1 + ")" in Rejected(parse, urls)
  {
    if urls != [] {
      var init := urls[..|urls| - 1];
      PartitionComplete(parse, init);
      assert urls == init + [urls[|urls| - 1]];
    }
  }

  /** The loop of `parse_url_file`: each URL is checked in turn and goes to
      the valid list, or to the invalid list with its reason. */
  method Partition(parse: UrlParse, all: seq<string>) returns (valid: seq<string>, invalid: seq<string>)
    ensures valid == Scrapeable(parse, all) && invalid == Rejected(parse, all)
  {
    valid, invalid := [], [];
    for i := 0 to |all|
      invariant valid == Scrapeable(parse, all[..i])
      invariant invalid == Rejected(parse, all[..i])
    {
      assert all[..i + 1][..i] == all[..i];
      var ok, reason := CheckScrapeable(parse, all[i]);
      if ok {
        valid := valid + [all[i]];
      } else {
        invalid := invalid + [all[i] + " (" + reason + ")"];
      }
    }
    assert all[..|all|] == all;
  }

  /** `parse_url_file`: the file's stripped content is split into lines, the
      URLs are extracted and then partitioned into scrapeable and rejected. */
  method ParseUrlFile(parse: UrlParse, find: FindUrls, content: string)
    returns (valid: seq<string>, invalid: seq<string>)
    ensures var all := LinesUrls(parse, find, Split(Strip(content), '\n'));
      valid == Scrapeable(parse, all) && invalid == Rejected(parse, all)
  {
    var lines := Split(Strip(content), '\n');
    var all := ExtractUrlsFromLines(parse, find, lines);
    valid, invalid := Partition(parse, all);
  }

  // ---------------------------------------------------------------------------
  // Domain, filename, grouping

  /** `get_domain`: the network location, or "unknown" when `urlparse`
      raises. */
  function GetDomain(parse: UrlParse, url: string): (d: string)
    ensures parse(url).Parsed? ==> d == parse(url).netloc
    ensures parse(url).Unparseable? ==> d == "unknown"
  {
    match parse(url)
    case Parsed(_, netloc, _) => netloc
    case Unparseable(_) => "unknown"
  }

  /** `re.sub(r'[<>:"/\\|?*]', '_', s)` */
  function MaskForbidden(s: string): (r: string)
    ensures |r| == |s|
    ensures forall i :: 0 <= i < |s| ==> r[i] == if s[i] in Forbidden then '_' else s[i]
  {
    seq(|s|, i requires 0 <= i < |s| => if s[i] in Forbidden then '_' else s[i])
  }

  predicate NoDoubleUnderscore(s: string)
  {
    forall i :: 0 <= i < |s| - 1 ==> !(s[i] == '_' && s[i + 1] == '_')
  }

  /** `re.sub(r'_+', '_', s)`: every run of underscores becomes one. */
  function CollapseUnderscores(s: string): (r: string)
    ensures NoDoubleUnderscore(r)
    ensures forall c :: c in r ==> c in s
    ensures r != [] <==> s != []
    ensures s != [] ==> r[0] == s[0]
  {
    if |s| < 2 then s
    else if s[0] == '_' && s[1] == '_' then CollapseUnderscores(s[1..])
    else
      var rest := CollapseUnderscores(s[1..]);
      assert forall c :: c in [s[0]] + rest ==> c in s;
      [s[0]] + rest
  }

  /** A run of underscores, however long, becomes a single one. */
  lemma {:induction false} CollapseRun(s: string)
    requires s != [] && forall i :: 0 <= i < |s| ==> s[i] == '_'
    ensures CollapseUnderscores(s) == "_"
    decreases |s|
  {
    if |s| >= 2 {
      CollapseRun(s[1..]);
    }
  }

  /** Collapsing works independently on either side of any character other
      than an underscore, and keeps that character; with `CollapseRun` and
      the empty case this determines the result on every string. */
  lemma {:induction false} CollapseSplit(a: string, c: char, b: string)
    requires c != '_'
    ensures CollapseUnderscores(a + [c] + b) == CollapseUnderscores(a) + [c] + CollapseUnderscores(b)
    decreases |a|
  {
    var s := a + [c] + b;
    if a == [] {
      assert s == [c] + b;
      if |s| >= 2 {
        assert s[1..] == b;
      }
    } else {
      assert s[0] == a[0];
      assert s[1..] == a[1..] + [c] + b;
      CollapseSplit(a[1..], c, b);
      if |a| == 1 {
        assert s[1] == c;
        assert a[1..] == [];
      } else {
        assert s[1] == a[1];
      }
    }
  }

  /** A name with no two underscores in a row is left as it is. */
  lemma {:induction false} CollapseKeepsClean(s: string)
    requires NoDoubleUnderscore(s)
    ensures CollapseUnderscores(s) == s
    decreases |s|
  {
    if |s| >= 2 {
      assert !(s[0] == '_' && s[1] == '_');
      assert NoDoubleUnderscore(s[1..]) by {
        forall i | 0 <= i < |s[1..]| - 1 ensures !(s[1..][i] == '_' && s[1..][i + 1] == '_') {
          assert s[1..][i] == s[i + 1] && s[1..][i + 1] == s[i + 2];
        }
      }
      CollapseKeepsClean(s[1..]);
      assert s == [s[0]] + s[1..];
    }
  }

  /** The name a URL's parts give before sanitising: the last path segment,
      unless the path is empty or that segment contains a dot, in which case
      the network location with "www." removed. */
  function BaseName(netloc: string, path: string): string
  {
    var domain := Replace(netloc, "www.", "");
    var p := Trim(path, IsSlash);
    if p != [] then
      var parts := Split(p, '/');
      var name := parts[|parts| - 1];
      if name == [] || '.' in name then domain else name
    else domain
  }

  /** `sanitize_filename`; an unparseable URL makes `urlparse` raise, which
      the function does not catch. */
  function SanitizeFilename(parse: UrlParse, url: string, maxLength: int): Fallible<string>
  {
    match parse(url)
    case Unparseable(message) => Raises(message)
    case Parsed(_, netloc, path) =>
      var name := Trim(CollapseUnderscores(MaskForbidden(BaseName(netloc, path))), IsUnderscore);
      var name' := if |name| > maxLength then Prefix(name, maxLength) else name;
      Value(if name' == [] then "page" else name')
  }

  /** A prefix of an underscore-collapsed, underscore-trimmed, masked name is
      still free of forbidden characters and double underscores and does not
      start with one. */
  lemma SafePrefix(s: string, n: int)
    requires forall c :: c in s ==> c !in Forbidden
    requires NoDoubleUnderscore(s)
    requires s == [] || s[0] != '_'
    ensures var t := Prefix(s, n);
      (forall c :: c in t ==> c !in Forbidden) && NoDoubleUnderscore(t) && (t == [] || t[0] != '_')
  {
    var t := Prefix(s, n);
    assert forall i :: 0 <= i < |t| ==> t[i] == s[i];
  }

  /** Trimming the underscores off both ends of a masked, collapsed name
      keeps it free of forbidden characters and double underscores and leaves
      no leading underscore. */
  lemma TrimmedNameSafe(collapsed: string)
    requires forall c :: c in collapsed ==> c !in Forbidden
    requires NoDoubleUnderscore(collapsed)
    ensures var name := Trim(collapsed, IsUnderscore);
      && (forall c :: c in name ==> c !in Forbidden)
      && NoDoubleUnderscore(name)
      && (name == [] || name[0] != '_')
  {
    var name := Trim(collapsed, IsUnderscore);
    TrimSpec(collapsed, IsUnderscore);
    var k := |collapsed| - |LTrim(collapsed, IsUnderscore)|;
    assert forall i :: 0 <= i < |name| ==> name[i] == collapsed[k + i];
    forall i | 0 <= i < |name| - 1 ensures !(name[i] == '_' && name[i + 1] == '_') {
      assert name[i] == collapsed[k + i] && name[i + 1] == collapsed[k + i + 1];
    }
  }

  /** A sanitised filename is never empty, holds no forbidden character, no
      double underscore, does not start with an underscore, and is at most
      `maxLength` long unless it is the fallback "page". */
  lemma SanitizeFilenameSafe(parse: UrlParse, url: string, maxLength: int)
    requires parse(url).Parsed?
    ensures SanitizeFilename(parse, url, maxLength).Value?
    ensures var r := SanitizeFilename(parse, url, maxLength).value;
      && r != []
      && (forall c :: c in r ==> c !in Forbidden)
      && NoDoubleUnderscore(r)
      && r[0] != '_'
      && (0 <= maxLength ==> |r| <= maxLength || r == "page")
  {
    var p := parse(url);
    var masked := MaskForbidden(BaseName(p.netloc, p.path));
    var collapsed := CollapseUnderscores(masked);
    var name := Trim(collapsed, IsUnderscore);
    assert forall c :: c in masked ==> c !in Forbidden;
    TrimmedNameSafe(collapsed);
    SafePrefix(name, maxLength);
    FallbackSafe();
  }

  /** The fallback name "page" is itself a safe name. */
  lemma FallbackSafe()
    ensures forall c :: c in "page" ==> c !in Forbidden
    ensures NoDoubleUnderscore("page") && "page"[0] != '_'
  {
    assert "page" == ['p', 'a', 'g', 'e'];
  }

  /** The URLs of `urls` whose domain is `d`, in input order. */
  function GroupOf(parse: UrlParse, urls: seq<string>, d: string): seq<string>
  {
    if urls == [] then []
    else
      var u := urls[|urls| - 1];
      GroupOf(parse, urls[..|urls| - 1], d) + (if GetDomain(parse, u) == d then [u] else [])
  }

  /** The domains of `urls`, each once, in order of first appearance. */
  function FirstSeen(parse: UrlParse, urls: seq<string>): seq<string>
  {
    if urls == [] then []
    else
      var ds := FirstSeen(parse, urls[..|urls| - 1]);
      var d := GetDomain(parse, urls[|urls| - 1]);
      if d in ds then ds else ds + [d]
  }

  /** What the grouping loop keeps after seeing `seen`: the keys are the
      domains seen so far in first-seen order, each with its URLs in order. */
  ghost predicate Grouped(parse: UrlParse, seen: seq<string>, groups: map<string, seq<string>>, domains: seq<string>)
  {
    && domains == FirstSeen(parse, seen)
    && (forall d :: d in groups <==> d in domains)
    && (forall a, b :: 0 <= a < b < |domains| ==> domains[a] != domains[b])
    && (forall d :: d in groups ==> groups[d] == GroupOf(parse, seen, d) && groups[d] != [])
    && (forall d :: d !in groups ==> GroupOf(parse, seen, d) == [])
  }

  /** Taking one more URL extends exactly the group of its domain. */
  lemma GroupOfSnoc(parse: UrlParse, seen: seq<string>, url: string)
    ensures forall d :: (GroupOf(parse, seen + [url], d) ==
                         GroupOf(parse, seen, d) + if GetDomain(parse, url) == d then [url] else [])
  {
    assert (seen + [url])[..|seen|] == seen;
  }

  /** One step of the grouping loop keeps `Grouped`. */
  lemma GroupedStep(parse: UrlParse, seen: seq<string>, url: string,
                    groups: map<string, seq<string>>, domains: seq<string>)
    requires Grouped(parse, seen, groups, domains)
    ensures var d := GetDomain(parse, url);
      var domains' := if d in groups then domains else domains + [d];
      var groups' := groups[d := if d in groups then groups[d] + [url] else [url]];
      Grouped(parse, seen + [url], groups', domains')
  {
    var d := GetDomain(parse, url);
    var ds := if d in groups then domains else domains + [d];
    var g' := groups[d := if d in groups then groups[d] + [url] else [url]];
    GroupsStep(parse, seen, url, groups);
    assert forall x :: x in g' <==> x in ds;
    assert (seen + [url])[..|seen|] == seen;
    assert FirstSeen(parse, seen + [url]) == ds;
  }

  /** The groups part of `GroupedStep`. */
  lemma GroupsStep(parse: UrlParse, seen: seq<string>, url: string, groups: map<string, seq<string>>)
    requires forall d :: d in groups ==> groups[d] == GroupOf(parse, seen, d) && groups[d] != []
    requires forall d :: d !in groups ==> GroupOf(parse, seen, d) == []
    ensures var d := GetDomain(parse, url);
      var g' := groups[d := if d in groups then groups[d] + [url] else [url]];
      && (forall x :: x in g' ==> g'[x] == GroupOf(parse, seen + [url], x) && g'[x] != [])
      && (forall x :: x !in g' ==> GroupOf(parse, seen + [url], x) == [])
  {
    GroupOfSnoc(parse, seen, url);
  }

  /** `group_urls_by_domain`: a dictionary from domain to its URLs, with its
      keys in order of first appearance (as a Python dict keeps them). */
  method GroupUrlsByDomain(parse: UrlParse, urls: seq<string>)
    returns (groups: map<string, seq<string>>, domains: seq<string>)
    ensures domains == FirstSeen(parse, urls)
    ensures forall d :: d in groups <==> d in domains
    ensures forall i, j :: 0 <= i < j < |domains| ==> domains[i] != domains[j]
    ensures forall d :: d in groups ==> groups[d] == GroupOf(parse, urls, d) && groups[d] != []
    ensures forall u :: u in urls ==> GetDomain(parse, u) in groups && u in groups[GetDomain(parse, u)]
    ensures SumSizes(parse, urls, domains) == |urls|
  {
    groups, domains := map[], [];
    for i := 0 to |urls|
      invariant Grouped(parse, urls[..i], groups, domains)
    {
      var url := urls[i];
      var domain := GetDomain(parse, url);
      ghost var before, order := groups, domains;
      assert urls[..i + 1] == urls[..i] + [url];
      if domain !in groups {
        groups := groups[domain := [url]];
        domains := domains + [domain];
      } else {
        groups := groups[domain := groups[domain] + [url]];
      }
      assert Grouped(parse, urls[..i + 1], groups, domains) by {
        GroupedStep(parse, urls[..i], url, before, order);
      }
    }
    assert urls[..|urls|] == urls;
    forall u | u in urls
      ensures GetDomain(parse, u) in groups && u in groups[GetDomain(parse, u)]
    {
      GroupOfContains(parse, urls, u);
    }
    GroupSizesSum(parse, urls, domains);
  }

  /** Each URL is in the group of its own domain. */
  lemma {:induction false} GroupOfContains(parse: UrlParse, urls: seq<string>, u: string)
    requires u in urls
    ensures u in GroupOf(parse, urls, GetDomain(parse, u))
  {
    var init := urls[..|urls| - 1];
    if u != urls[|urls| - 1] {
      assert urls == init + [urls[|urls| - 1]];
      GroupOfContains(parse, init, u);
    }
  }

  /** The sizes of the groups of `domains`, added up. */
  function SumSizes(parse: UrlParse, urls: seq<string>, domains: seq<string>): nat
  {
    if domains == [] then 0 else |GroupOf(parse, urls, domains[0])| + SumSizes(parse, urls, domains[1..])
  }

  predicate Distinct(xs: seq<string>)
  {
    forall a, b :: 0 <= a < b < |xs| ==> xs[a] != xs[b]
  }

  /** A value occurs at most once in a sequence without repetitions. */
  lemma {:induction false} OccursOnce(xs: seq<string>, x: string)
    requires Distinct(xs)
    ensures Count(xs, x) == if x in xs then 1 else 0
  {
    if xs != [] {
      assert Distinct(xs[1..]) by {
        forall a, b | 0 <= a < b < |xs| - 1 ensures xs[1..][a] != xs[1..][b] {
          assert xs[1..][a] == xs[a + 1] && xs[1..][b] == xs[b + 1];
        }
      }
      OccursOnce(xs[1..], x);
      if xs[0] == x {
        assert x !in xs[1..] by {
          forall b | 0 <= b < |xs| - 1 ensures xs[1..][b] != x {
            assert xs[1..][b] == xs[b + 1];
          }
        }
      } else {
        assert x in xs <==> x in xs[1..] by {
          assert xs == [xs[0]] + xs[1..];
        }
      }
    }
  }

  /** No URLs, no group sizes. */
  lemma {:induction false} SumSizesEmpty(parse: UrlParse, domains: seq<string>)
    ensures SumSizes(parse, [], domains) == 0
  {
    if domains != [] {
      SumSizesEmpty(parse, domains[1..]);
    }
  }

  /** One more URL adds one to the size of each listed copy of its domain. */
  lemma {:induction false} SumSizesSnoc(parse: UrlParse, seen: seq<string>, url: string, domains: seq<string>)
    ensures SumSizes(parse, seen + [url], domains) == SumSizes(parse, seen, domains) + Count(domains, GetDomain(parse, url))
  {
    if domains != [] {
      GroupOfSnoc(parse, seen, url);
      SumSizesSnoc(parse, seen, url, domains[1..]);
    }
  }

  /** With each domain listed once and every URL's domain listed, the group
      sizes add up to the number of URLs: every URL lands in exactly one
      group. */
  lemma {:induction false} GroupSizesSum(parse: UrlParse, urls: seq<string>, domains: seq<string>)
    requires Distinct(domains)
    requires forall u :: u in urls ==> GetDomain(parse, u) in domains
    ensures SumSizes(parse, urls, domains) == |urls|
  {
    if urls == [] {
      SumSizesEmpty(parse, domains);
    } else {
      var init := urls[..|urls| - 1];
      var last := urls[|urls| - 1];
      assert urls == init + [last];
      assert forall u :: u in init ==> u in urls;
      GroupSizesSum(parse, init, domains);
      SumSizesSnoc(parse, init, last, domains);
      OccursOnce(domains, GetDomain(parse, last));
    }
  }
}
