/** The model downloader: whether the model file counts as present, the
    control flow of a download (short cut, cancellation, verification,
    errors), deletion, and the progress tracker that reports only when the
    whole percentage changes. The HuggingFace transfer is a parameter: the
    file it leaves behind, or the exception it raises. */
module Downloader {
  import opened Wrappers
  import opened Text

  /** The model file on disk: missing, or present with its size in bytes. */
  datatype ModelFile = Missing | Present(size: int)

  /** A model file under 1 GiB is taken to be a corrupt download. */
  const MinModelSize := 1024 * 1024 * 1024

  /** `is_model_available`: the file exists and is at least 1 GiB. */
  predicate Available(file: ModelFile)
  {
    file.Present? && file.size >= MinModelSize
  }

  /** What `hf_hub_download` does: it leaves a file behind, or raises an
      HTTP error from the hub or some other exception. */
  datatype FetchOutcome = Fetched(file: ModelFile) | HubError(message: string) | FetchError(message: string)

  /** The progress reports of a download, each with its fraction done. */
  datatype DownloadEvent = Connecting | Downloading | Completed | DownloadError(excerpt: string)

  /** The fraction of a report: 0 when connecting, 0.05 when the transfer
      starts, 1 when done, 0 on an error. */
  function Fraction(e: DownloadEvent): real
  {
    match e
    case Connecting => 0.0
    case Downloading => 0.05
    case Completed => 1.0
    case DownloadError(_) => 0.0
  }

  /** The text of a report. */
  function EventText(e: DownloadEvent): string
  {
    match e
    case Connecting => "Conectando a HuggingFace..."
    case Downloading => "Descargando modelo..."
    case Completed => "Â¡Descarga completada!"
    case DownloadError(excerpt) => "Error: " + excerpt
  }

  const VerificationFailed := "Downloaded file verification failed"

  /** The report of a failed download: the first 50 characters of the
      hub's error (after its "HuggingFace error: " prefix), or of any other
      exception's text, including a failed verification. */
  function FailureEvent(fetch: FetchOutcome): DownloadEvent
  {
    match fetch
    case HubError(m) => DownloadError(Prefix("HuggingFace error: " + m, 50))
    case FetchError(m) => DownloadError(Prefix(m, 50))
    case Fetched(_) => DownloadError(Prefix(VerificationFailed, 50))
  }

  /** A failure report quotes the start of the error and at most 50
      characters of it. */
  lemma FailureEventBound(fetch: FetchOutcome)
    ensures var e := FailureEvent(fetch);
      && e.DownloadError? && |e.excerpt| <= 50 && Fraction(e) == 0.0
      && (fetch.FetchError? ==> StartsWith(fetch.message, e.excerpt))
      && (fetch.HubError? ==> StartsWith("HuggingFace error: " + fetch.message, e.excerpt))
  {
  }

  /** `ModelDownloader`: the model file, the cancellation flag, whether a
      progress callback is set, and the reports delivered to it. */
  class ModelDownloader {
    var file: ModelFile
    var cancelRequested: bool
    var hasCallback: bool
    var events: seq<DownloadEvent>

    /** `ModelDownloader()`, over the model file as it is on disk. */
    constructor(file: ModelFile)
      ensures this.file == file && !cancelRequested && !hasCallback && events == []
    {
      this.file := file;
      cancelRequested := false;
      hasCallback := false;
      events := [];
    }

    /** `is_model_available`. */
    method IsModelAvailable() returns (available: bool)
      ensures available <==> file.Present? && file.size >= 1024 * 1024 * 1024
    {
      available := file.Present? && file.size >= MinModelSize;
    }

    /** `set_progress_callback`. */
    method SetProgressCallback()
      modifies this`hasCallback
      ensures hasCallback
    {
      hasCallback := true;
    }

    /** `cancel_download`. */
    method CancelDownload()
      modifies this`cancelRequested
      ensures cancelRequested
    {
      cancelRequested := true;
    }

    /** Sends a report to the callback when there is one. */
    method Report(e: DownloadEvent)
      modifies this`events
      ensures events == old(events) + if hasCallback then [e] else []
    {
      if hasCallback {
        events := events + [e];
      }
    }

    /** `download_model`: nothing to do when the model is there; otherwise
        the flag is cleared, the transfer runs (`cancelledDuring` says
        whether `cancel_download` was called meanwhile), a cancelled
        download is deleted (`unlink` says whether removing it returns or
        raises), and the result is checked. Never raises: a failed removal
        is reported like any other exception. */
    method DownloadModel(fetch: FetchOutcome, cancelledDuring: bool, unlink: Outcome) returns (ok: bool)
      modifies this`file, this`cancelRequested, this`events
      ensures Available(old(file)) ==>
        ok && file == old(file) && cancelRequested == old(cancelRequested) && events == old(events)
      ensures !Available(old(file)) ==>
        && cancelRequested == cancelledDuring
        && events == old(events) + (if hasCallback then [Connecting, Downloading] else []) + DownloadOutcomeEvents(hasCallback, fetch, cancelledDuring, unlink)
        && file == (if !fetch.Fetched? then old(file) else if cancelledDuring && unlink.Ok? then Missing else fetch.file)
        && (ok <==> fetch.Fetched? && !cancelledDuring && Available(fetch.file))
    {
      if file.Present? && file.size >= MinModelSize {
        return true;
      }
      cancelRequested := false;
      Report(Connecting);
      Report(Downloading);
      if cancelledDuring {
        cancelRequested := true;
      }
      match fetch {
        case HubError(m) =>
          Report(FailureEvent(fetch));
          ok := false;
        case FetchError(m) =>
          Report(FailureEvent(fetch));
          ok := false;
        case Fetched(f) =>
          file := f;
          if cancelRequested {
            if file.Present? {
              match unlink {
                case Ok =>
                  file := Missing;
                case Raised(m) =>
                  Report(DownloadError(Prefix(m, 50)));
              }
            }
            return false;
          }
          if file.Present? && file.size >= MinModelSize {
            Report(Completed);
            ok := true;
          } else {
            Report(FailureEvent(fetch));
            ok := false;
          }
      }
    }

    /** `delete_model`: removes the file when there is one; a removal that
        raises (`unlinkFails`) leaves it and reports false. */
    method DeleteModel(unlinkFails: bool) returns (ok: bool)
      modifies this`file
      ensures ok <==> old(file).Present? && !unlinkFails
      ensures file == if ok then Missing else old(file)
    {
      ok := false;
      if file.Present? && !unlinkFails {
        file := Missing;
        ok := true;
      }
    }
  }

  /** The reports after the transfer: a failure report for an exception or
      a failed check, the completion report for a good file, and none for a
      cancelled download unless removing its file raises. */
  function DownloadOutcomeEvents(hasCallback: bool, fetch: FetchOutcome, cancelledDuring: bool, unlink: Outcome): (r: seq<DownloadEvent>)
    ensures |r| <= 1
    ensures r != [] ==> hasCallback
  {
    if !hasCallback then []
    else if fetch.Fetched? && cancelledDuring then
      (if fetch.file.Present? && unlink.Raised? then [DownloadError(Prefix(unlink.message, 50))] else [])
    else if fetch.Fetched? && Available(fetch.file) then [Completed]
    else [FailureEvent(fetch)]
  }

  /** A download reports completion exactly when it succeeds, and the
      completion report is the only one with fraction 1. A cancelled
      download reports nothing more unless removing its file raises, and
      then it reports the start of that error. */
  lemma CompletionReported(hasCallback: bool, fetch: FetchOutcome, cancelledDuring: bool, unlink: Outcome)
    requires hasCallback
    ensures var r := DownloadOutcomeEvents(hasCallback, fetch, cancelledDuring, unlink);
      && (Completed in r <==> fetch.Fetched? && !cancelledDuring && Available(fetch.file))
      && (forall e :: e in r ==> (Fraction(e) == 1.0 <==> e == Completed))
      && (r == [] <==> fetch.Fetched? && cancelledDuring && !(fetch.file.Present? && unlink.Raised?))
      && (fetch.Fetched? && cancelledDuring && fetch.file.Present? && unlink.Raised? ==>
            r[0].DownloadError? && |r[0].excerpt| <= 50 && StartsWith(unlink.message, r[0].excerpt))
  {
    var r := DownloadOutcomeEvents(hasCallback, fetch, cancelledDuring, unlink);
    if !(fetch.Fetched? && cancelledDuring) && !(fetch.Fetched? && Available(fetch.file)) {
      FailureEventBound(fetch);
    }
  }

  /** `ensure_model_available`: a fresh downloader over the file on disk;
      true at once when the model is there, otherwise the result of
      downloading it. Returns the final state of the file too. */
  method EnsureModelAvailable(onDisk: ModelFile, withCallback: bool, fetch: FetchOutcome, cancelledDuring: bool, unlink: Outcome)
    returns (ok: bool, file: ModelFile)
    ensures Available(onDisk) ==> ok && file == onDisk
    ensures ok ==> Available(file)
    ensures !Available(onDisk) ==>
      && (ok <==> fetch.Fetched? && !cancelledDuring && Available(fetch.file))
      && (fetch.Fetched? ==> file == if cancelledDuring && unlink.Ok? then Missing else fetch.file)
      && (!fetch.Fetched? ==> file == onDisk)
  {
    var downloader := new ModelDownloader(onDisk);
    var available := downloader.IsModelAvailable();
    if available {
      return true, onDisk;
    }
    if withCallback {
      downloader.SetProgressCallback();
    }
    ok := downloader.DownloadModel(fetch, cancelledDuring, unlink);
    file := downloader.file;
  }

  // ---------------------------------------------------------------------------
  // Progress tracking

  /** `int(x)` of the exact quotient `a / b`: division truncated toward
      zero. */
  function TruncDiv(a: int, b: int): (q: int)
    requires b != 0
  {
    if (a >= 0) == (b > 0) then (if a >= 0 then a else -a) / (if b > 0 then b else -b)
    else -((if a >= 0 then a else -a) / (if b > 0 then b else -b))
  }

  /** For a non-negative amount of a positive total, the whole percentage
      is the largest `p` with `p * total <= downloaded * 100`. */
  lemma TruncDivFloor(a: int, b: int)
    requires a >= 0 && b > 0
    ensures TruncDiv(a, b) * b <= a < (TruncDiv(a, b) + 1) * b
  {
  }

  /** The whole percentage of `downloaded` out of `total`. */
  function Percent(downloaded: int, total: int): int
    requires total != 0
  {
    TruncDiv(downloaded * 100, total)
  }

  lemma MulMonotone(a: int, b: int, t: int)
    requires a <= b && t > 0
    ensures a * t <= b * t
  {
    assert b * t - a * t == (b - a) * t;
  }

  /** More bytes never lower the percentage. */
  lemma PercentMonotone(d1: int, d2: int, total: int)
    requires 0 <= d1 <= d2 && total > 0
    ensures Percent(d1, total) <= Percent(d2, total)
  {
    var p1 := Percent(d1, total);
    var p2 := Percent(d2, total);
    TruncDivFloor(d1 * 100, total);
    TruncDivFloor(d2 * 100, total);
    if p2 + 1 <= p1 {
      MulMonotone(p2 + 1, p1, total);
    }
  }

  /** A report of the tracker: the bytes so far, the total, and the whole
      percentage it was sent for. */
  datatype TrackerReport = TrackerReport(downloaded: int, total: int, percent: int)

  /** `ProgressTracker`: the total, the bytes so far, whether a callback is
      set, the last percentage seen, and the reports sent. */
  class ProgressTracker {
    var totalSize: int
    var downloaded: int
    var hasCallback: bool
    var lastPercent: int
    var reports: seq<TrackerReport>

    /** The last percentage is the current one (once there is a total to
        divide by), and the reports were sent for rising percentages, each
        at least 1 and none above the current one. */
    predicate Valid()
      reads this
    {
      && (totalSize != 0 ==> lastPercent == Percent(downloaded, totalSize))
      && (forall i :: 0 <= i < |reports| ==> 1 <= reports[i].percent <= lastPercent)
      && (forall i, j :: 0 <= i < j < |reports| ==> reports[i].percent < reports[j].percent)
    }

    /** `ProgressTracker(total_size, callback)`. */
    constructor(totalSize: int, hasCallback: bool)
      ensures this.totalSize == totalSize && this.hasCallback == hasCallback
      ensures downloaded == 0 && lastPercent == 0 && reports == []
      ensures Valid()
    {
      this.totalSize := totalSize;
      this.hasCallback := hasCallback;
      downloaded := 0;
      lastPercent := 0;
      reports := [];
    }

    /** `update`: adds the chunk, and when the whole percentage has changed
        records it and reports. A zero total raises `ZeroDivisionError`
        after the chunk has been added. With a positive total and chunks
        that are not negative it keeps `Valid`: each report is for a higher
        percentage than the one before. */
    method Update(chunkSize: int) returns (outcome: Outcome)
      modifies this`downloaded, this`lastPercent, this`reports
      ensures downloaded == old(downloaded) + chunkSize
      ensures totalSize == 0 ==>
        outcome == Raised("division by zero") && lastPercent == old(lastPercent) && reports == old(reports)
      ensures totalSize != 0 ==>
        var p := Percent(downloaded, totalSize);
        && outcome == Ok && lastPercent == p
        && reports == old(reports) + (if p != old(lastPercent) && hasCallback then [TrackerReport(downloaded, totalSize, p)] else [])
      ensures old(Valid()) && totalSize > 0 && old(downloaded) >= 0 && chunkSize >= 0 ==> Valid()
    {
      ghost var keeps := Valid() && totalSize > 0 && downloaded >= 0 && chunkSize >= 0;
      if keeps {
        PercentMonotone(downloaded, downloaded + chunkSize, totalSize);
        PercentNonNegative(downloaded, totalSize);
      }
      downloaded := downloaded + chunkSize;
      if totalSize == 0 {
        return Raised("division by zero");
      }
      var percent := TruncDiv(downloaded * 100, totalSize);
      outcome := Ok;
      if percent != lastPercent {
        if keeps {
          RisingReports(reports, lastPercent, percent, TrackerReport(downloaded, totalSize, percent));
        }
        lastPercent := percent;
        if hasCallback {
          reports := reports + [TrackerReport(downloaded, totalSize, percent)];
        }
      }
    }
  }

  /** A non-negative amount of a positive total is a non-negative
      percentage. */
  lemma PercentNonNegative(d: int, total: int)
    requires 0 <= d && 0 < total
    ensures 0 <= Percent(d, total)
  {
  }

  /** Reports for percentages from 1 up to `last`, strictly rising, stay so
      up to a higher percentage `p`, also once a report for `p` is added. */
  lemma RisingReports(reports: seq<TrackerReport>, last: int, p: int, r: TrackerReport)
    requires forall i :: 0 <= i < |reports| ==> 1 <= reports[i].percent <= last
    requires forall i, j :: 0 <= i < j < |reports| ==> reports[i].percent < reports[j].percent
    requires 0 <= last < p && r.percent == p
    ensures forall i :: 0 <= i < |reports| ==> 1 <= reports[i].percent <= p
    ensures var rs := reports + [r];
      && (forall i :: 0 <= i < |rs| ==> 1 <= rs[i].percent <= p)
      && (forall i, j :: 0 <= i < j < |rs| ==> rs[i].percent < rs[j].percent)
  {
  }

  /** Reports for strictly rising percentages from `low` to 100 number at
      most `101 - low`. */
  lemma {:induction false} RisingPercentsBound(reports: seq<TrackerReport>, low: int)
    requires forall i :: 0 <= i < |reports| ==> low <= reports[i].percent <= 100
    requires forall i, j :: 0 <= i < j < |reports| ==> reports[i].percent < reports[j].percent
    ensures |reports| <= 101 - low || reports == []
    decreases |reports|
  {
    if |reports| > 1 {
      var rest := reports[1..];
      forall i | 0 <= i < |rest| ensures reports[0].percent + 1 <= rest[i].percent <= 100 {
        assert rest[i] == reports[i + 1];
      }
      forall i, j | 0 <= i < j < |rest| ensures rest[i].percent < rest[j].percent {
        assert rest[i] == reports[i + 1] && rest[j] == reports[j + 1];
      }
      RisingPercentsBound(rest, reports[0].percent + 1);
    }
  }

  /** A whole quotient `q` with `q * b <= a <= 100 * b` is at most 100. */
  lemma FloorAtMost100(q: int, a: int, b: int)
    requires 0 < b && q * b <= a <= 100 * b
    ensures q <= 100
  {
    if q > 100 {
      MulMonotone(101, q, b);
    }
  }

  /** No more bytes than the total make at most 100 percent. */
  lemma PercentAtMost100(d: int, total: int)
    requires 0 <= d <= total && 0 < total
    ensures 0 <= Percent(d, total) <= 100
  {
    PercentNonNegative(d, total);
    var a := d * 100;
    var q := TruncDiv(a, total);
    assert Percent(d, total) == q;
    TruncDivFloor(a, total);
    MulMonotone(d, total, 100);
    FloorAtMost100(q, a, total);
  }

  /** As long as no more bytes have arrived than the total announced, the
      tracker's percentage lies between 0 and 100, every report is for a
      percentage from 1 to 100, and so a download is reported at most 100
      times. */
  lemma TrackerBounded(t: ProgressTracker)
    requires t.Valid() && 0 < t.totalSize && 0 <= t.downloaded <= t.totalSize
    ensures 0 <= t.lastPercent <= 100
    ensures forall i :: 0 <= i < |t.reports| ==> 1 <= t.reports[i].percent <= 100
    ensures |t.reports| <= 100
  {
    PercentAtMost100(t.downloaded, t.totalSize);
    RisingPercentsBound(t.reports, 1);
  }
}
