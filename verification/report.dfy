/** The statistics and page selection of the scan report
    (backend/app/services/report_generator.py). The HTML template and its
    PDF rendering are not modelled; `ReportData` is what the template is
    given. */
module Report {
  import opened Text
  import opened Errors
  import opened Scan
  import Crawler

  // ---------------------------------------------------------------------
  // Display names

  /** `ERROR_TYPE_NAMES`, keyed by `ErrorType` values. */
  const ErrorTypeNames: map<string, string> := map[
    "spelling" := "Орфографія",
    "address" := "Формат адреси",
    "broken_link" := "Битi посилання",
    "phone" := "Телефонні номери",
    "seo" := "SEO"]

  /** `SEVERITY_NAMES`, keyed by `ErrorSeverity` values. */
  const SeverityNames: map<string, string> := map[
    "info" := "Інформація",
    "warning" := "Попередження",
    "error" := "Помилка",
    "critical" := "Критична"]

  /** `STATUS_NAMES`, keyed by `ScanStatus` values. */
  const StatusNames: map<string, string> := map[
    "pending" := "Очікується",
    "running" := "Виконується",
    "completed" := "Завершено",
    "failed" := "Помилка"]

  /** The type names are keyed by exactly the values of the five types. */
  lemma TypeNamesCoverTypes()
    ensures forall t :: TypeValue(t) in ErrorTypeNames
    ensures forall v :: v in ErrorTypeNames ==> TypeFromValue(v).Some?
  {
    forall t ensures TypeValue(t) in ErrorTypeNames {
      match t
      case Spelling =>
      case Address =>
      case BrokenLink =>
      case Seo =>
      case Phone =>
    }
  }

  /** The severity names are keyed by exactly the values of the four severities. */
  lemma SeverityNamesCoverSeverities()
    ensures forall s :: SeverityValue(s) in SeverityNames
    ensures forall v :: v in SeverityNames ==> SeverityFromValue(v).Some?
  {
    forall s ensures SeverityValue(s) in SeverityNames {
      match s
      case Info =>
      case Warning =>
      case Error =>
      case Critical =>
    }
  }

  /** `STATUS_NAMES.get(status, status)`: the display name of a status, or
      the status itself when it has none. */
  function StatusText(status: string): (r: string)
    ensures status in StatusNames ==> r == StatusNames[status]
    ensures status !in StatusNames ==> r == status
  {
    if status in StatusNames then StatusNames[status] else status
  }

  /** Every status a session can be in has its own display name, so the
      fallback is never used for a stored status, and the names differ from
      the raw values. */
  lemma StatusTextNamesEveryStatus(s: ScanStatus)
    ensures StatusValue(s) in StatusNames
    ensures StatusText(StatusValue(s)) == StatusNames[StatusValue(s)] != StatusValue(s)
  {
    match s
    case Pending => assert StatusNames["pending"][0] != 'p';
    case Running => assert StatusNames["running"][0] != 'r';
    case Completed => assert StatusNames["completed"][0] != 'c';
    case Failed => assert StatusNames["failed"][0] != 'f';
  }

  /** Every key of `STATUS_NAMES` is the value of a status. */
  lemma StatusNamesKeyedByStatuses(v: string)
    requires v in StatusNames
    ensures exists s :: StatusValue(s) == v
  {
    if v == "pending" {
      assert StatusValue(Pending) == v;
    } else if v == "running" {
      assert StatusValue(Running) == v;
    } else if v == "completed" {
      assert StatusValue(Completed) == v;
    } else {
      assert StatusValue(Failed) == v;
    }
  }

  // ---------------------------------------------------------------------
  // Statistics

  /** The statistics `_calculate_stats` computes: the number of critical
      findings and, per severity and per type, how many findings have it
      (a key is present only once it has been counted). */
  datatype Stats = Stats(critical: nat, bySeverity: map<Severity, nat>, byType: map<ErrorType, nat>)

  /** `d.get(k, 0)`. */
  function Get<K>(m: map<K, nat>, k: K): nat
  {
    if k in m then m[k] else 0
  }

  /** `d[k] = d.get(k, 0) + 1`. */
  function Bump<K(!new)>(m: map<K, nat>, k: K): (r: map<K, nat>)
    ensures k in r && Get(r, k) == Get(m, k) + 1
    ensures forall j :: j != k ==> (j in r <==> j in m) && Get(r, j) == Get(m, j)
  {
    m[k := Get(m, k) + 1]
  }

  /** All findings of the stored pages, page by page. */
  function AllErrors(pages: seq<PageRow>): seq<Finding>
  {
    if pages == [] then [] else AllErrors(pages[..|pages| - 1]) + pages[|pages| - 1].errors
  }

  /** The report's findings are the ones the scan counted in `errors_found`. */
  lemma {:induction false} AllErrorsAreSaved(pages: seq<PageRow>)
    ensures |AllErrors(pages)| == SavedErrors(pages)
    decreases |pages|
  {
    if pages != [] {
      AllErrorsAreSaved(pages[..|pages| - 1]);
    }
  }

  /** How many of `fs` have severity `s`. */
  function CountSeverity(fs: seq<Finding>, s: Severity): (n: nat)
    ensures n <= |fs|
  {
    if fs == [] then 0 else CountSeverity(fs[..|fs| - 1], s) + (if fs[|fs| - 1].severity == s then 1 else 0)
  }

  /** `m` holds, for every severity, how many of `fs` have it, and holds a
      key exactly when that number is positive. */
  predicate TalliesSeverities(m: map<Severity, nat>, fs: seq<Finding>)
  {
    forall s :: (s in m <==> CountSeverity(fs, s) > 0) && Get(m, s) == CountSeverity(fs, s)
  }

  /** The same for types. */
  predicate TalliesKinds(m: map<ErrorType, nat>, fs: seq<Finding>)
  {
    forall k :: (k in m <==> CountKind(fs, k) > 0) && Get(m, k) == CountKind(fs, k)
  }

  /** Counting one more finding keeps both tallies. */
  lemma TalliesGrow(bySeverity: map<Severity, nat>, byType: map<ErrorType, nat>, fs: seq<Finding>, e: Finding)
    requires TalliesSeverities(bySeverity, fs) && TalliesKinds(byType, fs)
    ensures TalliesSeverities(Bump(bySeverity, e.severity), fs + [e])
    ensures TalliesKinds(Bump(byType, e.kind), fs + [e])
  {
    assert (fs + [e])[..|fs|] == fs;
  }

  /** A tally is determined by the findings: there is one map per list. */
  lemma TalliesDetermineSeverities(m1: map<Severity, nat>, m2: map<Severity, nat>, fs: seq<Finding>)
    requires TalliesSeverities(m1, fs) && TalliesSeverities(m2, fs)
    ensures m1 == m2
  {
    forall s | s in m1 ensures s in m2 && m1[s] == m2[s] {
      assert Get(m1, s) == CountSeverity(fs, s);
    }
    forall s | s in m2 ensures s in m1 {
      assert Get(m2, s) == CountSeverity(fs, s);
    }
  }

  /** The severity counts add up to the number of findings. */
  lemma {:induction false} SeverityCountsSum(fs: seq<Finding>)
    ensures CountSeverity(fs, Info) + CountSeverity(fs, Warning) + CountSeverity(fs, Error)
      + CountSeverity(fs, Critical) == |fs|
    decreases |fs|
  {
    if fs != [] {
      SeverityCountsSum(fs[..|fs| - 1]);
    }
  }

  /** The type counts add up to the number of findings. */
  lemma {:induction false} KindCountsSum(fs: seq<Finding>)
    ensures CountKind(fs, Spelling) + CountKind(fs, Address) + CountKind(fs, BrokenLink)
      + CountKind(fs, Seo) + CountKind(fs, Phone) == |fs|
    decreases |fs|
  {
    if fs != [] {
      KindCountsSum(fs[..|fs| - 1]);
    }
  }

  /** The inner loop of `_calculate_stats`: counting the findings of one
      page on top of the counts of the findings `seen` before it. */
  method CountFindings(errors: seq<Finding>, ghost seen: seq<Finding>,
                       critical0: nat, bySeverity0: map<Severity, nat>, byType0: map<ErrorType, nat>)
    returns (critical: nat, bySeverity: map<Severity, nat>, byType: map<ErrorType, nat>)
    requires critical0 == CountSeverity(seen, Critical)
    requires TalliesSeverities(bySeverity0, seen) && TalliesKinds(byType0, seen)
    ensures critical == CountSeverity(seen + errors, Critical)
    ensures TalliesSeverities(bySeverity, seen + errors) && TalliesKinds(byType, seen + errors)
  {
    critical, bySeverity, byType := critical0, bySeverity0, byType0;
    assert seen + errors[..0] == seen;
    for j := 0 to |errors|
      invariant critical == CountSeverity(seen + errors[..j], Critical)
      invariant TalliesSeverities(bySeverity, seen + errors[..j]) && TalliesKinds(byType, seen + errors[..j])
    {
      var e := errors[j];
      ghost var before := seen + errors[..j];
      assert seen + errors[..j + 1] == before + [e];
      TalliesGrow(bySeverity, byType, before, e);
      assert (before + [e])[..|before|] == before;
      if e.severity == Critical {
        critical := critical + 1;
      }
      bySeverity := Bump(bySeverity, e.severity);
      byType := Bump(byType, e.kind);
    }
    assert errors[..|errors|] == errors;
  }

  /** `_calculate_stats`: one pass over the findings of every stored page,
      counting each by severity and by type, and counting critical ones. */
  method CalculateStats(scan: ScanSession) returns (stats: Stats)
    ensures stats.critical == CountSeverity(AllErrors(scan.pages), Critical)
    ensures stats.critical == Get(stats.bySeverity, Critical)
    ensures TalliesSeverities(stats.bySeverity, AllErrors(scan.pages))
    ensures TalliesKinds(stats.byType, AllErrors(scan.pages))
  {
    var pages := scan.pages;
    var critical := 0;
    var bySeverity: map<Severity, nat> := map[];
    var byType: map<ErrorType, nat> := map[];
    for i := 0 to |pages|
      invariant critical == CountSeverity(AllErrors(pages[..i]), Critical)
      invariant TalliesSeverities(bySeverity, AllErrors(pages[..i]))
      invariant TalliesKinds(byType, AllErrors(pages[..i]))
    {
      assert pages[..i + 1][..i] == pages[..i];
      assert AllErrors(pages[..i + 1]) == AllErrors(pages[..i]) + pages[i].errors;
      critical, bySeverity, byType := CountFindings(pages[i].errors, AllErrors(pages[..i]), critical, bySeverity, byType);
    }
    assert pages[..|pages|] == pages;
    stats := Stats(critical, bySeverity, byType);
  }

  /** For the pages a completed scan stored, the report's severity counts
      add up to the `errors_found` the task recorded. */
  lemma ReportAgreesWithCounter(crawled: seq<Crawler.PageRecord>, check: Crawler.PageRecord -> seq<Finding>)
    ensures var fs := AllErrors(StoredPages(crawled, check, |crawled|));
            CountSeverity(fs, Info) + CountSeverity(fs, Warning) + CountSeverity(fs, Error)
            + CountSeverity(fs, Critical) == TotalErrors(crawled, check, |crawled|)
  {
    var rows := StoredPages(crawled, check, |crawled|);
    TotalIsSaved(crawled, check, |crawled|);
    AllErrorsAreSaved(rows);
    SeverityCountsSum(AllErrors(rows));
  }

  // ---------------------------------------------------------------------
  // Pages shown

  /** `[p for p in scan.pages if p.errors]`. */
  function PagesWithErrors(pages: seq<PageRow>): (r: seq<PageRow>)
    ensures forall p :: p in r <==> p in pages && p.errors != []
    ensures |r| <= |pages|
  {
    if pages == [] then []
    else
      var last := pages[|pages| - 1];
      PagesWithErrors(pages[..|pages| - 1]) + (if last.errors != [] then [last] else [])
  }

  /** Leaving out the pages without findings loses no finding and keeps
      their order: the report lists every finding the scan stored. */
  lemma {:induction false} PagesWithErrorsKeepAllErrors(pages: seq<PageRow>)
    ensures AllErrors(PagesWithErrors(pages)) == AllErrors(pages)
    decreases |pages|
  {
    if pages != [] {
      var front := pages[..|pages| - 1];
      var last := pages[|pages| - 1];
      assert pages[..|pages| - 1] == front;
      PagesWithErrorsKeepAllErrors(front);
      var kept := PagesWithErrors(front);
      if last.errors != [] {
        assert PagesWithErrors(pages) == kept + [last];
        assert (kept + [last])[..|kept|] == kept;
        assert AllErrors(kept + [last]) == AllErrors(kept) + last.errors;
      } else {
        assert PagesWithErrors(pages) == kept + [] == kept;
        assert AllErrors(pages) == AllErrors(front) + last.errors == AllErrors(front) + [];
      }
    }
  }

  /** Selecting again selects the same pages. */
  lemma {:induction false} PagesWithErrorsIdempotent(pages: seq<PageRow>)
    ensures PagesWithErrors(PagesWithErrors(pages)) == PagesWithErrors(pages)
    decreases |pages|
  {
    if pages != [] {
      var front := pages[..|pages| - 1];
      var last := pages[|pages| - 1];
      assert pages[..|pages| - 1] == front;
      PagesWithErrorsIdempotent(front);
      var kept := PagesWithErrors(front);
      if last.errors != [] {
        assert PagesWithErrors(pages) == kept + [last];
        assert (kept + [last])[..|kept|] == kept;
        assert PagesWithErrors(kept + [last]) == PagesWithErrors(kept) + [last];
      } else {
        assert PagesWithErrors(pages) == kept + [] == kept;
      }
    }
  }

  // ---------------------------------------------------------------------
  // The report

  /** What `generate_html_report` hands to the template, besides the
      session itself and the current time. */
  datatype ReportData = ReportData(
    stats: Stats,
    pagesWithErrors: seq<PageRow>,
    errorTypeNames: map<string, string>,
    severityNames: map<string, string>,
    statusText: string)

  /** `generate_html_report`: the statistics, the pages that have findings,
      the display names and the status shown for the session. */
  method GenerateHtmlReport(scan: ScanSession) returns (data: ReportData)
    ensures TalliesSeverities(data.stats.bySeverity, AllErrors(scan.pages))
    ensures TalliesKinds(data.stats.byType, AllErrors(scan.pages))
    ensures data.stats.critical == Get(data.stats.bySeverity, Critical)
    ensures forall p :: p in data.pagesWithErrors <==> p in scan.pages && p.errors != []
    ensures AllErrors(data.pagesWithErrors) == AllErrors(scan.pages)
    ensures data.errorTypeNames == ErrorTypeNames && data.severityNames == SeverityNames
    ensures data.statusText == StatusNames[StatusValue(scan.status)]
  {
    var stats := CalculateStats(scan);
    var shown := PagesWithErrors(scan.pages);
    PagesWithErrorsKeepAllErrors(scan.pages);
    StatusTextNamesEveryStatus(scan.status);
    data := ReportData(stats, shown, ErrorTypeNames, SeverityNames, StatusText(StatusValue(scan.status)));
  }
}
