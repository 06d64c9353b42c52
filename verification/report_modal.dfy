/**
  The report dialog: it loads the latest report of the chosen industry and use
  case, downloads it under a dated file name, generates an ad-hoc report on
  request, and shows a title derived from the use-case identifier.
 */
module ReportModal {
  import opened JsValue
  import opened Http
  import opened ReportsClient
  import JsText
  import JsDate
  import Toast
  import AppHeader

  /** The dialog's state: the loaded report (`null` until one is found), the spinner, the error text and the download flag. */
  datatype View = View(report: Option<Report>, loading: bool, error: Option<string>, downloading: bool)

  const Closed := View(None, false, None, false)

  /** The effect: the latest report is fetched when the dialog is open and both industry and use case are given. */
  predicate ShouldFetch(isOpen: bool, industry: Option<string>, useCase: Option<string>) {
    isOpen && Truthy(industry) && Truthy(useCase)
  }

  // ---------------------------------------------------------------------------
  // Loading the latest report
  // ---------------------------------------------------------------------------

  /**
    `fetchLatestReport()`, given what the latest-report request produced: a found report or
    "no report yet" replaces the shown one and clears the error; a failure keeps the shown
    report and records the message. The spinner is off afterwards either way.
   */
  function FetchLatest(v: View, x: Exchange<Report>): (r: View)
    ensures !r.loading && r.downloading == v.downloading
    ensures GetLatestReport(x).Returned? ==> r.report == GetLatestReport(x).value && r.error == None
    ensures GetLatestReport(x).Thrown? ==> r.report == v.report && r.error == Some(GetLatestReport(x).message)
  {
    match GetLatestReport(x)
    case Returned(found) => v.(report := found, loading := false, error := None)
    case Thrown(m) => v.(loading := false, error := Some(m))
  }

  /** A 404 answer empties the dialog even when a report was shown before, and raises no error. */
  lemma NotFoundClearsReport(v: View, resp: Response<Report>)
    requires !resp.ok && resp.status == 404
    ensures FetchLatest(v, Answered(resp)).report == None
    ensures FetchLatest(v, Answered(resp)).error == None
  {
  }

  /** The panels the dialog can show below its header. */
  datatype Panel = Spinner | ErrorBox | NoReport | Details

  /** Which panels are rendered: the spinner and the error box independently, the empty state or the report details only when neither is shown. */
  function Panels(v: View): (ps: set<Panel>)
    ensures Spinner in ps <==> v.loading
    ensures ErrorBox in ps <==> Truthy(v.error)
    ensures NoReport in ps <==> !v.loading && !Truthy(v.error) && v.report.None?
    ensures Details in ps <==> !v.loading && !Truthy(v.error) && v.report.Some?
  {
    (if v.loading then {Spinner} else {})
    + (if Truthy(v.error) then {ErrorBox} else {})
    + (if !v.loading && !Truthy(v.error) then (if v.report.Some? then {Details} else {NoReport}) else {})
  }

  /** Exactly one panel is visible whenever the dialog is neither loading nor showing an error. */
  lemma OnePanelWhenSettled(v: View)
    requires !v.loading && !Truthy(v.error)
    ensures |Panels(v)| == 1
  {
    if v.report.Some? {
      assert Panels(v) == {Details};
    } else {
      assert Panels(v) == {NoReport};
    }
  }

  /** After a successful load the dialog settles on exactly the report or the empty state. */
  lemma LoadedDialogShowsOnePanel(v: View, x: Exchange<Report>)
    requires GetLatestReport(x).Returned?
    ensures var r := FetchLatest(v, x);
      Panels(r) == (if r.report.Some? then {Details} else {NoReport})
  {
    var r := FetchLatest(v, x);
    OnePanelWhenSettled(r);
  }

  // ---------------------------------------------------------------------------
  // Download
  // ---------------------------------------------------------------------------

  /** A template literal's reading of an optional string: `undefined` when it is missing. */
  function Interpolate(s: Option<string>): (r: string)
    ensures s.Some? ==> r == s.value
    ensures s.None? ==> r == "undefined"
  {
    match s
    case Some(v) => v
    case None => "undefined"
  }

  /** `${useCase}_report_${YYYYMMDD}.pdf`, with the date of the UTC clock reading. */
  function ReportFilename(useCase: Option<string>, utc: JsDate.DateTime): string
    requires JsDate.FourDigitYear(utc)
  {
    Interpolate(useCase) + "_report_" + JsDate.DatePart(utc) + ".pdf"
  }

  /** The file name is the use case, `_report_`, eight digits giving the UTC date, and `.pdf`. */
  lemma ReportFilenameFields(useCase: string, utc: JsDate.DateTime)
    requires JsDate.Valid(utc) && JsDate.FourDigitYear(utc)
    ensures var f := ReportFilename(Some(useCase), utc);
      var n := |useCase| + 8;
      && |f| == n + 12
      && f[..n] == useCase + "_report_"
      && f[n + 8..] == ".pdf"
      && JsText.AllDigits(f[n..n + 8])
      && JsText.ParseDigits(f[n..n + 4]) == utc.year
      && JsText.ParseDigits(f[n + 4..n + 6]) == utc.month0 + 1
      && JsText.ParseDigits(f[n + 6..n + 8]) == utc.day
  {
    var d := JsDate.DatePart(utc);
    JsDate.DatePartFields(utc);
    var f := ReportFilename(Some(useCase), utc);
    var n := |useCase| + 8;
    assert f == (useCase + "_report_") + d + ".pdf";
    assert f[n..n + 8] == d;
    assert f[n..n + 4] == d[..4];
    assert f[n + 4..n + 6] == d[4..6];
    assert f[n + 6..n + 8] == d[6..8];
  }

  const DownloadedToast := Toast.Spec("success", "Report downloaded", "The report has been downloaded successfully.", Some(true))
  const DownloadFailedToast := Toast.Spec("error", "Download failed", "Unable to download the report. Please try again.", Some(true))

  /** What a download did: the request sent, the file saved and the toast pushed (each absent when the step did not happen). */
  datatype Downloaded = Downloaded(view: View, request: Option<Target>, saved: Option<(string, seq<bv8>)>, toast: Option<Toast.Spec>)

  /**
    `handleDownload()` with the download's result and the UTC clock reading: nothing
    happens without a report; otherwise the report's id picks the download path, a
    received file is saved under the dated name with a success toast, and a failure
    pushes an error toast. The download flag is off afterwards.
   */
  function HandleDownload(v: View, industry: Option<string>, useCase: Option<string>, x: Download, utc: JsDate.DateTime): (r: Downloaded)
    requires JsDate.FourDigitYear(utc)
    ensures v.report.None? ==> r == Downloaded(v, None, None, None)
    ensures v.report.Some? ==> r.request == Some(DownloadTarget(v.report.value.reportId, industry, useCase))
    ensures v.report.Some? ==> r.view == v.(downloading := false)
    ensures v.report.Some? ==>
      (r.saved.Some? <==> DownloadReport(v.report.value.reportId, industry, useCase, x).Returned?)
    ensures r.saved.Some? ==>
      r.saved.value == (ReportFilename(useCase, utc), DownloadReport(v.report.value.reportId, industry, useCase, x).value)
      && r.toast == Some(DownloadedToast)
    ensures v.report.Some? && r.saved.None? ==> r.toast == Some(DownloadFailedToast)
  {
    match v.report
    case None => Downloaded(v, None, None, None)
    case Some(report) =>
      var request := Some(DownloadTarget(report.reportId, industry, useCase));
      match DownloadReport(report.reportId, industry, useCase, x)
      case Returned(blob) =>
        Downloaded(v.(downloading := false), request, Some((ReportFilename(useCase, utc), blob)), Some(DownloadedToast))
      case Thrown(_) =>
        Downloaded(v.(downloading := false), request, None, Some(DownloadFailedToast))
  }

  /**
    The dialog marks a report as the fallback by its status, but the download path follows
    its id: a report with status `seed` and any other id is fetched from the regular path.
   */
  lemma SeedStatusDoesNotPickSeedPath(v: View, industry: Option<string>, useCase: Option<string>, x: Download, utc: JsDate.DateTime)
    requires JsDate.FourDigitYear(utc)
    requires v.report.Some? && v.report.value.status == "seed" && v.report.value.reportId != "seed"
    ensures HandleDownload(v, industry, useCase, x, utc).request.value.path
      == "/api/reports/" + v.report.value.reportId + "/download"
  {
  }

  // ---------------------------------------------------------------------------
  // Ad-hoc generation
  // ---------------------------------------------------------------------------

  /** The fields of the generate-adhoc answer the dialog reads. */
  datatype AdhocResult = AdhocResult(status: Option<string>, message: Option<string>)

  const GeneratedToast := Toast.Spec("success", "Report Generated", "Ad-hoc report generated successfully.", Some(true))
  const GenerationFailedToast := Toast.Spec("error", "Generation Failed", "Could not generate ad-hoc report. Please try again.", Some(true))

  /** What a generation did: the new state, the toast pushed and whether the latest report was fetched again. */
  datatype Generated = Generated(view: View, toast: Toast.Spec, refetched: bool)

  /**
    `generateAdhocReport()`, given the generate answer and, for the refresh that follows a
    success, the latest-report answer: on success a success toast and a reload; an answer
    with another status fails with its message (or a fixed one), and every failure is
    recorded as the error with an error toast. The spinner is off afterwards.
   */
  function GenerateAdhoc(v: View, x: Exchange<AdhocResult>, refetch: Exchange<Report>): (r: Generated)
    ensures !r.view.loading && r.view.downloading == v.downloading
    ensures r.refetched <==> r.toast == GeneratedToast
    ensures r.refetched <==> Complete(GenerateAdhocReport, x).Returned? && Complete(GenerateAdhocReport, x).value.status == Some("success")
    ensures r.refetched ==> r.view == FetchLatest(v.(loading := true, error := None), refetch)
    ensures !r.refetched ==> r.toast == GenerationFailedToast && r.view.report == v.report && r.view.error.Some?
    ensures Complete(GenerateAdhocReport, x).Thrown? ==> r.view.error == Some(Complete(GenerateAdhocReport, x).message)
    ensures Complete(GenerateAdhocReport, x).Returned? && !r.refetched ==>
      r.view.error == Some(OrElse(Complete(GenerateAdhocReport, x).value.message, "Failed to generate report"))
  {
    var started := v.(loading := true, error := None);
    match Complete(GenerateAdhocReport, x)
    case Returned(res) =>
      if res.status == Some("success") then Generated(FetchLatest(started, refetch), GeneratedToast, true)
      else Generated(started.(loading := false, error := Some(OrElse(res.message, "Failed to generate report"))), GenerationFailedToast, false)
    case Thrown(m) => Generated(started.(loading := false, error := Some(m)), GenerationFailedToast, false)
  }

  /** A failing reload after a successful generation still shows the success toast and only the reload's error. */
  lemma GeneratedButReloadFailed(v: View, res: AdhocResult, refetch: Exchange<Report>)
    requires res.status == Some("success")
    requires GetLatestReport(refetch).Thrown?
    ensures var x: Exchange<AdhocResult> := Answered(Response(true, 200, Json(None, res)));
      && GenerateAdhoc(v, x, refetch).toast == GeneratedToast
      && GenerateAdhoc(v, x, refetch).view.error == Some(GetLatestReport(refetch).message)
  {
  }

  // ---------------------------------------------------------------------------
  // Title and subtitle
  // ---------------------------------------------------------------------------

  /** `s.indexOf(c)`, with `|s|` standing for -1: the position of the first `c`. */
  function IndexOf(s: string, c: char): (k: nat)
    ensures k <= |s|
    ensures k < |s| ==> s[k] == c
    ensures forall i :: 0 <= i < k ==> s[i] != c
  {
    if s == [] || s[0] == c then 0
    else
      var k := IndexOf(s[1..], c);
      assert forall i :: 1 <= i < k + 1 ==> s[i] == s[1..][i - 1];
      1 + k
  }

  /** `replace('_', ' ')` with a string pattern: only the first underscore becomes a space. */
  function ReplaceFirstUnderscore(s: string): (r: string)
    ensures |r| == |s|
    ensures forall i :: 0 <= i < |s| ==> r[i] == (if i == IndexOf(s, '_') then ' ' else s[i])
  {
    var k := IndexOf(s, '_');
    if k < |s| then s[..k] + " " + s[k + 1..] else s
  }

  /** `replace(/\b\w/g, l => l.toUpperCase())`: a word character that starts a word is upper-cased. */
  function CapitalizeWords(s: string, afterWord: bool): (r: string)
    ensures |r| == |s|
    ensures forall i :: 0 <= i < |s| ==>
      r[i] == (if JsText.IsWordChar(s[i]) && !(if i == 0 then afterWord else JsText.IsWordChar(s[i - 1]))
               then JsText.UpperAscii(s[i]) else s[i])
  {
    if s == [] then []
    else
      var c := if JsText.IsWordChar(s[0]) && !afterWord then JsText.UpperAscii(s[0]) else s[0];
      var rest := CapitalizeWords(s[1..], JsText.IsWordChar(s[0]));
      var r := [c] + rest;
      assert forall i :: 0 <= i < |s| ==>
        r[i] == (if JsText.IsWordChar(s[i]) && !(if i == 0 then afterWord else JsText.IsWordChar(s[i - 1]))
                 then JsText.UpperAscii(s[i]) else s[i]) by {
        forall i | 0 <= i < |s|
          ensures r[i] == (if JsText.IsWordChar(s[i]) && !(if i == 0 then afterWord else JsText.IsWordChar(s[i - 1]))
                           then JsText.UpperAscii(s[i]) else s[i])
        {
          if i == 0 {
            assert r[0] == c;
          } else {
            var t := s[1..];
            assert r[i] == rest[i - 1] && t[i - 1] == s[i];
            var prev := if i - 1 == 0 then JsText.IsWordChar(s[0]) else JsText.IsWordChar(t[i - 2]);
            assert rest[i - 1] == (if JsText.IsWordChar(t[i - 1]) && !prev then JsText.UpperAscii(t[i - 1]) else t[i - 1]);
            if i > 1 {
              assert t[i - 2] == s[i - 1];
            }
          }
        }
      }
      r
  }

  /** The heading's use-case part: the identifier with its first underscore spaced and its words capitalised. */
  function UseCaseHeading(useCase: string): (r: string)
    ensures |r| == |useCase|
  {
    CapitalizeWords(ReplaceFirstUnderscore(useCase), false)
  }

  /** The dialog's title: the use-case heading, or `Scheduled` without a use case, followed by ` Report`. */
  function ReportTitle(useCase: Option<string>): (r: string)
    ensures Truthy(useCase) ==> r == UseCaseHeading(useCase.value) + " Report"
    ensures !Truthy(useCase) ==> r == "Scheduled Report"
  {
    (if Truthy(useCase) then UseCaseHeading(useCase.value) else "Scheduled") + " Report"
  }

  /** The subtitle: the industry in upper case followed by ` Industry`, or `Automated Report` without one. */
  function Subtitle(industry: Option<string>): (r: string)
    ensures Truthy(industry) ==> |r| == |industry.value| + 9 && r[|industry.value|..] == " Industry"
    ensures Truthy(industry) ==> forall i :: 0 <= i < |industry.value| ==> r[i] == JsText.UpperAscii(industry.value[i])
    ensures !Truthy(industry) ==> r == "Automated Report"
  {
    if Truthy(industry) then seq(|industry.value|, i requires 0 <= i < |industry.value| => JsText.UpperAscii(industry.value[i])) + " Industry"
    else "Automated Report"
  }

  /** An identifier of word characters. */
  predicate Identifier(s: string) {
    forall i :: 0 <= i < |s| ==> JsText.IsWordChar(s[i])
  }

  /** The count of underscores in `s`. */
  function Underscores(s: string): nat {
    if s == [] then 0 else (if s[0] == '_' then 1 else 0) + Underscores(s[1..])
  }

  /** An underscore after the first one in `s` is counted twice. */
  lemma {:induction false} SecondUnderscore(s: string, k: nat, i: nat)
    requires k < i < |s| && s[k] == '_' && s[i] == '_'
    ensures Underscores(s) >= 2
  {
    if k == 0 {
      OneUnderscoreCounted(s[1..], i - 1);
    } else {
      assert s[1..][k - 1] == '_' && s[1..][i - 1] == '_';
      SecondUnderscore(s[1..], k - 1, i - 1);
    }
  }

  lemma {:induction false} OneUnderscoreCounted(s: string, i: nat)
    requires i < |s| && s[i] == '_'
    ensures Underscores(s) >= 1
  {
    if i > 0 {
      assert s[1..][i - 1] == '_';
      OneUnderscoreCounted(s[1..], i - 1);
    }
  }

  /** For an identifier with at most one underscore, the dialog's heading is the header's use-case label. */
  lemma HeadingMatchesHeaderLabel(s: string)
    requires s != [] && Identifier(s) && Underscores(s) <= 1
    ensures UseCaseHeading(s) == AppHeader.FormatUseCase(Some(s))
  {
    var h := UseCaseHeading(s);
    var t := AppHeader.FormatUseCase(Some(s));
    forall i | 0 <= i < |s| ensures h[i] == t[i] {
      OnlyUnderscoreReplaced(s, i);
      if i > 0 {
        OnlyUnderscoreReplaced(s, i - 1);
      }
    }
  }

  /** With at most one underscore, the first-underscore replacement spaces every underscore. */
  lemma OnlyUnderscoreReplaced(s: string, i: nat)
    requires i < |s| && Underscores(s) <= 1
    ensures ReplaceFirstUnderscore(s)[i] == if s[i] == '_' then ' ' else s[i]
  {
    var k := IndexOf(s, '_');
    if s[i] == '_' && k < i {
      SecondUnderscore(s, k, i);
    }
  }

  /** With two underscores the two labels part: the dialog keeps the second underscore and its word stays lower-case. */
  lemma HeadingKeepsLaterUnderscores(a: char, b: char, c: char)
    requires 'a' <= a <= 'z' && 'a' <= b <= 'z' && 'a' <= c <= 'z'
    ensures UseCaseHeading([a, '_', b, '_', c]) == [JsText.UpperAscii(a), ' ', JsText.UpperAscii(b), '_', c]
    ensures AppHeader.FormatUseCase(Some([a, '_', b, '_', c])) == [JsText.UpperAscii(a), ' ', JsText.UpperAscii(b), ' ', JsText.UpperAscii(c)]
  {
    var s := [a, '_', b, '_', c];
    var r := ReplaceFirstUnderscore(s);
    assert IndexOf(s, '_') == 1 by {
      assert s[0] != '_' && s[1] == '_';
    }
    assert r[0] == a && r[1] == ' ' && r[2] == b && r[3] == '_' && r[4] == c;
    assert r == [a, ' ', b, '_', c];
    var h := CapitalizeWords(r, false);
    assert h[0] == JsText.UpperAscii(a) && h[1] == ' ' && h[2] == JsText.UpperAscii(b) && h[3] == '_' && h[4] == c;
  }
}
