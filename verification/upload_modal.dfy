/**
  The upload dialog: a list of chosen files (at most three per choice), removal
  by position, the upload that hands the list to the upload client, and the
  size label shown next to each file.
 */
module UploadModal {
  import opened JsValue
  import opened Http
  import opened UploadClient
  import JsText

  const MaxFiles: nat := 3
  const TooManyFiles := "Maximum 3 files can be uploaded at once"
  const NothingToUpload := "Please select files to upload"

  datatype Modal = Modal(files: seq<File>, uploading: bool, error: Option<string>)

  function Initial(): (m: Modal)
    ensures m.files == [] && !m.uploading && m.error.None?
  {
    Modal([], false, None)
  }

  /**
    `handleFileSelect` and `handleDrop`: more than three files are refused with an error
    and the list kept; otherwise the chosen files replace the list and the error is cleared.
   */
  function ChooseFiles(m: Modal, chosen: seq<File>): (r: Modal)
    ensures |chosen| > MaxFiles ==> r.files == m.files && r.error == Some(TooManyFiles)
    ensures |chosen| <= MaxFiles ==> r.files == chosen && r.error.None?
    ensures r.uploading == m.uploading
  {
    if |chosen| > MaxFiles then m.(error := Some(TooManyFiles)) else m.(files := chosen, error := None)
  }

  /** `xs.filter((_, i) => i !== index)`, with `from` the position of `xs[0]` in the whole list. */
  function DropIndex(xs: seq<File>, index: int, from: nat): (r: seq<File>)
    ensures |r| <= |xs|
  {
    if xs == [] then []
    else (if from == index then [] else [xs[0]]) + DropIndex(xs[1..], index, from + 1)
  }

  /** The filter by position removes exactly the element at that position, if there is one. */
  lemma {:induction false} DropIndexSlices(xs: seq<File>, index: int, from: nat)
    ensures from <= index < from + |xs| ==> DropIndex(xs, index, from) == xs[..index - from] + xs[index - from + 1..]
    ensures !(from <= index < from + |xs|) ==> DropIndex(xs, index, from) == xs
  {
    if xs != [] {
      var tail := xs[1..];
      var rest := DropIndex(tail, index, from + 1);
      DropIndexSlices(tail, index, from + 1);
      if from == index {
        assert rest == tail;
        assert DropIndex(xs, index, from) == rest;
      } else if from < index < from + |xs| {
        var k := index - from;
        assert rest == tail[..k - 1] + tail[k..];
        assert DropIndex(xs, index, from) == [xs[0]] + rest;
        assert tail[..k - 1] == xs[1..k];
        assert tail[k..] == xs[k + 1..];
        assert [xs[0]] + xs[1..k] == xs[..k];
      } else {
        assert rest == tail;
        assert DropIndex(xs, index, from) == [xs[0]] + tail;
        assert [xs[0]] + tail == xs;
      }
    }
  }

  /** `removeFile(index)`: exactly the file at `index` goes, the others keep their order; the error is cleared. */
  function RemoveFile(m: Modal, index: int): (r: Modal)
    ensures 0 <= index < |m.files| ==> r.files == m.files[..index] + m.files[index + 1..]
    ensures 0 <= index < |m.files| ==> |r.files| == |m.files| - 1
    ensures !(0 <= index < |m.files|) ==> r.files == m.files
    ensures r.error.None? && r.uploading == m.uploading
  {
    DropIndexSlices(m.files, index, 0);
    m.(files := DropIndex(m.files, index, 0), error := None)
  }

  /** The dialog after an upload attempt, the request it made of the client (if any), and whether `onSuccess` ran. */
  datatype Attempt = Attempt(modal: Modal, request: Option<UploadForm>, succeeded: bool)

  /**
    `handleUpload`: an empty list sets an error without calling the client; otherwise the
    whole list goes to the client with industry `fsi` and the use case or `credit_rating`.
    A returned value runs `onSuccess`; a thrown error shows its message, or a fallback when
    the message is empty. Uploading is over either way.
   */
  function HandleUpload<T>(m: Modal, useCase: Option<string>, x: Exchange<T>): (r: Attempt)
    ensures m.files == [] ==> r == Attempt(m.(error := Some(NothingToUpload)), None, false)
    ensures m.files != [] ==>
      && r.request == UploadDocuments(Some(m.files), Some("fsi"), Some(OrElse(useCase, "credit_rating")), x).request
      && r.modal.files == m.files && !r.modal.uploading
    ensures r.succeeded <==> m.files != [] && UploadDocuments(Some(m.files), Some("fsi"), Some(OrElse(useCase, "credit_rating")), x).outcome.Returned?
    ensures r.succeeded ==> r.modal.error.None?
    ensures !r.succeeded ==> r.modal.error.Some? && r.modal.error.value != ""
  {
    if m.files == [] then Attempt(m.(error := Some(NothingToUpload)), None, false)
    else
      var call := UploadDocuments(Some(m.files), Some("fsi"), Some(OrElse(useCase, "credit_rating")), x);
      match call.outcome
      case Returned(_) => Attempt(m.(uploading := false, error := None), call.request, true)
      case Thrown(msg) => Attempt(m.(uploading := false, error := Some(OrElse(Some(msg), UploadFailed))), call.request, false)
  }

  /** A single file is sent as `fsi` with the use case, or `credit_rating` when the use case is empty or absent. */
  lemma SingleFileRequest<T>(m: Modal, useCase: Option<string>, x: Exchange<T>)
    requires |m.files| == 1
    ensures HandleUpload(m, useCase, x).request == Some(UploadForm(m.files[0], "fsi", OrElse(useCase, "credit_rating")))
  {
  }

  /**
    The dialog accepts up to three files but the client takes only one: two or three
    files never reach the server and always end in the client's single-file error.
   */
  lemma SeveralFilesAlwaysFail<T>(chosen: seq<File>, useCase: Option<string>, x: Exchange<T>)
    requires 2 <= |chosen| <= MaxFiles
    ensures ChooseFiles(Initial(), chosen).error.None?
    ensures var r := HandleUpload(ChooseFiles(Initial(), chosen), useCase, x);
      r.request.None? && !r.succeeded && r.modal.error == Some(OneFileAtATime)
  {
  }

  // ---------------------------------------------------------------------------
  // File size label
  // ---------------------------------------------------------------------------

  /** `Math.round(n / d)`: the nearest integer, halves rounded up. */
  function RoundDiv(n: nat, d: nat): (q: nat)
    requires d > 0
    ensures 2 * d * q <= 2 * n + d < 2 * d * q + 2 * d
  {
    (2 * n + d) / (2 * d)
  }

  /** Rounding has exactly one answer. */
  lemma RoundDivUnique(n: nat, d: nat, q: nat)
    requires d > 0 && 2 * d * q <= 2 * n + d < 2 * d * q + 2 * d
    ensures q == RoundDiv(n, d)
  {
    var p := RoundDiv(n, d);
    assert 2 * d * q < 2 * d * (p + 1);
    assert 2 * d * p < 2 * d * (q + 1);
    MulCancel(2 * d, q, p + 1);
    MulCancel(2 * d, p, q + 1);
  }

  lemma MulCancel(a: nat, x: nat, y: nat)
    requires a > 0 && a * x < a * y
    ensures x < y
  {
    assert a * (y - x) == a * y - a * x;
  }

  /** `formatFileSize(bytes)`: whole bytes below 1 KiB, rounded KiB below 1 MiB, rounded MiB above. */
  function FormatFileSize(bytes: nat): (r: string)
    ensures bytes < 1024 ==> r == JsText.NatToString(bytes) + " bytes"
    ensures 1024 <= bytes < 1048576 ==> r == JsText.NatToString(RoundDiv(bytes, 1024)) + " KB"
    ensures bytes >= 1048576 ==> r == JsText.NatToString(RoundDiv(bytes, 1048576)) + " MB"
  {
    if bytes < 1024 then JsText.NatToString(bytes) + " bytes"
    else if bytes < 1048576 then JsText.NatToString((bytes + 512) / 1024) + " KB"
    else JsText.NatToString((bytes + 524288) / 1048576) + " MB"
  }

  /** The unit is chosen before rounding, so the last bytes below 1 MiB are labelled `1024 KB`. */
  lemma KilobyteLabelReaches1024()
    ensures FormatFileSize(1048575) == "1024 KB"
  {
    assert JsText.NatToString(1024) == "1024" by {
      assert JsText.NatToString(1) == "1";
      assert JsText.NatToString(10) == "10";
      assert JsText.NatToString(102) == "102";
    }
  }
}
