/**
  The document sidebar's pure helpers: the display name without its extension,
  the connector a stored source path came from, the file-type icon, and the
  "Select All" checkbox state.
 */
module DocumentSidebar {
  import opened JsValue
  import JsText
  import DocumentsClient

  // ---------------------------------------------------------------------------
  // formatDocumentName
  // ---------------------------------------------------------------------------

  /** A final extension starts at `p`: a `.` followed by at least one character, none of them `.` or `/`. */
  predicate IsExtensionAt(name: string, p: int) {
    && 0 <= p < |name| - 1
    && name[p] == '.'
    && forall k :: p < k < |name| ==> name[k] != '.' && name[k] != '/'
  }

  /** How many characters at the end of `s` are neither `.` nor `/`. */
  function TrailingRun(s: string): (n: nat)
    ensures n <= |s|
    ensures forall k :: |s| - n <= k < |s| ==> s[k] != '.' && s[k] != '/'
    ensures n < |s| ==> s[|s| - n - 1] == '.' || s[|s| - n - 1] == '/'
  {
    if s == [] || s[|s| - 1] == '.' || s[|s| - 1] == '/' then 0
    else
      var n := TrailingRun(s[..|s| - 1]);
      assert forall k :: |s| - 1 - n <= k < |s| - 1 ==> s[k] == s[..|s| - 1][k];
      n + 1
  }

  /**
    `name.replace(/\.[^/.]+$/, "")`: a final extension, when there is one, is removed
    (there is at most one place it can start); otherwise the name is unchanged.
   */
  function FormatDocumentName(name: string): (r: string)
    ensures forall p :: IsExtensionAt(name, p) ==> r == name[..p]
    ensures (forall p :: !IsExtensionAt(name, p)) ==> r == name
  {
    var n := TrailingRun(name);
    var p := |name| - n - 1;
    if 1 <= n < |name| && name[p] == '.' then
      assert IsExtensionAt(name, p);
      assert forall q :: IsExtensionAt(name, q) ==> q == p;
      name[..p]
    else
      assert forall q :: !IsExtensionAt(name, q) by {
        forall q | 0 <= q < |name| - 1 && name[q] == '.'
          ensures exists k :: q < k < |name| && (name[k] == '.' || name[k] == '/')
        {
          var k := if n == 0 then |name| - 1 else p;
          assert q < k < |name| && (name[k] == '.' || name[k] == '/');
        }
      }
      name
  }

  /** Only the last extension goes: `a.tar.gz` is shown as `a.tar`; a dot inside a directory name is kept. */
  lemma FormatDocumentNameExamples()
    ensures FormatDocumentName("a.tar.gz") == "a.tar"
    ensures FormatDocumentName("report") == "report"
    ensures FormatDocumentName("v1.2/notes") == "v1.2/notes"
    ensures FormatDocumentName("draft.") == "draft."
  {
    assert IsExtensionAt("a.tar.gz", 5);
    assert "a.tar.gz"[..5] == "a.tar";
    assert !IsExtensionAt("v1.2/notes", 2) by { assert "v1.2/notes"[4] == '/'; }
  }

  // ---------------------------------------------------------------------------
  // getSourceName
  // ---------------------------------------------------------------------------

  /** `getSourceName(sourcePath)`: the first of the three path markers the path contains. */
  function GetSourceName(sourcePath: string): (name: string)
    ensures JsText.Contains(sourcePath, "@local@") ==> name == "local"
    ensures !JsText.Contains(sourcePath, "@local@") && JsText.Contains(sourcePath, "@s3@") ==> name == "s3"
    ensures (!JsText.Contains(sourcePath, "@local@") && !JsText.Contains(sourcePath, "@s3@")
             && JsText.Contains(sourcePath, "@gdrive@")) ==> name == "google drive"
    ensures name == "unknown" <==>
      !JsText.Contains(sourcePath, "@local@") && !JsText.Contains(sourcePath, "@s3@") && !JsText.Contains(sourcePath, "@gdrive@")
  {
    if JsText.Contains(sourcePath, "@local@") then "local"
    else if JsText.Contains(sourcePath, "@s3@") then "s3"
    else if JsText.Contains(sourcePath, "@gdrive@") then "google drive"
    else "unknown"
  }

  /** The connector name shown for each ingestion selector. */
  function KindName(selector: string): string {
    if selector == "@local" then "local"
    else if selector == "@s3" then "s3"
    else if selector == "@gdrive" then "google drive"
    else "unknown"
  }

  /** A text with `@` at both ends of a gap of `g` is not inside a string with no two `@` that far apart. */
  lemma NoAtPair(s: string, sub: string, g: nat)
    requires g < |sub| && sub[0] == '@' && sub[g] == '@'
    requires forall i :: 0 <= i < |s| - g ==> !(s[i] == '@' && s[i + g] == '@')
    ensures !JsText.Contains(s, sub)
  {
    forall i | 0 <= i <= |s| ensures !(sub <= s[i..]) {
      if i + g < |s| {
        assert s[i..][0] == s[i] && s[i..][g] == s[i + g];
      }
    }
  }

  /** After a literal prefix, a tail without `@` adds no `@`. */
  lemma AtOnlyInPrefix(prefix: string, tail: string)
    requires '@' !in tail
    ensures forall k :: |prefix| <= k < |prefix + tail| ==> (prefix + tail)[k] != '@'
  {
    forall k | |prefix| <= k < |prefix + tail| ensures (prefix + tail)[k] != '@' {
      assert (prefix + tail)[k] == tail[k - |prefix|];
    }
  }

  /**
    For an industry and a use case without `@`, the sidebar names the connector of
    every path the ingestion client builds.
   */
  lemma GetSourceNameRecoversKind(selector: string, industry: string, useCase: string)
    requires DocumentsClient.IsSelector(selector)
    requires '@' !in industry && '@' !in useCase
    ensures GetSourceName(DocumentsClient.SourcePath(selector, industry, useCase).value) == KindName(selector)
  {
    var tail := industry + "/" + useCase;
    assert '@' !in tail by {
      forall k | 0 <= k < |tail| ensures tail[k] != '@' {
        if k < |industry| { assert tail[k] == industry[k]; }
        else if k > |industry| { assert tail[k] == useCase[k - |industry| - 1]; }
      }
    }
    if selector == "@local" {
      var path := "@local@/docs/" + tail;
      assert DocumentsClient.SourcePath(selector, industry, useCase).value == path;
      JsText.ContainsAt(path, "@local@", 0);
    } else if selector == "@s3" {
      var path := "@s3@" + tail;
      assert DocumentsClient.SourcePath(selector, industry, useCase).value == path;
      AtOnlyInPrefix("@s3@", tail);
      NoAtPair(path, "@local@", 6);
      JsText.ContainsAt(path, "@s3@", 0);
    } else {
      var path := "@gdrive@" + tail;
      assert DocumentsClient.SourcePath(selector, industry, useCase).value == path;
      AtOnlyInPrefix("@gdrive@", tail);
      NoAtPair(path, "@local@", 6);
      NoAtPair(path, "@s3@", 3);
      JsText.ContainsAt(path, "@gdrive@", 0);
    }
  }

  // ---------------------------------------------------------------------------
  // getFileIcon
  // ---------------------------------------------------------------------------

  const PdfIcon: string := "/PDF_file_icon.png"
  const DocIcon: string := "/DOC_or_DOCX_file_icon.png"

  /** `getFileIcon(extension)`: PDF and Word files have icons, nothing else does. */
  function GetFileIcon(extension: string): (icon: Option<string>)
    ensures icon == Some(PdfIcon) <==> extension == "pdf"
    ensures icon == Some(DocIcon) <==> extension == "doc" || extension == "docx"
    ensures icon.None? <==> extension != "pdf" && extension != "doc" && extension != "docx"
  {
    if extension == "pdf" then Some(PdfIcon)
    else if extension == "doc" || extension == "docx" then Some(DocIcon)
    else None
  }

  // ---------------------------------------------------------------------------
  // Select All
  // ---------------------------------------------------------------------------

  /** `allSelected`: as many chosen ids as listed documents, and at least one document. */
  predicate AllSelected(documentCount: nat, selectedCount: nat) {
    documentCount > 0 && selectedCount == documentCount
  }

  /** `someSelected` (the indeterminate state): some, but fewer than all. */
  predicate SomeSelected(documentCount: nat, selectedCount: nat) {
    selectedCount > 0 && selectedCount < documentCount
  }

  /** The checkbox is never both checked and indeterminate, and with no documents it is neither. */
  lemma SelectAllStatesExclusive(documentCount: nat, selectedCount: nat)
    ensures !(AllSelected(documentCount, selectedCount) && SomeSelected(documentCount, selectedCount))
    ensures documentCount == 0 ==> !AllSelected(documentCount, selectedCount) && !SomeSelected(documentCount, selectedCount)
  {
  }

  /**
    `handleSelectAllClick`: asks the parent to select all when not all are selected,
    and to deselect all otherwise; without an `onSelectAll` callback nothing happens.
   */
  function HandleSelectAllClick(hasOnSelectAll: bool, documentCount: nat, selectedCount: nat): (request: Option<bool>)
    ensures request.Some? <==> hasOnSelectAll
    ensures request.Some? ==> (request.value <==> !AllSelected(documentCount, selectedCount))
  {
    if hasOnSelectAll then Some(!AllSelected(documentCount, selectedCount)) else None
  }

  /**
    The checkbox compares counts only: a chosen id that is no longer listed makes it
    read "all selected" while a listed document is not chosen.
   */
  lemma AllSelectedCountsStaleIds()
    ensures var listed := ["d1", "d2"];
            var chosen := ["d1", "gone"];
            AllSelected(|listed|, |chosen|) && "d2" !in chosen
  {
  }
}
