/**
  The list of previously uploaded files with a checkbox each: the set of
  checked file names, the size label, and the rule that an empty list renders
  nothing.
 */
module DocumentList {
  import opened JsValue
  import JsText
  import UploadModal

  /** An uploaded file as the list shows it. */
  datatype Uploaded = Uploaded(filename: string, size: nat)

  /** `handleToggleSelect(filename)`: the file name's membership flips, every other stays. */
  function ToggleSelect(selected: set<string>, filename: string): (r: set<string>)
    ensures filename in r <==> filename !in selected
    ensures forall f :: f != filename ==> (f in r <==> f in selected)
  {
    if filename in selected then selected - {filename} else selected + {filename}
  }

  /** Toggling the same file name twice gives the selection back. */
  lemma ToggleTwice(selected: set<string>, filename: string)
    ensures ToggleSelect(ToggleSelect(selected, filename), filename) == selected
  {
  }

  /** `formatFileSize(bytes)`: whole bytes below 1 KiB, otherwise the kibibytes rounded to a whole number. */
  function FormatFileSize(bytes: nat): (r: string)
    ensures bytes < 1024 ==> r == JsText.NatToString(bytes) + " B"
    ensures bytes >= 1024 ==> r == JsText.NatToString(UploadModal.RoundDiv(bytes, 1024)) + " KB"
  {
    if bytes < 1024 then JsText.NatToString(bytes) + " B"
    else JsText.NatToString((bytes + 512) / 1024) + " KB"
  }

  /** One rendered row: the file name, whether its box is checked, and its size label. */
  datatype Row = Row(filename: string, checked: bool, size: string)

  /** The rendered list: nothing at all for no documents, else one row per document in order. */
  function Render(documents: seq<Uploaded>, selected: set<string>): (r: Option<seq<Row>>)
    ensures documents == [] <==> r.None?
    ensures r.Some? ==> |r.value| == |documents|
    ensures r.Some? ==> forall i :: 0 <= i < |documents| ==>
      && r.value[i].filename == documents[i].filename
      && (r.value[i].checked <==> documents[i].filename in selected)
      && r.value[i].size == FormatFileSize(documents[i].size)
  {
    if documents == [] then None else Some(Rows(documents, selected))
  }

  function Rows(documents: seq<Uploaded>, selected: set<string>): (rows: seq<Row>)
    ensures |rows| == |documents|
    ensures forall i :: 0 <= i < |documents| ==>
      rows[i] == Row(documents[i].filename, documents[i].filename in selected, FormatFileSize(documents[i].size))
  {
    if documents == [] then []
    else [Row(documents[0].filename, documents[0].filename in selected, FormatFileSize(documents[0].size))]
         + Rows(documents[1..], selected)
  }

  /** Toggling a file re-renders exactly that file's rows with the opposite check mark. */
  lemma ToggleFlipsOnlyItsRows(documents: seq<Uploaded>, selected: set<string>, filename: string, i: nat)
    requires i < |documents| && documents != []
    ensures var before := Render(documents, selected).value[i];
      var after := Render(documents, ToggleSelect(selected, filename)).value[i];
      (documents[i].filename == filename ==> after.checked != before.checked)
      && (documents[i].filename != filename ==> after == before)
  {
  }
}
