/**
  The drop zone for new documents: dropped files are narrowed to PDFs, picked
  files are taken as they are, and a highlight follows the drag.
 */
module DocumentUpload {
  import opened JsValue
  import opened UploadClient

  const PdfType := "application/pdf"

  /** `files.filter(file => file.type === 'application/pdf')`. */
  function OnlyPdfs(files: seq<File>): (r: seq<File>)
    ensures |r| <= |files|
    ensures forall f :: f in r <==> f in files && f.mimeType == PdfType
    decreases |files|
  {
    if files == [] then []
    else if files[0].mimeType == PdfType then [files[0]] + OnlyPdfs(files[1..])
    else OnlyPdfs(files[1..])
  }

  /** Files appended after others keep their place: filtering is an in-order image. */
  lemma {:induction false} OnlyPdfsAppend(a: seq<File>, b: seq<File>)
    ensures OnlyPdfs(a + b) == OnlyPdfs(a) + OnlyPdfs(b)
  {
    if a == [] {
      assert a + b == b;
    } else {
      assert (a + b)[0] == a[0];
      assert (a + b)[1..] == a[1..] + b;
      OnlyPdfsAppend(a[1..], b);
    }
  }

  /** A drop of nothing but PDFs is passed on unchanged, in order. */
  lemma {:induction false} AllPdfsKept(files: seq<File>)
    requires forall i :: 0 <= i < |files| ==> files[i].mimeType == PdfType
    ensures OnlyPdfs(files) == files
  {
    if files != [] {
      AllPdfsKept(files[1..]);
      assert [files[0]] + files[1..] == files;
    }
  }

  /** The zone's state: whether a drag is over it. */
  datatype Zone = Zone(dragging: bool)

  /** What a handler did: the new zone state and the files handed to `onUpload`, if it was called. */
  datatype Handled = Handled(zone: Zone, uploaded: Option<seq<File>>)

  /** `handleDragOver`: the highlight goes on. */
  function DragOver(z: Zone): Handled {
    Handled(Zone(true), None)
  }

  /** `handleDragLeave`: the highlight goes off. */
  function DragLeave(z: Zone): Handled {
    Handled(Zone(false), None)
  }

  /** `handleDrop`: the highlight goes off and the PDFs among the files, if any, go to `onUpload`. */
  function Drop(z: Zone, files: seq<File>): (r: Handled)
    ensures !r.zone.dragging
    ensures r.uploaded.Some? <==> exists f :: f in files && f.mimeType == PdfType
    ensures r.uploaded.Some? ==> r.uploaded.value == OnlyPdfs(files) && r.uploaded.value != []
  {
    var pdfs := OnlyPdfs(files);
    if |pdfs| > 0 then
      assert pdfs[0] in pdfs;
      Handled(Zone(false), Some(pdfs))
    else
      assert forall f :: f in files ==> f.mimeType != PdfType;
      Handled(Zone(false), None)
  }

  /**
    The highlight follows the drag: entering turns it on, and leaving or dropping turns
    it off again, whatever the zone showed before. Only a drop can upload anything.
   */
  lemma HighlightFollowsDrag(z: Zone, files: seq<File>)
    ensures DragOver(z).zone.dragging && DragOver(z).uploaded.None?
    ensures !DragLeave(DragOver(z).zone).zone.dragging && DragLeave(DragOver(z).zone).uploaded.None?
    ensures !Drop(DragOver(z).zone, files).zone.dragging
    ensures DragLeave(z).zone == Drop(z, files).zone
  {
  }

  /** `handleFileSelect`: picked files are not filtered; any non-empty pick goes to `onUpload`. */
  function Pick(z: Zone, files: seq<File>): (r: Handled)
    ensures r.zone == z
    ensures r.uploaded.Some? <==> files != []
    ensures r.uploaded.Some? ==> r.uploaded.value == files
  {
    if |files| > 0 then Handled(z, Some(files)) else Handled(z, None)
  }

  /** The picker and the drop disagree on non-PDF files: a picked Word file is uploaded, a dropped one is not. */
  lemma PickerAcceptsWhatDropRefuses(z: Zone, f: File)
    requires f.mimeType != PdfType
    ensures Pick(z, [f]).uploaded == Some([f])
    ensures Drop(z, [f]).uploaded.None?
  {
  }
}
