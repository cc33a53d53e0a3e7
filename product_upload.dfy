/** ProductUpload.js: the file picker's 5 MB filter and the multipart form
    that the upload button sends. */
module ProductUpload {
  import opened Base

  /** A picked file: its name and its size in bytes. */
  datatype File = File(name: string, size: nat)

  const MaxFileSize: nat := 5 * 1024 * 1024

  predicate SmallEnough(f: File) {
    f.size <= MaxFileSize
  }

  /** `handleFileChange`: the files that are small enough, and whether the
      "Some files are too large" alert is raised. */
  function HandleFileChange(selected: seq<File>): (r: (seq<File>, bool))
    ensures forall f :: f in r.0 <==> f in selected && SmallEnough(f)
    ensures r.1 <==> exists i :: 0 <= i < |selected| && !SmallEnough(selected[i])
    ensures !r.1 ==> r.0 == selected
  {
    var kept := Filter(selected, SmallEnough);
    FilterKeepsAll(selected, SmallEnough);
    (kept, |kept| != |selected|)
  }

  /** The kept files keep their selection order. */
  lemma KeptInSelectionOrder(a: seq<File>, b: seq<File>)
    ensures HandleFileChange(a + b).0 == HandleFileChange(a).0 + HandleFileChange(b).0
  {
    FilterAppend(a, b, SmallEnough);
  }

  /** A `FormData` entry: a text field or an attached file. */
  datatype FormValue = Text(text: string) | Attached(file: File)
  datatype FormEntry = FormEntry(key: string, value: FormValue)

  /** `handleUpload`: no form (and no request) without files; otherwise the
      name, the price and one "images" entry per file, in order. */
  method HandleUpload(name: string, price: string, files: seq<File>) returns (form: Option<seq<FormEntry>>)
    ensures form.None? <==> files == []
    ensures form.Some? ==>
      |form.value| == 2 + |files| &&
      form.value[0] == FormEntry("name", Text(name)) && form.value[1] == FormEntry("price", Text(price)) &&
      forall i :: 0 <= i < |files| ==> form.value[2 + i] == FormEntry("images", Attached(files[i]))
  {
    if |files| == 0 {
      return None;
    }
    var entries := [FormEntry("name", Text(name)), FormEntry("price", Text(price))];
    var i := 0;
    while i < |files|
      invariant 0 <= i <= |files|
      invariant |entries| == 2 + i
      invariant entries[0] == FormEntry("name", Text(name)) && entries[1] == FormEntry("price", Text(price))
      invariant forall j :: 0 <= j < i ==> entries[2 + j] == FormEntry("images", Attached(files[j]))
    {
      entries := entries + [FormEntry("images", Attached(files[i]))];
      i := i + 1;
    }
    form := Some(entries);
  }
}
