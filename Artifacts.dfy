/** How the history screen classifies a task's `result_files`: the CSV and JSON download
    lists, their display names, and the preview buttons. */
module Artifacts {
  import opened Wrappers
  import opened JsStrings

  const CsvSuffix := ".csv"
  const JsonSuffix := ".json"

  /** `files.filter(file => file.endsWith(suffix))`. */
  function FilterBySuffix(files: seq<string>, suffix: string): (r: seq<string>)
    ensures |r| <= |files|
    ensures forall x :: x in r <==> x in files && EndsWith(x, suffix)
    decreases |files|
  {
    if files == [] then []
    else (if EndsWith(files[0], suffix) then [files[0]] else []) + FilterBySuffix(files[1..], suffix)
  }

  /** The CSV download card's paths. */
  function CsvFiles(files: seq<string>): (r: seq<string>)
    ensures forall x :: x in r <==> x in files && EndsWith(x, CsvSuffix)
  {
    FilterBySuffix(files, CsvSuffix)
  }

  /** The JSON download card's paths. */
  function JsonFiles(files: seq<string>): (r: seq<string>)
    ensures forall x :: x in r <==> x in files && EndsWith(x, JsonSuffix)
  {
    FilterBySuffix(files, JsonSuffix)
  }

  /** The positions `i >= from` whose path ends in `suffix`, in increasing order: the indices
      for which the `files.map((file, index) => ...)` that draws preview buttons returns one. */
  function SuffixIndices(files: seq<string>, suffix: string, from: nat): (r: seq<nat>)
    requires from <= |files|
    ensures forall k :: 0 <= k < |r| ==> from <= r[k] < |files| && EndsWith(files[r[k]], suffix)
    ensures forall k, l :: 0 <= k < l < |r| ==> r[k] < r[l]
    ensures forall i :: from <= i < |files| && EndsWith(files[i], suffix) ==> i in r
    decreases |files| - from
  {
    if from == |files| then []
    else (if EndsWith(files[from], suffix) then [from] else []) + SuffixIndices(files, suffix, from + 1)
  }

  /** The paths at the given positions, in that order. */
  function Pick(files: seq<string>, indices: seq<nat>): (r: seq<string>)
    requires forall k :: 0 <= k < |indices| ==> indices[k] < |files|
    ensures |r| == |indices|
    ensures forall k :: 0 <= k < |r| ==> r[k] == files[indices[k]]
  {
    if indices == [] then [] else [files[indices[0]]] + Pick(files, indices[1..])
  }

  /** Filtering keeps exactly the matching paths in their original order: it picks the
      matching positions, in increasing order. */
  lemma {:induction false} FilterPicksMatchingIndices(files: seq<string>, suffix: string, from: nat)
    requires from <= |files|
    ensures FilterBySuffix(files[from..], suffix) == Pick(files, SuffixIndices(files, suffix, from))
    decreases |files| - from
  {
    if from < |files| {
      FilterPicksMatchingIndices(files, suffix, from + 1);
      assert files[from..][1..] == files[from + 1..];
      var rest := SuffixIndices(files, suffix, from + 1);
      if EndsWith(files[from], suffix) {
        assert ([from] + rest)[1..] == rest;
      }
    }
  }

  /** No path ends in both `.csv` and `.json`. */
  lemma CsvAndJsonExclusive(path: string)
    ensures !(EndsWith(path, CsvSuffix) && EndsWith(path, JsonSuffix))
  {
    var n := |path|;
    if EndsWith(path, CsvSuffix) && n >= 5 {
      assert path[n - 4] == path[n - 4..][0] == '.';
      assert path[n - 5..][1] == path[n - 4] != JsonSuffix[1];
    }
  }

  /** The two download lists: exactly the `.csv` and `.json` entries; a path with neither
      suffix is in neither list, and no path is in both. */
  lemma DownloadListsPartition(files: seq<string>, path: string)
    ensures path in CsvFiles(files) <==> path in files && EndsWith(path, CsvSuffix)
    ensures path in JsonFiles(files) <==> path in files && EndsWith(path, JsonSuffix)
    ensures !(path in CsvFiles(files) && path in JsonFiles(files))
  {
    CsvAndJsonExclusive(path);
  }

  /** The worked example: one CSV, one JSON and a PDF that is listed nowhere. */
  lemma PartitionExample()
    ensures CsvFiles(["a/b.csv", "x.json", "y.pdf"]) == ["a/b.csv"]
    ensures JsonFiles(["a/b.csv", "x.json", "y.pdf"]) == ["x.json"]
  {
    assert !EndsWith("a/b.csv", JsonSuffix);
    assert !EndsWith("y.pdf", JsonSuffix);
    assert !EndsWith("x.json", CsvSuffix);
    assert !EndsWith("y.pdf", CsvSuffix);
  }

  /** `file.split('/').pop() || \`Table ${k + 1}${ext}\``: the last path segment, or a
      numbered fallback when that segment is empty. */
  function DisplayName(file: string, k: nat, ext: string): (r: string)
    ensures LastSegment(file, '/') != "" ==> r == LastSegment(file, '/')
    ensures LastSegment(file, '/') == "" ==> r == "Table " + NatToString(k + 1) + ext
  {
    var seg := LastSegment(file, '/');
    if seg != "" then seg else "Table " + NatToString(k + 1) + ext
  }

  /** The display name is the text after the last `/`, or the whole path when there is none;
      the fallback is taken only for a path ending in `/` (or an empty path). */
  lemma DisplayNameIsAfterLastSlash(file: string, k: nat, ext: string)
    ensures var seg := LastSegment(file, '/');
      |seg| <= |file| && seg == file[|file| - |seg|..] && '/' !in seg &&
      (|seg| < |file| ==> file[|file| - |seg| - 1] == '/')
    ensures DisplayName(file, k, ext) == "Table " + NatToString(k + 1) + ext
        <== file == [] || file[|file| - 1] == '/'
  {
    LastSegmentIsTail(file, '/');
  }

  /** A path that ends in a suffix whose last character is not `/` has a non-empty last
      segment, so its display name never falls back. */
  lemma MatchingPathNeverFallsBack(file: string, k: nat, ext: string)
    requires EndsWith(file, ext) && ext != [] && ext[|ext| - 1] != '/'
    ensures DisplayName(file, k, ext) == LastSegment(file, '/') != ""
  {
    LastSegmentIsTail(file, '/');
    assert file[|file| - |ext|..][|ext| - 1] == ext[|ext| - 1];
  }

  /** One row of a download card: the text shown and the path that is opened. */
  datatype DownloadEntry = DownloadEntry(name: string, path: string)

  /** The download card for one suffix: every matching path, named by its position `k`
      within the filtered list. */
  function DownloadEntries(files: seq<string>, ext: string): (r: seq<DownloadEntry>)
    ensures |r| == |FilterBySuffix(files, ext)|
    ensures forall k :: 0 <= k < |r| ==> r[k].path == FilterBySuffix(files, ext)[k]
    ensures forall k :: 0 <= k < |r| ==> r[k].name == DisplayName(r[k].path, k, ext)
  {
    var listed := FilterBySuffix(files, ext);
    seq(|listed|, k requires 0 <= k < |listed| => DownloadEntry(DisplayName(listed[k], k, ext), listed[k]))
  }

  /** Every entry on the CSV and JSON cards is named by its last path segment: the
      `Table {k}` fallback of those cards cannot be reached. */
  lemma DownloadNamesAreLastSegments(files: seq<string>, ext: string, k: nat)
    requires ext == CsvSuffix || ext == JsonSuffix
    requires k < |DownloadEntries(files, ext)|
    ensures DownloadEntries(files, ext)[k].name == LastSegment(DownloadEntries(files, ext)[k].path, '/')
  {
    var path := DownloadEntries(files, ext)[k].path;
    assert path in FilterBySuffix(files, ext);
    MatchingPathNeverFallsBack(path, k, ext);
  }

  /** One preview button: its text, the index it requests, and whether it is highlighted. */
  datatype PreviewButton = PreviewButton(text: string, fileIndex: nat, active: bool)

  /** The buttons of the preview tab: one per `.json` path, labelled by its position in
      `result_files` and highlighted when that position is the selected index. */
  function PreviewButtons(files: seq<string>, selected: Option<int>): (r: seq<PreviewButton>)
    ensures var indices := SuffixIndices(files, JsonSuffix, 0);
      |r| == |indices| &&
      forall k :: 0 <= k < |r| ==>
        r[k].fileIndex == indices[k] &&
        r[k].text == "Table " + NatToString(indices[k] + 1) &&
        r[k].active == (selected == Some(indices[k] as int))
  {
    var indices := SuffixIndices(files, JsonSuffix, 0);
    seq(|indices|, k requires 0 <= k < |indices| =>
      PreviewButton("Table " + NatToString(indices[k] + 1), indices[k], selected == Some(indices[k] as int)))
  }

  /** Buttons exist for exactly the `.json` positions of `result_files`. */
  lemma PreviewButtonsAreJsonPositions(files: seq<string>, selected: Option<int>, i: nat)
    requires i < |files|
    ensures var r := PreviewButtons(files, selected);
      EndsWith(files[i], JsonSuffix) <==> exists k :: 0 <= k < |r| && r[k].fileIndex == i
  {
    var r := PreviewButtons(files, selected);
    var indices := SuffixIndices(files, JsonSuffix, 0);
    if EndsWith(files[i], JsonSuffix) {
      var k :| 0 <= k < |indices| && indices[k] == i;
      assert r[k].fileIndex == i;
    }
  }

  /** The buttons come in increasing index order, with pairwise different texts. */
  lemma PreviewButtonsOrderedAndDistinct(files: seq<string>, selected: Option<int>, k: nat, l: nat)
    requires k < l < |PreviewButtons(files, selected)|
    ensures var r := PreviewButtons(files, selected);
      r[k].fileIndex < r[l].fileIndex < |files| && r[k].text != r[l].text
  {
    var indices := SuffixIndices(files, JsonSuffix, 0);
    PrefixedNumbersDiffer("Table ", indices[k] + 1, indices[l] + 1);
  }

  /** At most one button is highlighted. */
  lemma AtMostOneButtonActive(files: seq<string>, selected: Option<int>, k: nat, l: nat)
    requires k < |PreviewButtons(files, selected)| && l < |PreviewButtons(files, selected)|
    requires PreviewButtons(files, selected)[k].active && PreviewButtons(files, selected)[l].active
    ensures k == l
  {
  }

  /** Some button is highlighted exactly when the selected index is an in-range `.json`
      position. */
  lemma ButtonActiveIffJsonSelected(files: seq<string>, selected: Option<int>)
    ensures (exists k :: 0 <= k < |PreviewButtons(files, selected)| && PreviewButtons(files, selected)[k].active)
        <==> selected.Some? && 0 <= selected.value < |files| && EndsWith(files[selected.value], JsonSuffix)
  {
    var indices := SuffixIndices(files, JsonSuffix, 0);
    if selected.Some? && 0 <= selected.value < |files| && EndsWith(files[selected.value], JsonSuffix) {
      var i: nat := selected.value;
      var k :| 0 <= k < |indices| && indices[k] == i;
      assert PreviewButtons(files, selected)[k].active;
    }
  }

  /** The preview buttons request the same `.json` paths as the JSON download card lists,
      in the same order. */
  lemma PreviewButtonsMatchJsonCard(files: seq<string>, selected: Option<int>)
    ensures var r := PreviewButtons(files, selected);
      |r| == |JsonFiles(files)| &&
      forall k :: 0 <= k < |r| ==> r[k].fileIndex < |files| && files[r[k].fileIndex] == JsonFiles(files)[k]
  {
    FilterPicksMatchingIndices(files, JsonSuffix, 0);
    assert files[0..] == files;
  }
}
