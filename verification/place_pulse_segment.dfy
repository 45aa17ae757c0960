/**
 * The Place Pulse segmentation run: the image entries of the Place Pulse zip are
 * segmented in superbatches of 50, and each superbatch's count rows (one row per
 * image, one column per class) are checkpointed into a single parquet table.
 */
module PlacePulseSegment {

  import opened Wrappers
  import Text
  import Frames
  import Segmentation

  const SUPERBATCH_SIZE: nat := 50

  /**
   * `is_relevant_file`: a zip entry is an image unless it is macOS metadata (its name
   * starts with `__`), a tab-separated score file, or the bare `images/` directory.
   */
  function IsRelevantFile(s: string): bool {
    if Segmentation.Slice(s, 0, 2) == "__" then false
    else if Text.Contains(s, ".tsv") then false
    else if s == "images/" then false
    else true
  }

  /** The three exclusions, with `s[:2] == "__"` read as a prefix test; everything else is relevant. */
  lemma RelevantIff(s: string)
    ensures IsRelevantFile(s) <==> !Text.StartsWith(s, "__") && !Text.Contains(s, ".tsv") && s != "images/"
  {
    if |s| < 2 {
      assert Segmentation.Slice(s, 0, 2) == s;
    } else {
      assert Segmentation.Slice(s, 0, 2) == s[..2];
    }
  }

  /** Every entry under a `__…` directory is skipped. */
  lemma MacMetadataIrrelevant(rest: string)
    ensures !IsRelevantFile("__" + rest)
  {
    assert ("__" + rest)[..2] == "__";
  }

  /** Every name with `.tsv` anywhere in it is skipped. */
  lemma TsvIrrelevant(a: string, b: string)
    ensures !IsRelevantFile(a + ".tsv" + b)
  {
    var s := a + ".tsv" + b;
    assert s[|a|..|a| + 4] == ".tsv";
    Text.ContainsAt(s, ".tsv", |a|);
  }

  /** A file in the `images/` directory is kept whenever its own name does not mention `.tsv`. */
  lemma ImageEntriesRelevant(name: string)
    requires name != [] && !Text.Contains(name, ".tsv")
    ensures IsRelevantFile("images/" + name)
  {
    var s := "images/" + name;
    assert s[..2] == "im";
    assert Segmentation.Slice(s, 0, 2) == "im";
    if Text.Contains(s, ".tsv") {
      Text.ContainsAfterPrefix("images/", name, ".tsv");
    }
    assert |s| > 7;
  }

  /**
   * The relevant entries of the zip's name list, collected into a set and then listed;
   * the listing order of a Python set is unspecified, so any order is admitted here.
   */
  method RelevantFilenames(namelist: seq<string>) returns (files: seq<string>)
    ensures forall f :: f in files <==> f in namelist && IsRelevantFile(f)
    ensures forall i, j :: 0 <= i < j < |files| ==> files[i] != files[j]
  {
    var relevant: set<string> := {};
    for k := 0 to |namelist|
      invariant forall f :: f in relevant <==> f in namelist[..k] && IsRelevantFile(f)
    {
      assert namelist[..k + 1] == namelist[..k] + [namelist[k]];
      if IsRelevantFile(namelist[k]) {
        relevant := relevant + {namelist[k]};
      }
    }
    assert namelist[..|namelist|] == namelist;
    files := [];
    var rest := relevant;
    while rest != {}
      invariant rest <= relevant
      invariant forall f :: f in relevant <==> f in files || f in rest
      invariant forall f :: f in files ==> f !in rest
      invariant forall i, j :: 0 <= i < j < |files| ==> files[i] != files[j]
      decreases |rest|
    {
      var f :| f in rest;
      files := files + [f];
      rest := rest - {f};
    }
  }

  /** The table of superbatch `sb`: one row per image of its window, the class names as columns. */
  function BatchFrame(files: seq<string>, names: seq<string>, segment: Segmentation.Segmenter, sb: nat): Segmentation.Frame {
    var w := Segmentation.Window(files, SUPERBATCH_SIZE, |files|, sb);
    Segmentation.Frame(w, names, Segmentation.Rows(w, |names|, segment))
  }

  /** The tables of the first `k` superbatches, in order. */
  function Batches(files: seq<string>, names: seq<string>, segment: Segmentation.Segmenter, k: nat): seq<Segmentation.Frame> {
    seq(k, sb requires 0 <= sb => BatchFrame(files, names, segment, sb))
  }

  /** How many times `while superbatch * 50 < n` runs its body. */
  function NumSuperbatches(n: nat): (k: nat)
    ensures n <= k * SUPERBATCH_SIZE
    ensures k > 0 ==> (k - 1) * SUPERBATCH_SIZE < n
  {
    (n + SUPERBATCH_SIZE - 1) / SUPERBATCH_SIZE
  }

  /** One superbatch's table: its file names, then one count row per file. */
  method SuperbatchFrame(files: seq<string>, names: seq<string>, segment: Segmentation.Segmenter, superbatch: nat)
    returns (frame: Segmentation.Frame)
    requires superbatch * SUPERBATCH_SIZE < |files|
    requires Segmentation.LabelsAreClasses(files, segment, |names|)
    ensures frame == BatchFrame(files, names, segment, superbatch)
    ensures frame.index != [] && forall row :: row in frame.values ==> |row| == |names|
  {
    var low := superbatch * SUPERBATCH_SIZE;
    var upper := Segmentation.Upper(SUPERBATCH_SIZE, |files|, superbatch);
    var filenames: seq<string> := [];
    for j := low to upper
      invariant filenames == files[low..j]
    {
      filenames := filenames + [files[j]];
    }
    var df: seq<seq<nat>> := [];
    for j := 0 to |filenames|
      invariant df == Segmentation.Rows(filenames[..j], |names|, segment)
    {
      var row := Segmentation.CountRow(segment(filenames[j]), |names|);
      assert filenames[..j + 1] == filenames[..j] + [filenames[j]];
      df := df + [row];
    }
    assert filenames[..|filenames|] == filenames;
    frame := Segmentation.Frame(filenames, names, df);
    assert frame == BatchFrame(files, names, segment, superbatch);
    assert forall f :: f in filenames ==> f in files;
    Segmentation.RowsWidth(filenames, segment, |names|);
    assert files[low] in filenames;
  }

  /**
   * The superbatch loop. Superbatch 0 writes a fresh table; each later one reads the
   * stored table back and writes it again with its own rows appended. With no
   * relevant files the loop never runs and the file is untouched.
   */
  method SegmentPlacePulse(files: seq<string>, names: seq<string>, segment: Segmentation.Segmenter, store: Segmentation.ParquetFile)
    requires Segmentation.LabelsAreClasses(files, segment, |names|)
    modifies store
    ensures store.stored == if files == [] then old(store.stored) else Some(Batches(files, names, segment, NumSuperbatches(|files|)))
  {
    var superbatch: nat := 0;
    while superbatch * SUPERBATCH_SIZE < |files|
      invariant superbatch <= NumSuperbatches(|files|)
      invariant store.stored == if superbatch == 0 then old(store.stored) else Some(Batches(files, names, segment, superbatch))
      decreases |files| - superbatch * SUPERBATCH_SIZE
    {
      var frame := SuperbatchFrame(files, names, segment, superbatch);
      assert Batches(files, names, segment, superbatch + 1) == Batches(files, names, segment, superbatch) + [frame];
      if superbatch == 0 {
        assert Batches(files, names, segment, 1) == [frame];
        store.ToParquet([frame]);
        superbatch := superbatch + 1;
        continue;
      }
      var prev := store.ReadParquet();
      assert prev == Success(Batches(files, names, segment, superbatch));
      store.ToParquet(prev.value + [frame]);
      superbatch := superbatch + 1;
    }
  }

  /**
   * The stored table holds every relevant file exactly once, in order: the row
   * indexes of the stored tables concatenate to the file list, each table carries
   * the class names as columns, and the rows concatenate to the files' count rows.
   */
  lemma StoredTableIsAllFiles(files: seq<string>, names: seq<string>, segment: Segmentation.Segmenter)
    ensures var bs := Batches(files, names, segment, NumSuperbatches(|files|));
      && Frames.Flatten(seq(|bs|, i requires 0 <= i < |bs| => bs[i].index)) == files
      && (forall i :: 0 <= i < |bs| ==> bs[i].columns == names)
      && Frames.Flatten(seq(|bs|, i requires 0 <= i < |bs| => bs[i].values)) == Segmentation.Rows(files, |names|, segment)
  {
    var n := |files|;
    var k := NumSuperbatches(n);
    var bs := Batches(files, names, segment, k);
    var ws := Segmentation.Windows(files, SUPERBATCH_SIZE, n, k);
    assert seq(|bs|, i requires 0 <= i < |bs| => bs[i].index) == ws;
    Segmentation.WindowsCover(files, SUPERBATCH_SIZE, k);
    if k > 0 {
      assert Segmentation.Upper(SUPERBATCH_SIZE, n, k - 1) == n;
    }
    assert Frames.Flatten(ws) == files;
    Segmentation.RowsFlatten(ws, |names|, segment);
    assert seq(|bs|, i requires 0 <= i < |bs| => bs[i].values) == seq(|ws|, i requires 0 <= i < |ws| => Segmentation.Rows(ws[i], |names|, segment));
  }
}
