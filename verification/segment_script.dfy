/**
 * The Street View segmentation run: ten superbatches of at most 2500 images from the
 * image directory, each turned into a class-by-image count table that is appended to
 * the stored parquet table.
 */
module SegmentScript {

  import opened Wrappers
  import Frames
  import Segmentation

  const SUPERBATCH_SIZE: nat := 2500
  const SUPERBATCH_N: nat := 10

  /** `np.array(df).T`: the rows of equal width `width` become columns. */
  function Transpose(rows: seq<seq<nat>>, width: nat): (t: seq<seq<nat>>)
    requires forall r :: r in rows ==> |r| == width
    ensures |t| == width
    ensures forall i :: 0 <= i < width ==> |t[i]| == |rows|
    ensures forall i, j :: 0 <= i < width && 0 <= j < |rows| ==> t[i][j] == rows[j][i]
  {
    seq(width, i requires 0 <= i < width => seq(|rows|, j requires 0 <= j < |rows| => rows[j][i]))
  }

  /** Transposing twice gives the rows back: the class-by-image table holds the same counts. */
  lemma TransposeTwice(rows: seq<seq<nat>>, width: nat)
    requires forall r :: r in rows ==> |r| == width
    ensures Transpose(Transpose(rows, width), |rows|) == rows
  {
    var t := Transpose(rows, width);
    var back := Transpose(t, |rows|);
    forall j | 0 <= j < |rows|
      ensures back[j] == rows[j]
    {
      assert rows[j] in rows;
    }
  }

  /** The table of one superbatch: class names index the rows, the image names label the columns. */
  function ClassFrame(window: seq<string>, names: seq<string>, segment: Segmentation.Segmenter): Segmentation.Frame
    requires Segmentation.LabelsAreClasses(window, segment, |names|)
  {
    Segmentation.RowsWidth(window, segment, |names|);
    Segmentation.Frame(names, window, Transpose(Segmentation.Rows(window, |names|, segment), |names|))
  }

  /**
   * The images of superbatch `sb` as written: the directory listing sliced at
   * `sb * 2500` and `min((sb + 1) * 2500, cwdCount)`, where `cwdCount` is the number
   * of entries in the working directory rather than in the image directory.
   */
  function ScriptWindow(images: seq<string>, cwdCount: nat, sb: nat): (w: seq<string>)
    ensures forall x :: x in w ==> x in images
  {
    Segmentation.Window(images, SUPERBATCH_SIZE, cwdCount, sb)
  }

  const EMPTY_STACK := "RuntimeError: stack expects a non-empty TensorList"

  /**
   * Superbatches `sb` to 9 as written, from the stored table `stored`: the outcome and
   * the stored table afterwards. An empty window stops the run (stacking no images
   * raises); superbatch 0 builds its table and drops it; a later superbatch fails when
   * there is no stored table to read back.
   */
  function Run(images: seq<string>, cwdCount: nat, names: seq<string>, segment: Segmentation.Segmenter,
               sb: nat, stored: Option<seq<Segmentation.Frame>>): (Result<()>, Option<seq<Segmentation.Frame>>)
    requires Segmentation.LabelsAreClasses(images, segment, |names|)
    decreases SUPERBATCH_N - sb
  {
    if sb >= SUPERBATCH_N then (Success(()), stored)
    else
      var w := ScriptWindow(images, cwdCount, sb);
      if w == [] then (Failure(EMPTY_STACK), stored)
      else if sb == 0 then Run(images, cwdCount, names, segment, sb + 1, stored)
      else if stored.None? then (Failure(Segmentation.NOT_FOUND), stored)
      else Run(images, cwdCount, names, segment, sb + 1, Some(stored.value + [ClassFrame(w, names, segment)]))
  }

  /** One superbatch's images through the network: their count rows, transposed into a class-by-image table. */
  method ClassTable(window: seq<string>, names: seq<string>, segment: Segmentation.Segmenter) returns (table: Segmentation.Frame)
    requires Segmentation.LabelsAreClasses(window, segment, |names|)
    ensures table == ClassFrame(window, names, segment)
  {
    var df: seq<seq<nat>> := [];
    for j := 0 to |window|
      invariant df == Segmentation.Rows(window[..j], |names|, segment)
    {
      var row := Segmentation.CountRow(segment(window[j]), |names|);
      assert window[..j + 1] == window[..j] + [window[j]];
      df := df + [row];
    }
    assert window[..|window|] == window;
    Segmentation.RowsWidth(window, segment, |names|);
    table := Segmentation.Frame(names, window, Transpose(df, |names|));
  }

  /** The superbatch loop as written. */
  method SegmentStreetview(images: seq<string>, cwdCount: nat, names: seq<string>, segment: Segmentation.Segmenter,
                           store: Segmentation.ParquetFile) returns (r: Result<()>)
    requires Segmentation.LabelsAreClasses(images, segment, |names|)
    modifies store
    ensures (r, store.stored) == Run(images, cwdCount, names, segment, 0, old(store.stored))
  {
    for superbatch := 0 to SUPERBATCH_N
      invariant Run(images, cwdCount, names, segment, superbatch, store.stored) == Run(images, cwdCount, names, segment, 0, old(store.stored))
    {
      var window := ScriptWindow(images, cwdCount, superbatch);
      ghost var saved := store.stored;
      var filenames: seq<string> := [];
      for j := 0 to |window|
        invariant filenames == window[..j]
        invariant store.stored == saved
      {
        filenames := filenames + [window[j]];
      }
      assert filenames == window;
      if filenames == [] {
        return Failure(EMPTY_STACK);
      }
      var table := ClassTable(filenames, names, segment);
      if superbatch == 0 {
        continue;
      }
      var prev := store.ReadParquet();
      if prev.Failure? {
        return Failure(prev.error);
      }
      store.ToParquet(prev.value + [table]);
    }
    r := Success(());
  }

  /** The tables of superbatches `sb` to 9, in order. */
  function LaterFrames(images: seq<string>, cwdCount: nat, names: seq<string>, segment: Segmentation.Segmenter, sb: nat): seq<Segmentation.Frame>
    requires Segmentation.LabelsAreClasses(images, segment, |names|)
    requires sb <= SUPERBATCH_N
  {
    seq(SUPERBATCH_N - sb, t requires 0 <= t => ClassFrame(ScriptWindow(images, cwdCount, sb + t), names, segment))
  }

  /** From superbatch `sb >= 1` on, the run succeeds exactly when no remaining window is empty and a table is stored. */
  lemma {:induction false} RunFromOutcome(images: seq<string>, cwdCount: nat, names: seq<string>, segment: Segmentation.Segmenter,
                                          sb: nat, stored: Option<seq<Segmentation.Frame>>)
    requires Segmentation.LabelsAreClasses(images, segment, |names|)
    requires 1 <= sb <= SUPERBATCH_N
    decreases SUPERBATCH_N - sb
    ensures Run(images, cwdCount, names, segment, sb, stored).0.Success?
            <==> (sb == SUPERBATCH_N || stored.Some?) && forall t :: sb <= t < SUPERBATCH_N ==> ScriptWindow(images, cwdCount, t) != []
  {
    if sb < SUPERBATCH_N {
      var w := ScriptWindow(images, cwdCount, sb);
      if w != [] && stored.Some? {
        var next := Some(stored.value + [ClassFrame(w, names, segment)]);
        assert Run(images, cwdCount, names, segment, sb, stored) == Run(images, cwdCount, names, segment, sb + 1, next);
        RunFromOutcome(images, cwdCount, names, segment, sb + 1, next);
      }
    }
  }

  /** A successful run from superbatch `sb >= 1` appends the remaining superbatches' tables, in order. */
  lemma {:induction false} RunFromStored(images: seq<string>, cwdCount: nat, names: seq<string>, segment: Segmentation.Segmenter,
                                         sb: nat, stored: Option<seq<Segmentation.Frame>>)
    requires Segmentation.LabelsAreClasses(images, segment, |names|)
    requires 1 <= sb <= SUPERBATCH_N
    requires Run(images, cwdCount, names, segment, sb, stored).0.Success? && stored.Some?
    decreases SUPERBATCH_N - sb
    ensures Run(images, cwdCount, names, segment, sb, stored).1 == Some(stored.value + LaterFrames(images, cwdCount, names, segment, sb))
  {
    if sb < SUPERBATCH_N {
      var w := ScriptWindow(images, cwdCount, sb);
      var next := Some(stored.value + [ClassFrame(w, names, segment)]);
      assert Run(images, cwdCount, names, segment, sb, stored) == Run(images, cwdCount, names, segment, sb + 1, next);
      RunFromStored(images, cwdCount, names, segment, sb + 1, next);
      LaterFramesCons(images, cwdCount, names, segment, sb);
      ConsAssoc(stored.value, ClassFrame(w, names, segment), LaterFrames(images, cwdCount, names, segment, sb + 1));
    } else {
      assert stored.value + LaterFrames(images, cwdCount, names, segment, sb) == stored.value;
    }
  }

  lemma LaterFramesCons(images: seq<string>, cwdCount: nat, names: seq<string>, segment: Segmentation.Segmenter, sb: nat)
    requires Segmentation.LabelsAreClasses(images, segment, |names|)
    requires sb < SUPERBATCH_N
    ensures LaterFrames(images, cwdCount, names, segment, sb)
            == [ClassFrame(ScriptWindow(images, cwdCount, sb), names, segment)] + LaterFrames(images, cwdCount, names, segment, sb + 1)
  {
  }

  lemma ConsAssoc<T>(a: seq<T>, x: T, b: seq<T>)
    ensures (a + [x]) + b == a + ([x] + b)
  {
  }

  /**
   * From superbatch `sb >= 1` on, the run succeeds exactly when no remaining window is
   * empty and (unless nothing remains) a stored table exists; it then appends the
   * remaining superbatches' tables, in order.
   */
  lemma RunFrom(images: seq<string>, cwdCount: nat, names: seq<string>, segment: Segmentation.Segmenter,
                sb: nat, stored: Option<seq<Segmentation.Frame>>)
    requires Segmentation.LabelsAreClasses(images, segment, |names|)
    requires 1 <= sb <= SUPERBATCH_N
    ensures var (r, after) := Run(images, cwdCount, names, segment, sb, stored);
      && (r.Success? <==> (sb == SUPERBATCH_N || stored.Some?) && forall t :: sb <= t < SUPERBATCH_N ==> ScriptWindow(images, cwdCount, t) != [])
      && (r.Success? && stored.Some? ==> after == Some(stored.value + LaterFrames(images, cwdCount, names, segment, sb)))
  {
    RunFromOutcome(images, cwdCount, names, segment, sb, stored);
    if Run(images, cwdCount, names, segment, sb, stored).0.Success? && stored.Some? {
      RunFromStored(images, cwdCount, names, segment, sb, stored);
    }
  }

  /**
   * As written, a run succeeds exactly when a stored table already exists and none of
   * the ten windows is empty; it then appends the tables of superbatches 1 to 9 only,
   * so the images of superbatch 0 never reach the stored table.
   */
  lemma AsWrittenOutcome(images: seq<string>, cwdCount: nat, names: seq<string>, segment: Segmentation.Segmenter,
                         stored: Option<seq<Segmentation.Frame>>)
    requires Segmentation.LabelsAreClasses(images, segment, |names|)
    ensures var (r, after) := Run(images, cwdCount, names, segment, 0, stored);
      && (r.Success? <==> stored.Some? && forall t :: 0 <= t < SUPERBATCH_N ==> ScriptWindow(images, cwdCount, t) != [])
      && (r.Success? ==> after == Some(stored.value + LaterFrames(images, cwdCount, names, segment, 1)))
  {
    RunFrom(images, cwdCount, names, segment, 1, stored);
  }

  /**
   * From a fresh start (no stored table), a run whose first two windows hold images
   * fails at superbatch 1 reading back a table nobody wrote, and writes nothing.
   */
  lemma FreshRunFails(images: seq<string>, cwdCount: nat, names: seq<string>, segment: Segmentation.Segmenter)
    requires Segmentation.LabelsAreClasses(images, segment, |names|)
    requires ScriptWindow(images, cwdCount, 0) != [] && ScriptWindow(images, cwdCount, 1) != []
    ensures Run(images, cwdCount, names, segment, 0, None) == (Failure(Segmentation.NOT_FOUND), None)
  {
  }

  /**
   * A class-by-image table whose transpose is the count rows of its columns' images:
   * cell `(c, f)` is the number of pixels of image `f` labelled `c`.
   */
  predicate IsTableOf(table: Segmentation.Frame, segment: Segmentation.Segmenter) {
    && (forall r :: r in table.values ==> |r| == |table.columns|)
    && Transpose(table.values, |table.columns|) == Segmentation.Rows(table.columns, |table.index|, segment)
  }

  /** How many superbatches the corrected loop runs: at most ten, and none past the last image. */
  function IntendedCount(n: nat): (k: nat)
    ensures k <= SUPERBATCH_N
    ensures k * SUPERBATCH_SIZE < n + SUPERBATCH_SIZE
    ensures k == SUPERBATCH_N || n <= k * SUPERBATCH_SIZE
  {
    var k := (n + SUPERBATCH_SIZE - 1) / SUPERBATCH_SIZE;
    if k < SUPERBATCH_N then k else SUPERBATCH_N
  }

  /** The tables of the corrected run's first `k` superbatches, windows bounded by the image count. */
  function IntendedFrames(images: seq<string>, names: seq<string>, segment: Segmentation.Segmenter, k: nat): seq<Segmentation.Frame>
    requires Segmentation.LabelsAreClasses(images, segment, |names|)
  {
    seq(k, sb requires 0 <= sb => ClassFrame(Segmentation.Window(images, SUPERBATCH_SIZE, |images|, sb), names, segment))
  }

  /**
   * The superbatch loop corrected: windows are bounded by the number of images, the
   * loop stops when the images run out, and superbatch 0 writes a fresh table that
   * later superbatches extend.
   */
  method SegmentStreetviewIntended(images: seq<string>, names: seq<string>, segment: Segmentation.Segmenter,
                                   store: Segmentation.ParquetFile)
    requires Segmentation.LabelsAreClasses(images, segment, |names|)
    modifies store
    ensures store.stored == if images == [] then old(store.stored) else Some(IntendedFrames(images, names, segment, IntendedCount(|images|)))
  {
    var superbatch: nat := 0;
    while superbatch < SUPERBATCH_N && superbatch * SUPERBATCH_SIZE < |images|
      invariant superbatch <= IntendedCount(|images|)
      invariant store.stored == if superbatch == 0 then old(store.stored) else Some(IntendedFrames(images, names, segment, superbatch))
      decreases SUPERBATCH_N - superbatch
    {
      var window := Segmentation.Window(images, SUPERBATCH_SIZE, |images|, superbatch);
      var table := ClassTable(window, names, segment);
      assert IntendedFrames(images, names, segment, superbatch + 1) == IntendedFrames(images, names, segment, superbatch) + [table];
      if superbatch == 0 {
        assert IntendedFrames(images, names, segment, 1) == [table];
        store.ToParquet([table]);
      } else {
        var prev := store.ReadParquet();
        assert prev == Success(IntendedFrames(images, names, segment, superbatch));
        store.ToParquet(prev.value + [table]);
      }
      superbatch := superbatch + 1;
    }
  }

  /**
   * The corrected run stores the first `min(25000, |images|)` images, each exactly
   * once and in order, as columns; every table is indexed by the class names and
   * holds, column by column, the images' count rows.
   */
  lemma IntendedCoversImages(images: seq<string>, names: seq<string>, segment: Segmentation.Segmenter)
    requires Segmentation.LabelsAreClasses(images, segment, |names|)
    ensures var fs := IntendedFrames(images, names, segment, IntendedCount(|images|));
      && Frames.Flatten(seq(|fs|, i requires 0 <= i < |fs| => fs[i].columns))
         == images[..if |images| <= SUPERBATCH_N * SUPERBATCH_SIZE then |images| else SUPERBATCH_N * SUPERBATCH_SIZE]
      && (forall i :: 0 <= i < |fs| ==> fs[i].index == names)
      && (forall i :: 0 <= i < |fs| ==> IsTableOf(fs[i], segment))
  {
    var n := |images|;
    var k := IntendedCount(n);
    var fs := IntendedFrames(images, names, segment, k);
    var ws := Segmentation.Windows(images, SUPERBATCH_SIZE, n, k);
    assert seq(|fs|, i requires 0 <= i < |fs| => fs[i].columns) == ws;
    Segmentation.WindowsCover(images, SUPERBATCH_SIZE, k);
    if k > 0 {
      Segmentation.MulSucc(k - 1, SUPERBATCH_SIZE);
    }
    forall i | 0 <= i < |fs|
      ensures IsTableOf(fs[i], segment)
    {
      var w := ws[i];
      Segmentation.RowsWidth(w, segment, |names|);
      TransposeTwice(Segmentation.Rows(w, |names|, segment), |names|);
    }
  }
}
