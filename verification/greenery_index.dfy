/**
 * The greenery index: for each segmented Street View image, the number of pixels the
 * segmentation assigned to vegetation classes, joined to the image metadata by ID.
 */
module MakeGreeneryIndex {

  import Text
  import Frames

  /** The vegetation classes whose pixel counts make up the index. */
  const REL_SEGMENTS: seq<string> := ["tree", "grass", "field", "flower", "hill"]

  /** A row of the segment table restricted to the vegetation columns, after `reset_index`. */
  datatype SegmentRow = SegmentRow(index: string, tree: nat, grass: nat, field: nat, flower: nat, hill: nat)

  /** A row of the image metadata table: the image ID and its other columns. */
  datatype MetaRow = MetaRow(id: string, fields: seq<string>)

  /** A kept segment row: the image ID and its absolute greenery. */
  datatype GreeneryRow = GreeneryRow(imageId: string, absoluteGreenery: nat)

  /** A merged row: the metadata row with the greenery column attached (`image_id` dropped). */
  datatype Merged = Merged(meta: MetaRow, absoluteGreenery: nat)

  /** `x[:-4]`: the file name without its four-character extension (empty for shorter names). */
  function StripSuffix(x: string): (r: string)
    ensures |r| == if |x| >= 4 then |x| - 4 else 0
  {
    if |x| >= 4 then x[..|x| - 4] else ""
  }

  /** Stripping undoes appending the `.png` extension, in both directions. */
  lemma StripPng(x: string, id: string)
    ensures Text.EndsWith(x, ".png") ==> StripSuffix(x) + ".png" == x
    ensures StripSuffix(id + ".png") == id
  {
    assert (id + ".png")[..|id|] == id;
    if Text.EndsWith(x, ".png") {
      assert x == x[..|x| - 4] + x[|x| - 4..];
    }
  }

  /** The row's counts in the order of `REL_SEGMENTS`. */
  function VegetationCounts(r: SegmentRow): (cs: seq<nat>)
    ensures |cs| == |REL_SEGMENTS|
  {
    [r.tree, r.grass, r.field, r.flower, r.hill]
  }

  /** `np.sum(segments[REL_SEGMENTS], axis=1)` */
  function AbsoluteGreenery(r: SegmentRow): nat {
    Frames.Sum(VegetationCounts(r))
  }

  /**
   * A segment row whose vegetation counts come from one prediction, for five distinct
   * class indices.
   */
  predicate CountsFrom(r: SegmentRow, pred: seq<nat>, classes: seq<nat>) {
    && |classes| == |REL_SEGMENTS|
    && (forall i, j :: 0 <= i < j < |classes| ==> classes[i] != classes[j])
    && (forall k :: 0 <= k < |classes| ==> VegetationCounts(r)[k] == Frames.Count<nat>(pred, classes[k]))
  }

  /** The counts of distinct labels add up to the number of pixels carrying one of them. */
  lemma {:induction false} SumOfCounts(pred: seq<nat>, ks: seq<nat>)
    requires forall i, j :: 0 <= i < j < |ks| ==> ks[i] != ks[j]
    ensures Frames.Sum(seq(|ks|, j requires 0 <= j < |ks| => Frames.Count<nat>(pred, ks[j])))
         == |Frames.Filter(pred, p => p in ks)|
  {
    var counts := seq(|ks|, j requires 0 <= j < |ks| => Frames.Count<nat>(pred, ks[j]));
    if ks != [] {
      var rest := ks[1..];
      SumOfCounts(pred, rest);
      assert counts[1..] == seq(|rest|, j requires 0 <= j < |rest| => Frames.Count<nat>(pred, rest[j]));
      SplitCount(pred, ks);
    } else {
      NoLabels(pred, ks);
    }
  }

  lemma {:induction false} NoLabels(pred: seq<nat>, ks: seq<nat>)
    requires ks == []
    ensures Frames.Filter(pred, p => p in ks) == []
  {
    if pred != [] {
      NoLabels(pred[1..], ks);
    }
  }

  /** Pixels labelled with a label of `ks` split into those labelled `ks[0]` and those labelled with the rest. */
  lemma {:induction false} SplitCount(pred: seq<nat>, ks: seq<nat>)
    requires ks != [] && ks[0] !in ks[1..]
    ensures |Frames.Filter(pred, p => p in ks)| == Frames.Count<nat>(pred, ks[0]) + |Frames.Filter(pred, p => p in ks[1..])|
  {
    if pred != [] {
      SplitCount(pred[1..], ks);
      assert pred[0] in ks <==> pred[0] == ks[0] || pred[0] in ks[1..];
    }
  }

  /**
   * The absolute greenery of an image is the number of its pixels the network labelled
   * with one of the vegetation classes.
   */
  lemma GreeneryCountsVegetationPixels(r: SegmentRow, pred: seq<nat>, classes: seq<nat>)
    requires CountsFrom(r, pred, classes)
    ensures AbsoluteGreenery(r) == |Frames.Filter(pred, p => p in classes)|
  {
    SumOfCounts(pred, classes);
    assert VegetationCounts(r) == seq(|classes|, j requires 0 <= j < |classes| => Frames.Count<nat>(pred, classes[j]));
  }

  /** The columns kept from the segment table: `image_id` and `absolute_greenery`. */
  function Kept(segments: seq<SegmentRow>): (g: seq<GreeneryRow>)
    ensures |g| == |segments|
    ensures forall i :: 0 <= i < |g| ==> g[i] == GreeneryRow(StripSuffix(segments[i].index), AbsoluteGreenery(segments[i]))
  {
    if segments == [] then []
    else [GreeneryRow(StripSuffix(segments[0].index), AbsoluteGreenery(segments[0]))] + Kept(segments[1..])
  }

  /** The merged rows of one metadata row: one per segment row with the same ID, in segment order. */
  function MatchesOf(m: MetaRow, g: seq<GreeneryRow>): (r: seq<Merged>)
    ensures forall x :: x in r ==> x.meta == m && GreeneryRow(m.id, x.absoluteGreenery) in g
    ensures forall s :: s in g && s.imageId == m.id ==> Merged(m, s.absoluteGreenery) in r
  {
    if g == [] then []
    else (if g[0].imageId == m.id then [Merged(m, g[0].absoluteGreenery)] else []) + MatchesOf(m, g[1..])
  }

  /** `metadata.merge(segments, how='inner', left_on='ID', right_on='image_id').drop('image_id', axis=1)` */
  function InnerMerge(metadata: seq<MetaRow>, g: seq<GreeneryRow>): (r: seq<Merged>)
    ensures forall x :: x in r ==> x.meta in metadata && GreeneryRow(x.meta.id, x.absoluteGreenery) in g
    ensures forall m, s :: m in metadata && s in g && s.imageId == m.id ==> Merged(m, s.absoluteGreenery) in r
  {
    if metadata == [] then []
    else MatchesOf(metadata[0], g) + InnerMerge(metadata[1..], g)
  }

  /** The whole index: kept segment columns merged into the metadata. */
  function GreeneryIndex(segments: seq<SegmentRow>, metadata: seq<MetaRow>): seq<Merged> {
    InnerMerge(metadata, Kept(segments))
  }

  /**
   * Every row of the index is a metadata row together with the greenery of a segmented
   * image whose file name, extension stripped, is that row's ID; and every pair of a
   * metadata row and a segment row `ID + ".png"` is in the index.
   */
  lemma IndexJoinsOnId(segments: seq<SegmentRow>, metadata: seq<MetaRow>)
    ensures forall x :: x in GreeneryIndex(segments, metadata) ==>
      x.meta in metadata && exists s :: s in segments && StripSuffix(s.index) == x.meta.id && AbsoluteGreenery(s) == x.absoluteGreenery
    ensures forall m, s :: m in metadata && s in segments && s.index == m.id + ".png" ==>
      Merged(m, AbsoluteGreenery(s)) in GreeneryIndex(segments, metadata)
  {
    var g := Kept(segments);
    forall x | x in GreeneryIndex(segments, metadata)
      ensures exists s :: s in segments && StripSuffix(s.index) == x.meta.id && AbsoluteGreenery(s) == x.absoluteGreenery
    {
      var i :| 0 <= i < |g| && g[i] == GreeneryRow(x.meta.id, x.absoluteGreenery);
      assert segments[i] in segments;
    }
    forall m, s | m in metadata && s in segments && s.index == m.id + ".png"
      ensures Merged(m, AbsoluteGreenery(s)) in GreeneryIndex(segments, metadata)
    {
      StripPng(s.index, m.id);
      var i :| 0 <= i < |segments| && segments[i] == s;
      assert g[i] in g;
    }
  }
}
