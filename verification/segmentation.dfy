/**
 * What the two segmentation scripts share: the per-image count row built from a
 * predicted label array, the tables they build from those rows, and the parquet
 * file they checkpoint into.
 */
module Segmentation {

  import opened Wrappers
  import Frames

  /** The segmentation network: the predicted class label of every pixel of an image. */
  type Segmenter = string -> seq<nat>

  /** The keys of the count map: every label in the prediction and every class index below `n`. */
  function Domain(pred: seq<nat>, n: nat): set<nat> {
    (set p | p in pred) + (set i | i in Range(n))
  }

  /** One more than the largest key. */
  function KeyBound(pred: seq<nat>, n: nat): (m: nat)
    ensures forall k :: k in Domain(pred, n) ==> k < m
    ensures n <= m
  {
    if pred == [] then n
    else
      var rest := KeyBound(pred[1..], n);
      assert forall k :: k in Domain(pred, n) ==> k == pred[0] || k in Domain(pred[1..], n);
      if pred[0] + 1 > rest then pred[0] + 1 else rest
  }

  /** The keys of `d` below `m`, in increasing order. */
  function KeysBelow(d: set<nat>, m: nat): (keys: seq<nat>)
    ensures forall k :: k in keys <==> k in d && k < m
    ensures forall i, j :: 0 <= i < j < |keys| ==> keys[i] < keys[j]
  {
    if m == 0 then []
    else
      var below := KeysBelow(d, m - 1);
      assert forall i :: 0 <= i < |below| ==> below[i] in below;
      below + (if m - 1 in d then [m - 1] else [])
  }

  /** The labels of a count row, in the order `sorted(named_counts.items())` yields them. */
  function RowKeys(pred: seq<nat>, n: nat): seq<nat> {
    KeysBelow(Domain(pred, n), KeyBound(pred, n))
  }

  /** `np.unique(pred, return_counts=True)` zipped into a dict: each present label and its pixel count. */
  method UniqueCounts(pred: seq<nat>) returns (counts: map<nat, nat>)
    ensures counts.Keys == set p | p in pred
    ensures forall k :: k in counts ==> counts[k] == Frames.Count<nat>(pred, k)
  {
    counts := map[];
    for j := 0 to |pred|
      invariant counts.Keys == set p | p in pred[..j]
      invariant forall k :: k in counts ==> counts[k] == Frames.Count<nat>(pred[..j], k)
    {
      var lab := pred[j];
      assert pred[..j + 1] == pred[..j] + [lab];
      forall k | k in counts || k == lab
        ensures Frames.Count<nat>(pred[..j + 1], k) == Frames.Count<nat>(pred[..j], k) + (if k == lab then 1 else 0)
      {
        Frames.CountAppend(pred[..j], [lab], k);
        assert Frames.Count<nat>([lab], k) == (if k == lab then 1 else 0) + Frames.Count<nat>([], k);
      }
      if lab in counts {
        counts := counts[lab := counts[lab] + 1];
      } else {
        counts := counts[lab := 1];
      }
    }
    assert pred[..|pred|] == pred;
  }

  /** `for i, _ in enumerate(names)`: every class index below `n` gets an entry, zero when absent. */
  method ZeroFill(pred: seq<nat>, counts: map<nat, nat>, n: nat) returns (filled: map<nat, nat>)
    requires counts.Keys == set p | p in pred
    requires forall k :: k in counts ==> counts[k] == Frames.Count<nat>(pred, k)
    ensures filled.Keys == Domain(pred, n)
    ensures forall k :: k in filled ==> filled[k] == Frames.Count<nat>(pred, k)
  {
    filled := counts;
    assert (set k | k in Range(0)) == {};
    for i := 0 to n
      invariant filled.Keys == Domain(pred, i)
      invariant forall k :: k in filled ==> filled[k] == Frames.Count<nat>(pred, k)
    {
      DomainStep(pred, i);
      if i !in filled {
        filled := filled[i := 0];
      }
    }
  }

  lemma DomainStep(pred: seq<nat>, i: nat)
    ensures Domain(pred, i + 1) == Domain(pred, i) + {i}
  {
    assert Range(i + 1) == Range(i) + [i];
  }

  /** `sorted(named_counts.items())`, keeping the counts: the values in increasing key order. */
  method SortedValues(counts: map<nat, nat>, bound: nat) returns (values: seq<nat>)
    requires forall k :: k in counts ==> k < bound
    ensures |values| == |KeysBelow(counts.Keys, bound)|
    ensures forall j :: 0 <= j < |values| ==> values[j] == counts[KeysBelow(counts.Keys, bound)[j]]
  {
    values := [];
    for k := 0 to bound
      invariant |values| == |KeysBelow(counts.Keys, k)|
      invariant forall j :: 0 <= j < |values| ==> values[j] == counts[KeysBelow(counts.Keys, k)[j]]
    {
      if k in counts {
        values := values + [counts[k]];
      }
    }
  }

  /** The count row of one image: for each key, in increasing order, the number of pixels with that label. */
  function Histogram(pred: seq<nat>, n: nat): seq<nat> {
    var keys := RowKeys(pred, n);
    seq(|keys|, j requires 0 <= j < |keys| => Frames.Count<nat>(pred, keys[j]))
  }

  /** The per-image loop body: unique labels and their counts, zero-filled, sorted by label. */
  method CountRow(pred: seq<nat>, numNames: nat) returns (row: seq<nat>)
    ensures row == Histogram(pred, numNames)
  {
    var namedCounts := UniqueCounts(pred);
    namedCounts := ZeroFill(pred, namedCounts, numNames);
    row := SortedValues(namedCounts, KeyBound(pred, numNames));
  }

  lemma InRange(n: nat, k: nat)
    ensures k in Range(n) <==> k < n
  {
    if k < n {
      assert Range(n)[k] == k;
    }
  }

  /** `range(n)` */
  function Range(n: nat): (r: seq<nat>)
    ensures |r| == n && forall i :: 0 <= i < n ==> r[i] == i
  {
    if n == 0 then [] else Range(n - 1) + [n - 1]
  }

  /**
   * When every label is a class index below `n`, the keys are dense: exactly the
   * labels `0 .. n-1`, in order.
   */
  lemma DenseRowKeys(pred: seq<nat>, n: nat)
    requires forall p :: p in pred ==> p < n
    ensures RowKeys(pred, n) == Range(n)
  {
    var d := Domain(pred, n);
    forall k: nat
      ensures k in d <==> k < n
    {
      InRange(n, k);
    }
    DenseKeysBelow(d, n, KeyBound(pred, n));
  }

  lemma {:induction false} DenseKeysBelow(d: set<nat>, n: nat, m: nat)
    requires forall k: nat :: k in d <==> k < n
    requires n <= m
    ensures KeysBelow(d, m) == Range(n)
  {
    if m > n {
      DenseKeysBelow(d, n, m - 1);
      assert m - 1 !in d;
    } else if m > 0 {
      DenseKeysBelow2(d, m);
    }
  }

  lemma {:induction false} DenseKeysBelow2(d: set<nat>, m: nat)
    requires forall i :: 0 <= i < m ==> i in d
    ensures KeysBelow(d, m) == Range(m)
  {
    if m > 0 {
      DenseKeysBelow2(d, m - 1);
    }
  }

  /** The dense count row: entry `i` counts the pixels labelled `i`. */
  function DenseRow(pred: seq<nat>, n: nat): (row: seq<nat>)
    ensures |row| == n
    ensures forall i :: 0 <= i < n ==> row[i] == Frames.Count<nat>(pred, i)
  {
    seq(n, i requires 0 <= i => Frames.Count<nat>(pred, i))
  }

  /**
   * When every label is a class index below `n`, the count row is dense: entry `i`
   * counts the pixels labelled `i`, for every `i` below `n`.
   */
  lemma HistogramIsDense(pred: seq<nat>, n: nat)
    requires forall p :: p in pred ==> p < n
    ensures Histogram(pred, n) == DenseRow(pred, n)
  {
    DenseRowKeys(pred, n);
    var row := Histogram(pred, n);
    assert |row| == n;
    forall j | 0 <= j < n
      ensures row[j] == DenseRow(pred, n)[j]
    {
      assert RowKeys(pred, n)[j] == Range(n)[j] == j;
    }
  }

  /** The count row's keys are increasing, and each key's entry counts exactly the pixels with that label. */
  lemma HistogramSorted(pred: seq<nat>, n: nat)
    ensures |Histogram(pred, n)| == |RowKeys(pred, n)|
    ensures forall i, j :: 0 <= i < j < |RowKeys(pred, n)| ==> RowKeys(pred, n)[i] < RowKeys(pred, n)[j]
    ensures forall k: nat :: k in RowKeys(pred, n) <==> k in pred || k < n
  {
    forall k: nat
      ensures k in RowKeys(pred, n) <==> k in pred || k < n
    {
      InRange(n, k);
      assert k in Domain(pred, n) <==> k in pred || k < n;
    }
  }

  /** The entries of a dense count row add up to the number of pixels. */
  lemma {:induction false} DenseRowSum(pred: seq<nat>, n: nat)
    requires forall p :: p in pred ==> p < n
    ensures Frames.Sum(DenseRow(pred, n)) == |pred|
  {
    if pred == [] {
      ZeroRowSum(n);
    } else {
      assert pred[0] in pred;
      assert forall p :: p in pred[1..] ==> p in pred;
      DenseRowSum(pred[1..], n);
      var before := DenseRow(pred[1..], n);
      var after := DenseRow(pred, n);
      assert after == before[pred[0] := before[pred[0]] + 1] by {
        forall i | 0 <= i < n
          ensures after[i] == before[pred[0] := before[pred[0]] + 1][i]
        {
          assert pred == [pred[0]] + pred[1..];
          Frames.CountAppend([pred[0]], pred[1..], i);
        }
      }
      SumIncrement(before, pred[0]);
    }
  }

  lemma {:induction false} ZeroRowSum(n: nat)
    ensures Frames.Sum(DenseRow([], n)) == 0
  {
    var row := DenseRow([], n);
    if n > 0 {
      assert row[1..] == seq(n - 1, i requires 0 <= i < n - 1 => 0);
      ZeroSum(row[1..]);
    }
  }

  lemma {:induction false} ZeroSum(s: seq<nat>)
    requires forall i :: 0 <= i < |s| ==> s[i] == 0
    ensures Frames.Sum(s) == 0
  {
    if s != [] {
      ZeroSum(s[1..]);
    }
  }

  lemma {:induction false} SumIncrement(s: seq<nat>, k: nat)
    requires k < |s|
    ensures Frames.Sum(s[k := s[k] + 1]) == Frames.Sum(s) + 1
  {
    if k > 0 {
      SumIncrement(s[1..], k - 1);
      assert s[k := s[k] + 1][1..] == s[1..][k - 1 := s[k] + 1];
    }
  }

  const NOT_FOUND := "FileNotFoundError"

  /** A data frame: a row index, column labels and one row of values per index entry. */
  datatype Frame = Frame(index: seq<string>, columns: seq<string>, values: seq<seq<nat>>)

  /**
   * A parquet file on disk, as the frames whose concatenation it holds (`None` while
   * the file does not exist).
   */
  class ParquetFile {
    var stored: Option<seq<Frame>>

    constructor (stored: Option<seq<Frame>>)
      ensures this.stored == stored
    {
      this.stored := stored;
    }

    /** `DataFrame.to_parquet`: replace the file's contents. */
    method ToParquet(frames: seq<Frame>)
      modifies this
      ensures stored == Some(frames)
    {
      stored := Some(frames);
    }

    /** `pandas.read_parquet`: the stored frames, or a failure when the file does not exist. */
    function ReadParquet(): (r: Result<seq<Frame>>)
      reads this
      ensures r.Success? <==> stored.Some?
      ensures r.Success? ==> r.value == stored.value
    {
      if stored.None? then Failure(NOT_FOUND) else Success(stored.value)
    }
  }

  /** Python's `s[low:upper]` for non-negative bounds. */
  function Slice<T>(s: seq<T>, low: nat, upper: nat): (r: seq<T>)
    ensures low <= upper <= |s| ==> r == s[low..upper]
    ensures forall x :: x in r ==> x in s
    ensures |r| == if low < upper && low < |s| then (if upper <= |s| then upper else |s|) - low else 0
  {
    var lo := if low <= |s| then low else |s|;
    var hi := if upper <= |s| then upper else |s|;
    if lo <= hi then s[lo..hi] else []
  }

  /**
   * The files of superbatch `sb`: `files[low:upper]` with `low = sb * size` and
   * `upper = min((sb + 1) * size, bound)`.
   */
  function Window<T>(files: seq<T>, size: nat, bound: nat, sb: nat): (w: seq<T>)
    ensures size > 0 && bound <= |files| && sb * size < bound ==> |w| > 0 && w == files[sb * size..Upper(size, bound, sb)]
    ensures bound <= sb * size || |files| <= sb * size ==> w == []
    ensures sb * size < |files| < Upper(size, bound, sb) ==> w == files[sb * size..]
    ensures sb * size < Upper(size, bound, sb) <= |files| ==> w == files[sb * size..Upper(size, bound, sb)]
    ensures forall x :: x in w ==> x in files
  {
    var lo := sb * size;
    var hi := Upper(size, bound, sb);
    MulSucc(sb, size);
    assert size > 0 && lo < bound ==> lo < hi;
    Slice(files, lo, hi)
  }

  /** `min((sb + 1) * size, bound)` */
  function Upper(size: nat, bound: nat, sb: nat): (u: nat)
    ensures u <= bound && u <= (sb + 1) * size
    ensures u == bound || u == (sb + 1) * size
  {
    if (sb + 1) * size <= bound then (sb + 1) * size else bound
  }

  /** The first `k` superbatch windows. */
  function Windows<T>(files: seq<T>, size: nat, bound: nat, k: nat): (ws: seq<seq<T>>)
    ensures |ws| == k && forall sb :: 0 <= sb < k ==> ws[sb] == Window(files, size, bound, sb)
  {
    seq(k, sb requires 0 <= sb => Window(files, size, bound, sb))
  }

  lemma MulSucc(a: nat, t: nat)
    ensures (a + 1) * t == a * t + t
  {
  }

  /**
   * With the length of the list as the bound, the first `k` windows are consecutive
   * and together hold exactly the first `min(k * size, |files|)` files, in order.
   */
  lemma {:induction false} WindowsCover<T>(files: seq<T>, size: nat, k: nat)
    ensures Frames.Flatten(Windows(files, size, |files|, k)) == if k == 0 then [] else files[..Upper(size, |files|, k - 1)]
  {
    var n := |files|;
    if k > 0 {
      WindowsCover(files, size, k - 1);
      var prev := Windows(files, size, n, k - 1);
      assert Windows(files, size, n, k) == prev + [Window(files, size, n, k - 1)];
      Frames.FlattenAppend(prev, Window(files, size, n, k - 1));
      var lo := if k == 1 then 0 else Upper(size, n, k - 2);
      assert Frames.Flatten(prev) == files[..lo];
      if k >= 2 {
        MulSucc(k - 2, size);
      }
      MulSucc(k - 1, size);
      if (k - 1) * size <= n {
        assert lo == (k - 1) * size;
        assert Window(files, size, n, k - 1) == files[lo..Upper(size, n, k - 1)];
      } else {
        assert lo == n;
        assert Window(files, size, n, k - 1) == [];
        assert Upper(size, n, k - 1) == n;
      }
      assert files[..lo] + files[lo..Upper(size, n, k - 1)] == files[..Upper(size, n, k - 1)];
    }
  }

  /** The count rows of a list of images, one per image, in order. */
  function Rows(images: seq<string>, numNames: nat, segment: Segmenter): seq<seq<nat>> {
    seq(|images|, j requires 0 <= j < |images| => Histogram(segment(images[j]), numNames))
  }

  /**
   * Every pixel label of every image is a class index below `n`: the network is built
   * with as many classes as the class list has names.
   */
  predicate LabelsAreClasses(images: seq<string>, segment: Segmenter, n: nat) {
    forall f, p :: f in images && p in segment(f) ==> p < n
  }

  /** With labels below `n`, every count row has exactly `n` entries, one per class. */
  lemma RowsWidth(images: seq<string>, segment: Segmenter, n: nat)
    requires LabelsAreClasses(images, segment, n)
    ensures forall r :: r in Rows(images, n, segment) ==> |r| == n
  {
    forall j | 0 <= j < |images|
      ensures |Rows(images, n, segment)[j]| == n
    {
      HistogramIsDense(segment(images[j]), n);
    }
  }

  lemma RowsAppend(a: seq<string>, b: seq<string>, numNames: nat, segment: Segmenter)
    ensures Rows(a + b, numNames, segment) == Rows(a, numNames, segment) + Rows(b, numNames, segment)
  {
  }

  lemma {:induction false} RowsFlatten(ws: seq<seq<string>>, numNames: nat, segment: Segmenter)
    ensures Frames.Flatten(seq(|ws|, i requires 0 <= i < |ws| => Rows(ws[i], numNames, segment)))
         == Rows(Frames.Flatten(ws), numNames, segment)
  {
    if ws != [] {
      RowsFlatten(ws[1..], numNames, segment);
      var rs := seq(|ws|, i requires 0 <= i < |ws| => Rows(ws[i], numNames, segment));
      assert rs[1..] == seq(|ws[1..]|, i requires 0 <= i < |ws[1..]| => Rows(ws[1..][i], numNames, segment));
      RowsAppend(ws[0], Frames.Flatten(ws[1..]), numNames, segment);
    }
  }
}
