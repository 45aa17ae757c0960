/**
 * The driver that feeds the scraping Lambdas: the points with imagery are cut into
 * 101 consecutive windows ("super batches"), each window split into 10 request
 * batches the way `numpy.array_split` splits, and each list of batches becomes the
 * input of one state-machine execution.
 */
module PullImages {

  import opened Wrappers
  import Frames
  import opened StreetviewApi
  import ValidatePoints
  import LambdaFunction

  const N_BATCHES: nat := 10
  const SUPER_BATCHES: nat := 101

  /** `numpy.array_split` chunk sizes from chunk `k` on: the first `len % n` chunks hold one extra element. */
  function SizesFrom(q: nat, r: nat, k: nat, n: nat): (sizes: seq<nat>)
    decreases n - k
    ensures |sizes| == if k <= n then n - k else 0
    ensures forall j :: 0 <= j < |sizes| ==> sizes[j] == q + (if k + j < r then 1 else 0)
  {
    if k >= n then [] else [q + (if k < r then 1 else 0)] + SizesFrom(q, r, k + 1, n)
  }

  function Min(a: int, b: int): int { if a <= b then a else b }

  lemma {:induction false} SumSizesFrom(q: nat, r: nat, k: nat, n: nat)
    requires k <= n
    decreases n - k
    ensures Frames.Sum(SizesFrom(q, r, k, n)) == (n - k) * q + Min(n, r) - Min(k, r)
  {
    if k < n {
      SumSizesFrom(q, r, k + 1, n);
      assert SizesFrom(q, r, k, n) == [q + (if k < r then 1 else 0)] + SizesFrom(q, r, k + 1, n);
      MulSucc(n - k - 1, q);
    }
  }

  /** Consecutive chunks of `s` with the given sizes. */
  function Chunks<T>(s: seq<T>, sizes: seq<nat>): (chunks: seq<seq<T>>)
    requires Frames.Sum(sizes) == |s|
    ensures |chunks| == |sizes|
    ensures forall k :: 0 <= k < |sizes| ==> |chunks[k]| == sizes[k]
  {
    if sizes == [] then [] else [s[..sizes[0]]] + Chunks(s[sizes[0]..], sizes[1..])
  }

  lemma {:induction false} FlattenChunks<T>(s: seq<T>, sizes: seq<nat>)
    requires Frames.Sum(sizes) == |s|
    ensures Frames.Flatten(Chunks(s, sizes)) == s
  {
    if sizes != [] {
      FlattenChunks(s[sizes[0]..], sizes[1..]);
      var c := Chunks(s, sizes);
      assert c[1..] == Chunks(s[sizes[0]..], sizes[1..]);
      assert s == s[..sizes[0]] + s[sizes[0]..];
    }
  }

  /**
   * `numpy.array_split(s, n)`: `n` consecutive chunks, the first `|s| % n` of them one
   * element longer than the rest, which together are `s`.
   */
  function ArraySplit<T>(s: seq<T>, n: nat): (chunks: seq<seq<T>>)
    requires n > 0
    ensures |chunks| == n
    ensures forall k :: 0 <= k < n ==> |chunks[k]| == |s| / n + (if k < |s| % n then 1 else 0)
    ensures Frames.Flatten(chunks) == s
  {
    var sizes := SizesFrom(|s| / n, |s| % n, 0, n);
    SumSizesFrom(|s| / n, |s| % n, 0, n);
    FlattenChunks(s, sizes);
    Chunks(s, sizes)
  }

  /** The Lambda request built from a row of the metadata table. */
  function ToRequest(row: ValidatePoints.MetadataRow, apiKey: string): LambdaFunction.LambdaRequest {
    LambdaFunction.LambdaRequest(row.id, row.latitude, row.longitude, row.heading, apiKey)
  }

  function Requests(rows: seq<ValidatePoints.MetadataRow>, apiKey: string): (reqs: seq<LambdaFunction.LambdaRequest>)
    ensures |reqs| == |rows|
    ensures forall j :: 0 <= j < |rows| ==> reqs[j] == ToRequest(rows[j], apiKey)
  {
    seq(|rows|, j requires 0 <= j < |rows| => ToRequest(rows[j], apiKey))
  }

  lemma RequestsAppend(a: seq<ValidatePoints.MetadataRow>, b: seq<ValidatePoints.MetadataRow>, apiKey: string)
    ensures Requests(a + b, apiKey) == Requests(a, apiKey) + Requests(b, apiKey)
  {
  }

  /** The request batches for some rows: the rows' requests, split into `n` batches. */
  function RequestBatches(rows: seq<ValidatePoints.MetadataRow>, n: nat, apiKey: string): seq<seq<LambdaFunction.LambdaRequest>>
    requires n > 0
  {
    var chunks := ArraySplit(rows, n);
    seq(n, b requires 0 <= b < n => Requests(chunks[b], apiKey))
  }

  lemma {:induction false} FlattenRequests(chunks: seq<seq<ValidatePoints.MetadataRow>>, apiKey: string)
    ensures Frames.Flatten(seq(|chunks|, b requires 0 <= b < |chunks| => Requests(chunks[b], apiKey)))
            == Requests(Frames.Flatten(chunks), apiKey)
  {
    var batches := seq(|chunks|, b requires 0 <= b < |chunks| => Requests(chunks[b], apiKey));
    if chunks != [] {
      FlattenRequests(chunks[1..], apiKey);
      assert batches[1..] == seq(|chunks[1..]|, b requires 0 <= b < |chunks[1..]| => Requests(chunks[1..][b], apiKey));
      RequestsAppend(chunks[0], Frames.Flatten(chunks[1..]), apiKey);
    }
  }

  /** Every row is requested exactly once across the batches, in row order. */
  lemma BatchesCoverRows(rows: seq<ValidatePoints.MetadataRow>, n: nat, apiKey: string)
    requires n > 0
    ensures Frames.Flatten(RequestBatches(rows, n, apiKey)) == Requests(rows, apiKey)
  {
    FlattenRequests(ArraySplit(rows, n), apiKey);
  }

  /**
   * `generate_request_batches`: split the rows into `nBatches` frames and build one
   * request per row, batch by batch.
   */
  method GenerateRequestBatches(rows: seq<ValidatePoints.MetadataRow>, nBatches: nat, apiKey: string)
    returns (batches: seq<seq<LambdaFunction.LambdaRequest>>)
    requires nBatches > 0
    ensures batches == RequestBatches(rows, nBatches, apiKey)
  {
    var dfs := ArraySplit(rows, nBatches);
    batches := [];
    for b := 0 to |dfs|
      invariant batches == seq(b, c requires 0 <= c < b => Requests(dfs[c], apiKey))
    {
      var df := dfs[b];
      var requests := [];
      for j := 0 to |df|
        invariant requests == Requests(df[..j], apiKey)
      {
        assert df[..j + 1] == df[..j] + [df[j]];
        requests := requests + [ToRequest(df[j], apiKey)];
      }
      assert df[..|df|] == df;
      batches := batches + [requests];
    }
  }

  predicate IsOk(row: ValidatePoints.MetadataRow) { row.status == "OK" }

  /** `df[df['status'] == 'OK']`. */
  function OkRows(rows: seq<ValidatePoints.MetadataRow>): (ok: seq<ValidatePoints.MetadataRow>)
    ensures forall row :: row in ok <==> row in rows && row.status == "OK"
    ensures Frames.Subseq(ok, rows)
    ensures forall row :: Frames.Count(ok, row) == if row.status == "OK" then Frames.Count(rows, row) else 0
  {
    Frames.FilterIsSubseq(rows, IsOk);
    forall row
      ensures Frames.Count(Frames.Filter(rows, IsOk), row) == if row.status == "OK" then Frames.Count(rows, row) else 0
    {
      Frames.FilterCount(rows, IsOk, row);
    }
    Frames.Filter(rows, IsOk)
  }

  /** The window of super batch `sb` as written: `[sb * t, min((sb + 1) * t, len))` with `t = len // 100`. */
  function Window(len: nat, sb: nat): (w: (nat, nat))
    requires sb < SUPER_BATCHES
    ensures w.0 <= w.1 <= len
  {
    var t := len / 100;
    WindowStartInRange(len, sb, t);
    (sb * t, Min((sb + 1) * t, len))
  }

  lemma WindowStartInRange(len: nat, sb: nat, t: nat)
    requires sb <= 100 && t == len / 100
    ensures sb * t <= (sb + 1) * t && sb * t <= len
  {
    assert sb * t <= 100 * t by {
      var d := 100 - sb;
      assert 100 * t == sb * t + d * t;
    }
  }

  /** The input of execution `sb`: the request batches of the rows in window `sb`. */
  function ExecutionInput(ok: seq<ValidatePoints.MetadataRow>, sb: nat, apiKey: string): seq<seq<LambdaFunction.LambdaRequest>>
    requires sb < SUPER_BATCHES
  {
    var w := Window(|ok|, sb);
    RequestBatches(ok[w.0..w.1], N_BATCHES, apiKey)
  }

  /**
   * The main loop: the rows with imagery, then one execution input per super batch,
   * each the request batches of that super batch's window.
   */
  method PullImages(metadata: seq<ValidatePoints.MetadataRow>, apiKey: string)
    returns (executions: seq<seq<seq<LambdaFunction.LambdaRequest>>>)
    ensures |executions| == SUPER_BATCHES
    ensures forall sb :: 0 <= sb < SUPER_BATCHES ==> executions[sb] == ExecutionInput(OkRows(metadata), sb, apiKey)
  {
    var df := OkRows(metadata);
    executions := SuperBatchInputs(df, apiKey);
  }

  /** The first `n` entries of `executions` are the execution inputs of super batches 0 to n - 1. */
  ghost predicate InputsUpTo(df: seq<ValidatePoints.MetadataRow>, apiKey: string,
                             executions: seq<seq<seq<LambdaFunction.LambdaRequest>>>, n: nat)
  {
    && n <= |executions| && n <= SUPER_BATCHES
    && forall sb :: 0 <= sb < n ==> executions[sb] == ExecutionInput(df, sb, apiKey)
  }

  lemma InputsUpToStep(df: seq<ValidatePoints.MetadataRow>, apiKey: string,
                       executions: seq<seq<seq<LambdaFunction.LambdaRequest>>>, n: nat,
                       next: seq<seq<LambdaFunction.LambdaRequest>>)
    requires InputsUpTo(df, apiKey, executions, n) && |executions| == n < SUPER_BATCHES
    requires next == ExecutionInput(df, n, apiKey)
    ensures InputsUpTo(df, apiKey, executions + [next], n + 1)
  {
    var e := executions + [next];
    forall sb | 0 <= sb < n + 1
      ensures e[sb] == ExecutionInput(df, sb, apiKey)
    {
      if sb < n {
        assert e[sb] == executions[sb];
      } else {
        assert sb == n && e[sb] == next;
      }
    }
  }

  /** The loop over super batches of `PullImages`, on the rows with imagery `df`. */
  method SuperBatchInputs(df: seq<ValidatePoints.MetadataRow>, apiKey: string)
    returns (executions: seq<seq<seq<LambdaFunction.LambdaRequest>>>)
    ensures |executions| == SUPER_BATCHES
    ensures forall sb :: 0 <= sb < SUPER_BATCHES ==> executions[sb] == ExecutionInput(df, sb, apiKey)
  {
    var tnth := |df| / 100;
    executions := [];
    for superBatch := 0 to SUPER_BATCHES
      invariant |executions| == superBatch
      invariant InputsUpTo(df, apiKey, executions, superBatch)
    {
      var start := superBatch * tnth;
      var end := Min((superBatch + 1) * tnth, |df|);
      assert (start, end) == Window(|df|, superBatch);
      var miniDf := df[start..end];
      var requestBatches := GenerateRequestBatches(miniDf, N_BATCHES, apiKey);
      InputsUpToStep(df, apiKey, executions, superBatch, requestBatches);
      executions := executions + [requestBatches];
    }
    assert InputsUpTo(df, apiKey, executions, SUPER_BATCHES);
  }

  /** The rows of the first `m` super-batch windows, window by window. */
  function WindowRows<T>(rows: seq<T>, m: nat, window: (nat, nat) -> (nat, nat)): seq<seq<T>>
    requires forall sb :: 0 <= sb < m ==> window(|rows|, sb).0 <= window(|rows|, sb).1 <= |rows|
  {
    seq(m, sb requires 0 <= sb < m && window(|rows|, sb).0 <= window(|rows|, sb).1 <= |rows| =>
      rows[window(|rows|, sb).0..window(|rows|, sb).1])
  }

  function AsWritten(len: nat, sb: nat): (nat, nat) {
    if sb < SUPER_BATCHES then Window(len, sb) else (0, 0)
  }

  /**
   * Windows that run from one edge to the next, starting at row 0, concatenate to the
   * rows up to the last edge.
   */
  lemma {:induction false} AdjacentWindowsCover<T>(rows: seq<T>, m: nat, window: (nat, nat) -> (nat, nat), edges: seq<nat>)
    requires |edges| == m + 1 && edges[0] == 0
    requires forall sb :: 0 <= sb <= m ==> edges[sb] <= |rows|
    requires forall sb :: 0 <= sb < m ==> window(|rows|, sb) == (edges[sb], edges[sb + 1])
    requires forall sb :: 0 <= sb < m ==> window(|rows|, sb).0 <= window(|rows|, sb).1 <= |rows|
    ensures Frames.Flatten(WindowRows(rows, m, window)) == rows[..edges[m]]
  {
    if m == 0 {
      assert rows[..0] == [];
    } else {
      AdjacentWindowsCover(rows, m - 1, window, edges[..m]);
      var prev := WindowRows(rows, m - 1, window);
      var last := rows[edges[m - 1]..edges[m]];
      assert WindowRows(rows, m, window) == prev + [last];
      Frames.FlattenAppend(prev, last);
      assert rows[..edges[m - 1]] + last == rows[..edges[m]];
    }
  }

  lemma MulSucc(a: nat, t: nat)
    ensures (a + 1) * t == a * t + t
  {
  }

  /**
   * As written, the 101 windows reach row `min(101 * (len // 100), len)`: every row is
   * requested iff `len % 100 <= len // 100`.
   */
  lemma SuperBatchesCoverage<T>(rows: seq<T>)
    ensures Frames.Flatten(WindowRows(rows, SUPER_BATCHES, AsWritten)) == rows[..Min(101 * (|rows| / 100), |rows|)]
    ensures Frames.Flatten(WindowRows(rows, SUPER_BATCHES, AsWritten)) == rows <==> |rows| % 100 <= |rows| / 100
  {
    var t := |rows| / 100;
    var edges := seq(SUPER_BATCHES + 1, j requires 0 <= j => Min(j * t, |rows|));
    forall sb | 0 <= sb < SUPER_BATCHES
      ensures AsWritten(|rows|, sb) == (edges[sb], edges[sb + 1])
    {
      WindowStartInRange(|rows|, sb, t);
    }
    AdjacentWindowsCover(rows, SUPER_BATCHES, AsWritten, edges);
    assert 101 * t == 100 * t + t;
  }

  /** With 150 rows with imagery, only the first 101 are ever requested. */
  lemma SuperBatchesMissRows<T>(rows: seq<T>)
    requires |rows| == 150
    ensures |Frames.Flatten(WindowRows(rows, SUPER_BATCHES, AsWritten))| == 101
  {
    SuperBatchesCoverage(rows);
  }

  /** The evident intent: the last super batch takes every row left after the first hundred windows. */
  function IntendedWindow(len: nat, sb: nat): (w: (nat, nat))
    ensures sb <= 100 ==> w.0 <= w.1 <= len
  {
    var t := len / 100;
    if sb > 100 then (0, 0)
    else
      WindowStartInRange(len, sb, t);
      WindowStartInRange(len, if sb < 100 then sb + 1 else sb, t);
      (sb * t, if sb == 100 then len else (sb + 1) * t)
  }

  /** With the intended windows every row with imagery is requested exactly once, in order. */
  lemma IntendedSuperBatchesCoverAll<T>(rows: seq<T>)
    ensures Frames.Flatten(WindowRows(rows, SUPER_BATCHES, IntendedWindow)) == rows
  {
    var t := |rows| / 100;
    var edges := seq(SUPER_BATCHES + 1, j requires 0 <= j => if j == SUPER_BATCHES then |rows| else j * t);
    forall sb | 0 <= sb < SUPER_BATCHES
      ensures IntendedWindow(|rows|, sb) == (edges[sb], edges[sb + 1])
      ensures edges[sb] <= |rows|
    {
      WindowStartInRange(|rows|, sb, t);
      if sb < 100 {
        WindowStartInRange(|rows|, sb + 1, t);
      }
    }
    AdjacentWindowsCover(rows, SUPER_BATCHES, IntendedWindow, edges);
  }

  /**
   * The requests the driver sends over all its executions, in order: one per row with
   * imagery up to row `min(101 * (len // 100), len)`.
   */
  lemma RequestsSentAsWritten(ok: seq<ValidatePoints.MetadataRow>, apiKey: string)
    ensures Frames.Flatten(seq(SUPER_BATCHES, sb requires 0 <= sb < SUPER_BATCHES =>
              Frames.Flatten(ExecutionInput(ok, sb, apiKey))))
            == Requests(ok[..Min(101 * (|ok| / 100), |ok|)], apiKey)
  {
    var windows := WindowRows(ok, SUPER_BATCHES, AsWritten);
    forall sb | 0 <= sb < SUPER_BATCHES
      ensures Frames.Flatten(ExecutionInput(ok, sb, apiKey)) == Requests(windows[sb], apiKey)
    {
      var w := Window(|ok|, sb);
      BatchesCoverRows(ok[w.0..w.1], N_BATCHES, apiKey);
    }
    assert seq(SUPER_BATCHES, sb requires 0 <= sb < SUPER_BATCHES => Frames.Flatten(ExecutionInput(ok, sb, apiKey)))
        == seq(|windows|, b requires 0 <= b < |windows| => Requests(windows[b], apiKey));
    FlattenRequests(windows, apiKey);
    SuperBatchesCoverage(ok);
  }
}
