/**
 * The Census API helper: argument validation, the ACS request URL, the shaping of one
 * API response into a table keyed by GEOID, and the fold of `get_acs` over the tables.
 * The HTTP request is an oracle from URL to the parsed response (a list of rows).
 */
module CensusFriendo {

  import opened Wrappers
  import opened Text
  import Frames

  const BASE_URL: string := "https://api.census.gov/data"
  const VALID_GEOGRAPHIES: seq<string> := ["us", "state", "county", "tract"]
  /** The two-digit state codes of FIPS PUB 5-2, including 11 for the District of Columbia. */
  const STATE_FIPS: seq<string> := [
    "01", "02", "04", "05", "06", "08", "09", "10", "11",
    "12", "13", "15", "16", "17", "18", "19", "20", "21",
    "22", "23", "24", "25", "26", "27", "28", "29", "30",
    "31", "32", "33", "34", "35", "36", "37", "38", "39",
    "40", "41", "42", "44", "45", "46", "47", "48", "49",
    "50", "51", "53", "54", "55", "56"]
  const ACCEPTED_SURVEYS: seq<string> := ["acs5", "acs1"]

  const GEOGRAPHY_ERROR: string := "Geography must be one of tract"
  const TRACT_ERROR: string := "Must provide state if pulling tract level data."
  const STATE_ERROR: string := "Must use one of 50 states."
  const SURVEY_ERROR: string := "This function only supports 1- and 5-year estimates."
  const TYPE_ERROR: string := "AssertionError"
  const INDEX_ERROR: string := "IndexError"
  const VALUE_ERROR: string := "ValueError"

  /** Geography columns the response table loses once GEOID is built. */
  const DROPPED_COLUMNS: set<string> := {"state", "county", "tract"}
  /** The columns `df.get` reads to build GEOID. */
  const GEOID_PARTS: set<string> := {"us", "state", "county", "tract"}

  /** The `tables` argument of `get_acs`: a list, a single name, an insertion-ordered dict, or anything else. */
  datatype Tables =
    | TableList(names: seq<string>)
    | TableName(name: string)
    | TableDict(entries: seq<(string, string)>)
    | OtherKind

  /** One response as a table: a header and rectangular rows. */
  datatype TableFrame = TableFrame(columns: seq<string>, rows: seq<seq<string>>)

  predicate DistinctKeys(entries: seq<(string, string)>) {
    forall i, j :: 0 <= i < j < |entries| ==> entries[i].0 != entries[j].0
  }

  /** A parsed API response is rectangular: every row as wide as the header row. */
  predicate Rectangular(lst: seq<seq<string>>) {
    forall i :: 0 < i < |lst| ==> |lst[i]| == |lst[0]|
  }

  /** A successful Census API reply, parsed: a rectangular list of rows whose header has no GEOID column. */
  type ApiResponse = lst: seq<seq<string>> | Rectangular(lst) && (lst != [] ==> "GEOID" !in lst[0]) witness []

  predicate GeographyAccepted(geography: string, state: string) {
    && Lower(geography) in VALID_GEOGRAPHIES
    && (state != "" || Lower(geography) != "tract")
    && (state == "" || state in STATE_FIPS)
  }

  /** The query fragment `for=<geography>:*[&in=state:<state>]`, after the three checks. */
  function GenerateGeography(geography: string, state: string): (r: Result<string>)
    ensures r.Success? <==> GeographyAccepted(geography, state)
    ensures Lower(geography) !in VALID_GEOGRAPHIES ==> r == Failure(GEOGRAPHY_ERROR)
    ensures Lower(geography) == "tract" && state == "" ==> r == Failure(TRACT_ERROR)
    ensures Lower(geography) in VALID_GEOGRAPHIES && state != "" && state !in STATE_FIPS ==> r == Failure(STATE_ERROR)
    ensures r.Success? ==> StartsWith(r.value, "for=" + Lower(geography) + ":*")
  {
    var g := Lower(geography);
    if g !in VALID_GEOGRAPHIES then Failure(GEOGRAPHY_ERROR)
    else if !(state != "" || g != "tract") then Failure(TRACT_ERROR)
    else if !(state == "" || state in STATE_FIPS) then Failure(STATE_ERROR)
    else
      Success("for=" + g + ":*" + StateTail(state))
  }

  /** `&in=state:<state>` exactly when a state is given. */
  function StateTail(state: string): (r: string)
    ensures state == "" <==> r == ""
  {
    if state != "" then "&in=state:" + state else ""
  }

  /** Reads a geography fragment back into its geography and state. */
  function ParseGeography(fragment: string): Option<(string, string)> {
    if !StartsWith(fragment, "for=") then None
    else
      var rest := fragment[4..];
      match IndexOf(rest, ':')
      case None => None
      case Some(k) =>
        var tail := rest[k + 1..];
        if !StartsWith(tail, "*") then None
        else if tail[1..] == "" then Some((rest[..k], ""))
        else if StartsWith(tail[1..], "&in=state:") && |tail| > 11 then Some((rest[..k], tail[11..]))
        else None
  }

  /** The fragment keeps both inputs: parsing it gives back the lower-cased geography and the state. */
  lemma GenerateGeographyRoundTrip(geography: string, state: string)
    requires GeographyAccepted(geography, state)
    ensures ParseGeography(GenerateGeography(geography, state).value) == Some((Lower(geography), state))
  {
    var g := Lower(geography);
    assert ':' !in g;
    ParseFragment(g, state);
  }

  lemma ParseFragment(g: string, state: string)
    requires ':' !in g
    ensures ParseGeography("for=" + g + ":*" + StateTail(state)) == Some((g, state))
  {
    var tail := StateTail(state);
    var t := "*" + tail;
    assert "for=" + g + ":*" + tail == "for=" + g + ":" + t;
    ParsePrefix(g, t);
    assert t[1..] == tail;
    if state != "" {
      StateTailShape(state);
      assert t[11..] == tail[10..];
    }
  }

  lemma StateTailShape(state: string)
    requires state != ""
    ensures var tail := StateTail(state);
      StartsWith(tail, "&in=state:") && |tail| == 10 + |state| && tail[10..] == state
  {
  }

  /** After `for=`, the geography runs up to the first colon. */
  lemma ParsePrefix(g: string, t: string)
    requires ':' !in g
    ensures var frag := "for=" + g + ":" + t;
      && StartsWith(frag, "for=")
      && IndexOf(frag[4..], ':') == Some(|g|)
      && frag[4..][..|g|] == g
      && frag[4..][|g| + 1..] == t
  {
    var frag := "for=" + g + ":" + t;
    var rest := frag[4..];
    assert rest == g + [':'] + t;
    IndexOfAfterPrefix(g, ':', t);
  }

  /** A column value of one response row, or '' when the column is absent (`df.get(col, '')`). */
  function ColumnOr(header: seq<string>, row: seq<string>, column: string): (v: string)
    requires |row| == |header|
    ensures column !in header ==> v == ""
    ensures column in header ==> v in row
  {
    if header == [] then ""
    else if header[0] == column then row[0]
    else ColumnOr(header[1..], row[1..], column)
  }

  /** GEOID: the us, state, county and tract codes of a row, concatenated. */
  function Geoid(header: seq<string>, row: seq<string>): string
    requires |row| == |header|
  {
    ColumnOr(header, row, "us") + ColumnOr(header, row, "state")
    + ColumnOr(header, row, "county") + ColumnOr(header, row, "tract")
  }

  /** The cells of `row` whose column survives the drop of state, county and tract. */
  function KeepColumns(header: seq<string>, row: seq<string>): (r: seq<string>)
    requires |row| == |header|
    ensures |r| <= |row|
    ensures forall v :: v in r ==> v in row
    ensures |header| > 0 && header[0] !in DROPPED_COLUMNS ==> |r| > 0 && r[0] == row[0]
  {
    if header == [] then []
    else (if header[0] in DROPPED_COLUMNS then [] else [row[0]]) + KeepColumns(header[1..], row[1..])
  }

  /** No dropped geography column survives in the header. */
  lemma {:induction false} KeepColumnsDrops(header: seq<string>)
    ensures forall v :: v in KeepColumns(header, header) ==> v !in DROPPED_COLUMNS
  {
    if header != [] {
      KeepColumnsDrops(header[1..]);
    }
  }

  /** The header keeps exactly its non-geography columns, in their order. */
  lemma {:induction false} KeepColumnsIsFilter(header: seq<string>)
    ensures KeepColumns(header, header) == Frames.Filter(header, (c: string) => c !in DROPPED_COLUMNS)
  {
    if header != [] {
      KeepColumnsIsFilter(header[1..]);
    }
  }

  /** The positions, from `from` on, of the header cells that are not dropped, in increasing order. */
  function KeptIndices(header: seq<string>, from: nat): seq<nat>
    requires from <= |header|
    decreases |header| - from
  {
    if from == |header| then []
    else (if header[from] in DROPPED_COLUMNS then [] else [from]) + KeptIndices(header, from + 1)
  }

  /** Every kept position lies in range, from `from` on, and names a column that is not dropped. */
  lemma {:induction false} KeptBounds(header: seq<string>, from: nat)
    requires from <= |header|
    ensures var ks := KeptIndices(header, from);
      forall j :: 0 <= j < |ks| ==> from <= ks[j] < |header| && header[ks[j]] !in DROPPED_COLUMNS
    decreases |header| - from
  {
    if from < |header| {
      KeptBounds(header, from + 1);
      KeptShape(header, from);
    }
  }

  /** Position j > 0 of a list that starts with a kept `from` is position j - 1 of the rest. */
  lemma KeptShape(header: seq<string>, from: nat)
    requires from < |header|
    ensures var ks := KeptIndices(header, from);
      var tail := KeptIndices(header, from + 1);
      && (header[from] in DROPPED_COLUMNS ==> ks == tail)
      && (header[from] !in DROPPED_COLUMNS ==>
            |ks| == |tail| + 1 && ks[0] == from && forall j :: 0 < j < |ks| ==> ks[j] == tail[j - 1])
  {
  }

  lemma {:induction false} KeptIncreasing(header: seq<string>, from: nat)
    requires from <= |header|
    ensures var ks := KeptIndices(header, from);
      forall a, b :: 0 <= a < b < |ks| ==> ks[a] < ks[b]
    decreases |header| - from
  {
    if from < |header| {
      KeptIncreasing(header, from + 1);
      KeptBounds(header, from + 1);
      KeptShape(header, from);
    }
  }

  lemma {:induction false} KeptComplete(header: seq<string>, from: nat)
    requires from <= |header|
    ensures forall i :: from <= i < |header| && header[i] !in DROPPED_COLUMNS ==> i in KeptIndices(header, from)
    decreases |header| - from
  {
    if from < |header| {
      KeptComplete(header, from + 1);
    }
  }

  /** Kept cell j of a row is the row's cell at the j-th kept position. */
  lemma {:induction false} KeptCells(header: seq<string>, row: seq<string>, from: nat)
    requires |row| == |header| && from <= |header|
    ensures var ks := KeptIndices(header, from);
      var r := KeepColumns(header[from..], row[from..]);
      |r| == |ks| && forall j :: 0 <= j < |ks| ==> ks[j] < |row| && r[j] == row[ks[j]]
    decreases |header| - from
  {
    KeptBounds(header, from);
    if from < |header| {
      KeptCells(header, row, from + 1);
      KeptShape(header, from);
      KeepColumnsStep(header, row, from);
    }
  }

  /** Reducing from `from` on: the cell at `from` when its column is kept, then the rest reduced. */
  lemma KeepColumnsStep(header: seq<string>, row: seq<string>, from: nat)
    requires |row| == |header| && from < |header|
    ensures var r := KeepColumns(header[from..], row[from..]);
      var rest := KeepColumns(header[from + 1..], row[from + 1..]);
      && (header[from] in DROPPED_COLUMNS ==> r == rest)
      && (header[from] !in DROPPED_COLUMNS ==>
            |r| == |rest| + 1 && r[0] == row[from] && forall j :: 0 < j < |r| ==> r[j] == rest[j - 1])
  {
    assert header[from..][1..] == header[from + 1..];
    assert row[from..][1..] == row[from + 1..];
  }

  /**
   * Dropping state, county and tract leaves every other column, in order: cell j of a
   * reduced row sits under cell j of the reduced header.
   */
  lemma KeepColumnsAligned(header: seq<string>, row: seq<string>)
    requires |row| == |header|
    ensures var ks := KeptIndices(header, 0);
      && |KeepColumns(header, row)| == |KeepColumns(header, header)| == |ks|
      && (forall j :: 0 <= j < |ks| ==>
            && ks[j] < |header| && header[ks[j]] !in DROPPED_COLUMNS
            && KeepColumns(header, header)[j] == header[ks[j]]
            && KeepColumns(header, row)[j] == row[ks[j]])
      && (forall i :: 0 <= i < |header| && header[i] !in DROPPED_COLUMNS ==> i in ks)
      && (forall a, b :: 0 <= a < b < |ks| ==> ks[a] < ks[b])
  {
    KeptBounds(header, 0);
    KeptIncreasing(header, 0);
    KeptComplete(header, 0);
    KeptCells(header, row, 0);
    KeptCells(header, header, 0);
    assert header[0..] == header && row[0..] == row;
  }

  lemma {:induction false} KeepColumnsWidth(header: seq<string>, row: seq<string>)
    requires |row| == |header|
    ensures |KeepColumns(header, row)| == |KeepColumns(header, header)|
  {
    if header != [] {
      KeepColumnsWidth(header[1..], row[1..]);
    }
  }

  /**
   * Some column `df.get` reads for GEOID appears twice in the header, so `df.get` gives
   * a two-column frame that cannot be stored in the single GEOID column.
   */
  predicate RepeatedGeoidPart(header: seq<string>) {
    exists i, j :: 0 <= i < j < |header| && header[i] == header[j] && header[i] in GEOID_PARTS
  }

  /**
   * `__api_return_to_df`: renames the first header cell to the table's column name,
   * sets GEOID and drops the state, county and tract columns. GEOID is appended, unless
   * the name itself is GEOID: then the renamed column is overwritten in place.
   */
  function ApiReturnToFrame(lst: ApiResponse, name: string): (r: Result<TableFrame>)
    ensures r.Failure? <==> lst == [] || lst[0] == [] || RepeatedGeoidPart([name] + lst[0][1..])
    ensures lst == [] || lst[0] == [] ==> r == Failure(INDEX_ERROR)
    ensures lst != [] && lst[0] != [] && RepeatedGeoidPart([name] + lst[0][1..]) ==> r == Failure(VALUE_ERROR)
  {
    if lst == [] || lst[0] == [] then Failure(INDEX_ERROR)
    else
      var header := [name] + lst[0][1..];
      if RepeatedGeoidPart(header) then Failure(VALUE_ERROR)
      else
        assert forall k :: 0 <= k < |lst[1..]| ==> lst[1..][k] == lst[k + 1];
        Success(TableFrame(FrameColumns(header), ConvertRows(header, lst[1..])))
  }

  /** The kept header, with GEOID appended unless the first column already carries that name. */
  function FrameColumns(header: seq<string>): seq<string>
    requires header != []
  {
    if header[0] == "GEOID" then KeepColumns(header, header) else KeepColumns(header, header) + ["GEOID"]
  }

  /** One data row with its GEOID set, as in `FrameColumns`, and the geography columns dropped. */
  function ConvertRow(header: seq<string>, row: seq<string>): seq<string>
    requires header != [] && |row| == |header|
  {
    if header[0] == "GEOID" then [Geoid(header, row)] + KeepColumns(header[1..], row[1..])
    else KeepColumns(header, row) + [Geoid(header, row)]
  }

  /** The data rows, each converted by `ConvertRow`. */
  function ConvertRows(header: seq<string>, rows: seq<seq<string>>): seq<seq<string>>
    requires header != []
    requires forall k :: 0 <= k < |rows| ==> |rows[k]| == |header|
  {
    if rows == [] then []
    else [ConvertRow(header, rows[0])] + ConvertRows(header, rows[1..])
  }

  lemma {:induction false} ConvertRowsAt(header: seq<string>, rows: seq<seq<string>>)
    requires header != []
    requires forall k :: 0 <= k < |rows| ==> |rows[k]| == |header|
    ensures var r := ConvertRows(header, rows);
      && |r| == |rows|
      && (forall k :: 0 <= k < |rows| ==> r[k] == ConvertRow(header, rows[k]))
  {
    if rows != [] {
      ConvertRowsAt(header, rows[1..]);
      var r := ConvertRows(header, rows);
      forall k | 0 < k < |rows|
        ensures r[k] == ConvertRow(header, rows[k])
      {
        assert r[k] == ConvertRows(header, rows[1..])[k - 1] && rows[k] == rows[1..][k - 1];
      }
    }
  }

  /**
   * The frame built from a response with a header and no repeated GEOID column: the
   * renamed header minus the dropped columns, then GEOID; one row per data row, reduced
   * the same way and given its GEOID. A table named GEOID keeps its place but loses its
   * values to the codes.
   */
  lemma ApiReturnToFrameRows(lst: ApiResponse, name: string)
    requires lst != [] && lst[0] != [] && !RepeatedGeoidPart([name] + lst[0][1..])
    ensures var r := ApiReturnToFrame(lst, name);
      var header := [name] + lst[0][1..];
      && r.Success?
      && |r.value.rows| == |lst| - 1
      && (name != "GEOID" ==>
            && r.value.columns == KeepColumns(header, header) + ["GEOID"]
            && (forall k :: 0 <= k < |r.value.rows| ==>
                  r.value.rows[k] == KeepColumns(header, lst[k + 1]) + [Geoid(header, lst[k + 1])]))
      && (name == "GEOID" ==>
            && r.value.columns == ["GEOID"] + KeepColumns(header[1..], header[1..])
            && (forall k :: 0 <= k < |r.value.rows| ==>
                  r.value.rows[k] == [Geoid(header, lst[k + 1])] + KeepColumns(header[1..], lst[k + 1][1..])))
  {
    var header := [name] + lst[0][1..];
    assert forall k :: 0 <= k < |lst[1..]| ==> lst[1..][k] == lst[k + 1];
    ConvertRowsAt(header, lst[1..]);
  }

  /** Every row of a converted response is as wide as its header. */
  lemma ApiReturnToFrameRectangular(lst: ApiResponse, name: string)
    requires lst != [] && lst[0] != [] && !RepeatedGeoidPart([name] + lst[0][1..])
    ensures var f := ApiReturnToFrame(lst, name).value;
      forall k :: 0 <= k < |f.rows| ==> |f.rows[k]| == |f.columns|
  {
    ApiReturnToFrameRows(lst, name);
    var header := [name] + lst[0][1..];
    forall k | 1 <= k < |lst|
      ensures |KeepColumns(header, lst[k])| == |KeepColumns(header, header)|
      ensures |KeepColumns(header[1..], lst[k][1..])| == |KeepColumns(header[1..], header[1..])|
    {
      KeepColumnsWidth(header, lst[k]);
      KeepColumnsWidth(header[1..], lst[k][1..]);
    }
  }

  /** A header without repeated labels repeats no GEOID column. */
  lemma DistinctHeader(header: seq<string>)
    requires forall i, j :: 0 <= i < j < |header| ==> header[i] != header[j]
    ensures !RepeatedGeoidPart(header)
  {
  }

  lemma TractKeep(name: string, row: seq<string>)
    requires name !in DROPPED_COLUMNS && |row| == 4
    ensures KeepColumns([name, "state", "county", "tract"], row) == [row[0]]
  {
    var header := [name, "state", "county", "tract"];
    assert header[1..][1..][1..] == ["tract"];
    assert KeepColumns(["tract"], row[1..][1..][1..]) == [];
    assert header[1..][1..] == ["county", "tract"];
    assert KeepColumns(["county", "tract"], row[1..][1..]) == [];
    assert header[1..] == ["state", "county", "tract"];
    assert KeepColumns(["state", "county", "tract"], row[1..]) == [];
  }

  lemma TractGeoid(name: string, value: string, st: string, co: string, tr: string)
    requires name !in DROPPED_COLUMNS && name != "us"
    ensures Geoid([name, "state", "county", "tract"], [value, st, co, tr]) == st + co + tr
  {
    var header := [name, "state", "county", "tract"];
    var row := [value, st, co, tr];
    assert "us" !in header;
    assert header[..1] == [name] && header[..2] == [name, "state"] && header[..3] == [name, "state", "county"];
    ColumnOrAt(header, row, "state", 1);
    ColumnOrAt(header, row, "county", 2);
    ColumnOrAt(header, row, "tract", 3);
    assert "" + st == st;
  }

  /** `df.get(column)` reads the cell under the first header cell named `column`. */
  lemma {:induction false} ColumnOrAt(header: seq<string>, row: seq<string>, column: string, k: nat)
    requires |row| == |header| && k < |header| && header[k] == column && column !in header[..k]
    ensures ColumnOr(header, row, column) == row[k]
  {
    if k > 0 {
      assert header[0] in header[..k];
      assert header[1..][..k - 1] == header[1..k];
      assert forall x :: x in header[1..k] ==> x in header[..k];
      ColumnOrAt(header[1..], row[1..], column, k - 1);
    }
  }

  /**
   * A tract-level response: the table column is renamed and the state, county and tract
   * codes collapse into GEOID.
   */
  lemma TractResponseExample(lst: ApiResponse, name: string, value: string, st: string, co: string, tr: string)
    requires name !in GEOID_PARTS && name != "GEOID"
    requires |lst| == 2 && |lst[0]| == 4 && lst[0][1..] == ["state", "county", "tract"]
    requires lst[1] == [value, st, co, tr]
    ensures ApiReturnToFrame(lst, name) == Success(TableFrame([name, "GEOID"], [[value, st + co + tr]]))
  {
    TractResponseColumns(lst, name);
    TractResponseRows(lst, name, value, st, co, tr);
  }

  lemma TractResponseColumns(lst: ApiResponse, name: string)
    requires name !in GEOID_PARTS && name != "GEOID"
    requires |lst| == 2 && |lst[0]| == 4 && lst[0][1..] == ["state", "county", "tract"]
    ensures ApiReturnToFrame(lst, name).Success?
    ensures ApiReturnToFrame(lst, name).value.columns == [name, "GEOID"]
  {
    var header := [name, "state", "county", "tract"];
    assert [name] + lst[0][1..] == header;
    DistinctHeader(header);
    ApiReturnToFrameRows(lst, name);
    TractKeep(name, header);
  }

  lemma TractResponseRows(lst: ApiResponse, name: string, value: string, st: string, co: string, tr: string)
    requires name !in GEOID_PARTS && name != "GEOID"
    requires |lst| == 2 && |lst[0]| == 4 && lst[0][1..] == ["state", "county", "tract"]
    requires lst[1] == [value, st, co, tr]
    ensures ApiReturnToFrame(lst, name).Success?
    ensures ApiReturnToFrame(lst, name).value.rows == [[value, st + co + tr]]
  {
    var header := [name] + lst[0][1..];
    assert header == [name, "state", "county", "tract"];
    DistinctHeader(header);
    TractKeep(name, lst[1]);
    TractGeoid(name, value, st, co, tr);
    var cells := KeepColumns(header, lst[1]) + [Geoid(header, lst[1])];
    assert cells == [value, st + co + tr];
    SingleRowFrame(lst, name);
  }

  /** A response with one data row becomes a frame with one row. */
  lemma SingleRowFrame(lst: ApiResponse, name: string)
    requires |lst| == 2 && lst[0] != [] && !RepeatedGeoidPart([name] + lst[0][1..]) && name != "GEOID"
    ensures var header := [name] + lst[0][1..];
      ApiReturnToFrame(lst, name).Success?
      && ApiReturnToFrame(lst, name).value.rows == [KeepColumns(header, lst[1]) + [Geoid(header, lst[1])]]
  {
    ApiReturnToFrameRows(lst, name);
    var rows := ApiReturnToFrame(lst, name).value.rows;
    assert |rows| == 1;
  }

  /**
   * A table named GEOID: the codes overwrite the renamed column in place, so the
   * table's own value is lost and GEOID is the only column.
   */
  lemma GeoidNamedTableExample(lst: ApiResponse, value: string, st: string, co: string, tr: string)
    requires |lst| == 2 && |lst[0]| == 4 && lst[0][1..] == ["state", "county", "tract"]
    requires lst[1] == [value, st, co, tr]
    ensures ApiReturnToFrame(lst, "GEOID") == Success(TableFrame(["GEOID"], [[st + co + tr]]))
  {
    var header := ["GEOID", "state", "county", "tract"];
    assert ["GEOID"] + lst[0][1..] == header;
    DistinctHeader(header);
    ApiReturnToFrameRows(lst, "GEOID");
    assert header[1..] == ["state", "county", "tract"];
    GeographyAllDropped(header[1..]);
    GeographyAllDropped(lst[1][1..]);
    TractGeoid("GEOID", value, st, co, tr);
    var f := ApiReturnToFrame(lst, "GEOID").value;
    assert f.columns == ["GEOID"];
    assert |f.rows| == 1 && f.rows[0] == [st + co + tr];
    assert f.rows == [[st + co + tr]];
  }

  lemma GeographyAllDropped(row: seq<string>)
    requires |row| == 3
    ensures KeepColumns(["state", "county", "tract"], row) == []
  {
    var header := ["state", "county", "tract"];
    assert header[1..][1..] == ["tract"] && ["tract"][1..] == [];
    assert KeepColumns(["tract"], row[1..][1..]) == [];
    assert header[1..] == ["county", "tract"];
    assert KeepColumns(["county", "tract"], row[1..]) == [];
  }

  /** A table named like a geography column of the response repeats that column, and the GEOID assignment raises. */
  lemma RepeatedGeographyExample(lst: ApiResponse, table: string, value: string, st: string, co: string)
    requires lst == [[table, "state", "county"], [value, st, co]]
    ensures ApiReturnToFrame(lst, "state") == Failure(VALUE_ERROR)
  {
    var header := ["state"] + lst[0][1..];
    assert header[0] == header[1] == "state";
  }

  /** A national response keeps its `us` column, whose code is the whole GEOID. */
  lemma NationResponseExample(lst: ApiResponse, table: string, name: string, value: string, us: string)
    requires name !in GEOID_PARTS && name != "GEOID"
    requires lst == [[table, "us"], [value, us]]
    ensures ApiReturnToFrame(lst, name)
      == Success(TableFrame([name, "us", "GEOID"], [[value, us, us]]))
  {
    var header := [name, "us"];
    var row := [value, us];
    assert [name] + lst[0][1..] == header;
    DistinctHeader(header);
    assert lst[1] == row;
    SingleRowFrame(lst, name);
    NationKeep(name, header);
    NationKeep(name, row);
    NationGeoid(name, value, us);
    ApiReturnToFrameRows(lst, name);
    assert Geoid(header, row) == us;
    assert KeepColumns(header, row) + [us] == [value, us, us];
    assert KeepColumns(header, header) + ["GEOID"] == [name, "us", "GEOID"];
  }

  lemma NationKeep(name: string, row: seq<string>)
    requires name !in DROPPED_COLUMNS && |row| == 2
    ensures KeepColumns([name, "us"], row) == row
  {
    var header := [name, "us"];
    assert header[1..] == ["us"] && header[1..][1..] == [];
    assert KeepColumns(["us"], row[1..]) == row[1..];
    assert row == [row[0]] + row[1..];
  }

  lemma NationGeoid(name: string, value: string, us: string)
    requires name !in DROPPED_COLUMNS && name != "us"
    ensures Geoid([name, "us"], [value, us]) == us
  {
    var header := [name, "us"];
    var row := [value, us];
    assert header[1..] == ["us"] && header[1..][1..] == [];
    assert header[..1] == [name];
    ColumnOrAt(header, row, "us", 1);
    assert "state" !in header && "county" !in header && "tract" !in header;
    assert us + "" + "" + "" == us;
  }

  /** `{table: table for table in tables}`: one identity entry per distinct name, in first-occurrence order. */
  function IdentityEntries(names: seq<string>): (r: seq<(string, string)>)
    ensures DistinctKeys(r)
    ensures forall e :: e in r ==> e.0 == e.1
    ensures forall t :: t in names <==> (t, t) in r
    ensures forall i, j :: 0 <= i < j < |r| ==>
      Frames.FirstKeyIndex(names, (t: string) => t, r[i].0) < Frames.FirstKeyIndex(names, (t: string) => t, r[j].0)
  {
    IdentityEntriesMembers(names);
    IdentityEntriesOrder(names);
    Pairs(Frames.DropDuplicates(names, (t: string) => t))
  }

  /** Each name paired with itself. */
  function Pairs(u: seq<string>): (r: seq<(string, string)>)
    ensures |r| == |u| && forall i :: 0 <= i < |u| ==> r[i] == (u[i], u[i])
  {
    seq(|u|, i requires 0 <= i < |u| => (u[i], u[i]))
  }

  lemma IdentityEntriesMembers(names: seq<string>)
    ensures forall t :: t in names <==> (t, t) in Pairs(Frames.DropDuplicates(names, (t: string) => t))
  {
    var unique := Frames.DropDuplicates(names, (t: string) => t);
    var r := Pairs(unique);
    forall t | t in names ensures (t, t) in r {
      assert t in Frames.Keys(names, (t: string) => t);
      var i :| 0 <= i < |unique| && unique[i] == t;
      assert r[i] == (t, t);
    }
  }

  lemma IdentityEntriesOrder(names: seq<string>)
    ensures var r := Pairs(Frames.DropDuplicates(names, (t: string) => t));
      forall i, j :: 0 <= i < j < |r| ==>
        Frames.FirstKeyIndex(names, (t: string) => t, r[i].0) < Frames.FirstKeyIndex(names, (t: string) => t, r[j].0)
  {
    Frames.DropDuplicatesOrder(names, (t: string) => t, {});
  }

  /** `get_acs`'s normalisation of `tables` into an ordered name -> column map. */
  function NormaliseTables(tables: Tables): (r: Result<seq<(string, string)>>)
    requires tables.TableDict? ==> DistinctKeys(tables.entries)
    ensures r.Failure? <==> tables.OtherKind?
    ensures r.Success? ==> DistinctKeys(r.value)
    ensures tables.TableName? ==> r == Success([(tables.name, tables.name)])
    ensures tables.TableDict? ==> r == Success(tables.entries)
    ensures tables.TableList? ==>
      && r.Success?
      && (forall e :: e in r.value ==> e.0 == e.1)
      && (forall t :: t in tables.names <==> (t, t) in r.value)
      && (forall i, j :: 0 <= i < j < |r.value| ==>
            Frames.FirstKeyIndex(tables.names, (t: string) => t, r.value[i].0)
            < Frames.FirstKeyIndex(tables.names, (t: string) => t, r.value[j].0))
  {
    match tables
    case TableList(names) => Success(IdentityEntries(names))
    case TableName(name) => Success([(name, name)])
    case TableDict(entries) => Success(entries)
    case OtherKind => Failure(TYPE_ERROR)
  }

  /** Every response the API can give converts into a frame under the column name `name`. */
  ghost predicate AlwaysConverts(api: string -> ApiResponse, name: string) {
    forall url :: ApiReturnToFrame(api(url), name).Success?
  }

  /** The first `|frames|` responses received were converted, in order, into `frames`. */
  predicate ResponsesConverted(api: string -> ApiResponse, entries: seq<(string, string)>, requested: seq<string>,
                               frames: seq<TableFrame>)
  {
    && |frames| <= |requested| <= |entries|
    && forall k :: 0 <= k < |frames| ==> ApiReturnToFrame(api(requested[k]), entries[k].1) == Success(frames[k])
  }

  lemma ResponsesConvertedStep(api: string -> ApiResponse, entries: seq<(string, string)>, requested: seq<string>,
                               frames: seq<TableFrame>, frame: TableFrame)
    requires ResponsesConverted(api, entries, requested, frames) && |frames| < |requested|
    requires ApiReturnToFrame(api(requested[|frames|]), entries[|frames|].1) == Success(frame)
    ensures ResponsesConverted(api, entries, requested, frames + [frame])
  {
    var next := frames + [frame];
    forall k | 0 <= k < |next|
      ensures ApiReturnToFrame(api(requested[k]), entries[k].1) == Success(next[k])
    {
      if k < |frames| {
        assert next[k] == frames[k];
      }
    }
  }

  lemma ResponsesConvertedMore(api: string -> ApiResponse, entries: seq<(string, string)>, requested: seq<string>,
                               frames: seq<TableFrame>, url: string)
    requires ResponsesConverted(api, entries, requested, frames) && |requested| < |entries|
    ensures ResponsesConverted(api, entries, requested + [url], frames)
  {
    var next := requested + [url];
    forall k | 0 <= k < |frames|
      ensures ApiReturnToFrame(api(next[k]), entries[k].1) == Success(frames[k])
    {
      assert next[k] == requested[k];
    }
  }

  /** The helper object; it holds the API key every request carries. */
  class CensusFriendo {
    const apiKey: string

    constructor (apiKey: string)
      ensures this.apiKey == apiKey
    {
      this.apiKey := apiKey;
    }

    /** `BASE_URL/<year>/acs/<survey>?get=<table>&<geography fragment>&key=<API key>`. */
    function MakeApiUrl(year: int, survey: string, table: string, geography: string, state: string): (r: Result<string>)
      ensures r.Success? <==> GeographyAccepted(geography, state)
      ensures r.Failure? ==> r == GenerateGeography(geography, state).PropagateFailure()
      ensures r.Success? ==>
        r.value == BASE_URL + "/" + IntToString(year) + "/acs/" + survey + "?get=" + table + "&"
                   + GenerateGeography(geography, state).value + "&key=" + apiKey
    {
      var fragment :- GenerateGeography(geography, state);
      Success(BASE_URL + "/" + IntToString(year) + "/acs/" + survey + "?get=" + table + "&" + fragment + "&key=" + apiKey)
    }

    /** The URLs requested so far are, in order, the ones built from the first tables. */
    predicate UrlsBuilt(entries: seq<(string, string)>, requested: seq<string>, survey: string, year: int,
                        geography: string, state: string)
    {
      && |requested| <= |entries|
      && forall k :: 0 <= k < |requested| ==>
           MakeApiUrl(year, survey, entries[k].0, geography, state) == Success(requested[k])
    }

    lemma UrlsBuiltStep(entries: seq<(string, string)>, requested: seq<string>, url: string, survey: string,
                        year: int, geography: string, state: string)
      requires UrlsBuilt(entries, requested, survey, year, geography, state) && |requested| < |entries|
      requires MakeApiUrl(year, survey, entries[|requested|].0, geography, state) == Success(url)
      ensures UrlsBuilt(entries, requested + [url], survey, year, geography, state)
    {
      var next := requested + [url];
      forall k | 0 <= k < |next|
        ensures MakeApiUrl(year, survey, entries[k].0, geography, state) == Success(next[k])
      {
        if k < |requested| {
          assert next[k] == requested[k];
        } else {
          assert k == |requested| && next[k] == url;
        }
      }
    }

    /**
     * The request loop of `get_acs`, one table per iteration. The loop stops at the
     * first URL that cannot be built, with nothing requested for it, or at the first
     * response that cannot be converted, which is then the last one requested; the
     * ghost `frames` are the conversions of the responses before the stop.
     */
    method FetchTables(api: string -> ApiResponse, entries: seq<(string, string)>, survey: string, year: int,
                       geography: string, state: string)
      returns (r: Result<Option<seq<TableFrame>>>, requested: seq<string>, ghost frames: seq<TableFrame>)
      ensures UrlsBuilt(entries, requested, survey, year, geography, state)
      ensures ResponsesConverted(api, entries, requested, frames)
      ensures r.Success? ==> |frames| == |entries| && r.value == (if frames == [] then None else Some(frames))
      ensures r.Failure? && |frames| < |requested| ==>
        |frames| == |requested| - 1 && ApiReturnToFrame(api(requested[|frames|]), entries[|frames|].1) == Failure(r.error)
      ensures r.Failure? && |frames| == |requested| ==>
        |requested| < |entries| && MakeApiUrl(year, survey, entries[|requested|].0, geography, state) == Failure(r.error)
    {
      requested := [];
      frames := [];
      var merged: seq<TableFrame> := [];
      for i := 0 to |entries|
        invariant |requested| == i && merged == frames
        invariant UrlsBuilt(entries, requested, survey, year, geography, state)
        invariant ResponsesConverted(api, entries, requested, frames) && |frames| == i
      {
        var url := MakeApiUrl(year, survey, entries[i].0, geography, state);
        if url.Failure? {
          return Failure(url.error), requested, frames;
        }
        UrlsBuiltStep(entries, requested, url.value, survey, year, geography, state);
        ResponsesConvertedMore(api, entries, requested, frames, url.value);
        requested := requested + [url.value];
        var frame := ApiReturnToFrame(api(url.value), entries[i].1);
        if frame.Failure? {
          return Failure(frame.error), requested, frames;
        }
        ResponsesConvertedStep(api, entries, requested, frames, frame.value);
        merged := merged + [frame.value];
        frames := frames + [frame.value];
      }
      r := Success(if merged == [] then None else Some(merged));
    }

    /**
     * `get_acs`: validates the survey and the tables argument, then runs the request
     * loop over the normalised tables.
     */
    method GetAcs(api: string -> ApiResponse, tables: Tables, survey: string, year: int,
                  geography: string, state: string)
      returns (r: Result<Option<seq<TableFrame>>>, requested: seq<string>)
      requires tables.TableDict? ==> DistinctKeys(tables.entries)
      ensures survey !in ACCEPTED_SURVEYS ==> r == Failure(SURVEY_ERROR) && requested == []
      ensures survey in ACCEPTED_SURVEYS && tables.OtherKind? ==> r == Failure(TYPE_ERROR) && requested == []
      ensures r.Success? ==>
        var entries := NormaliseTables(tables).value;
        && |requested| == |entries|
        && (forall i :: 0 <= i < |entries| ==>
              MakeApiUrl(year, survey, entries[i].0, geography, state) == Success(requested[i]))
        && (r.value.None? <==> entries == [])
        && (r.value.Some? ==> |r.value.value| == |entries|)
        && (r.value.Some? ==> forall i :: 0 <= i < |entries| ==>
              ApiReturnToFrame(api(requested[i]), entries[i].1) == Success(r.value.value[i]))
      ensures survey in ACCEPTED_SURVEYS && !tables.OtherKind? && GeographyAccepted(geography, state)
              && (forall e :: e in NormaliseTables(tables).value ==> AlwaysConverts(api, e.1))
              ==> r.Success?
      ensures survey in ACCEPTED_SURVEYS && !tables.OtherKind? && NormaliseTables(tables).value == []
              ==> r == Success(None)
    {
      requested := [];
      if survey !in ACCEPTED_SURVEYS {
        return Failure(SURVEY_ERROR), requested;
      }
      var normalised := NormaliseTables(tables);
      if normalised.Failure? {
        return Failure(TYPE_ERROR), requested;
      }
      ghost var frames;
      r, requested, frames := FetchTables(api, normalised.value, survey, year, geography, state);
      if r.Failure? && |frames| < |requested| {
        assert normalised.value[|frames|] in normalised.value;
        assert !AlwaysConverts(api, normalised.value[|frames|].1);
      }
    }
  }

  /** The state code list has the 51 codes and includes the District of Columbia. */
  lemma StateFipsShape()
    ensures |STATE_FIPS| == 51
    ensures "11" in STATE_FIPS && "17" in STATE_FIPS
  {
    assert STATE_FIPS[8] == "11" && STATE_FIPS[13] == "17";
  }
}
