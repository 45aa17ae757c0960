/**
 * Extraction of the Place Pulse attribute tables: five tab-separated files are copied
 * out of the archive and rewritten with every `.` in their column names replaced by `_`.
 */
module ExtractMetadata {

  import PlacePulseSegment

  const FILES: seq<string> := ["qscores.tsv", "locations.tsv", "places.tsv", "votes.tsv", "studies.tsv"]

  /** `re.sub(r'\.', '_', name)` */
  function RenameColumn(name: string): (r: string)
    ensures |r| == |name|
    ensures '.' !in r
    ensures forall i :: 0 <= i < |name| && name[i] != '.' ==> r[i] == name[i]
    ensures forall i :: 0 <= i < |name| && name[i] == '.' ==> r[i] == '_'
  {
    if name == [] then []
    else [if name[0] == '.' then '_' else name[0]] + RenameColumn(name[1..])
  }

  /** Renaming twice renames once. */
  lemma RenameIdempotent(name: string)
    ensures RenameColumn(RenameColumn(name)) == RenameColumn(name)
  {
    var once := RenameColumn(name);
    var twice := RenameColumn(once);
    assert forall i :: 0 <= i < |once| ==> once[i] != '.' by {
      forall i | 0 <= i < |once|
        ensures once[i] != '.'
      {
        assert once[i] in once;
      }
    }
  }

  /** A name without a dot is left as it is. */
  lemma RenameKeepsDotless(name: string)
    requires '.' !in name
    ensures RenameColumn(name) == name
  {
    forall i | 0 <= i < |name|
      ensures RenameColumn(name)[i] == name[i]
    {
      assert name[i] in name;
    }
  }

  /** The rename dictionary: every column name mapped to its renamed form. */
  function RenameDict(columns: seq<string>): (d: map<string, string>)
    ensures d.Keys == set c | c in columns
    ensures forall c :: c in d ==> d[c] == RenameColumn(c)
  {
    map c | c in columns :: RenameColumn(c)
  }

  /** `data.rename(rename_dict, axis=1)`: the header with each name replaced by its entry. */
  function RenamedHeader(columns: seq<string>): (r: seq<string>)
    ensures |r| == |columns|
    ensures forall i :: 0 <= i < |columns| ==> r[i] == RenameDict(columns)[columns[i]]
  {
    var d := RenameDict(columns);
    seq(|columns|, i requires 0 <= i < |columns| => d[columns[i]])
  }

  /** No renamed header holds a dot, and renaming a renamed header changes nothing. */
  lemma RenamedHeaderIsClean(columns: seq<string>)
    ensures forall c :: c in RenamedHeader(columns) ==> '.' !in c
    ensures RenamedHeader(RenamedHeader(columns)) == RenamedHeader(columns)
  {
    var once := RenamedHeader(columns);
    forall i | 0 <= i < |once|
      ensures RenamedHeader(once)[i] == once[i]
    {
      RenameIdempotent(columns[i]);
    }
  }

  /**
   * The cleaning loop over `FILES`: each file's header is read, renamed and written
   * back; the result lists the files in the order they are rewritten with their headers.
   */
  method CleanFiles(header: string -> seq<string>) returns (written: seq<(string, seq<string>)>)
    ensures |written| == |FILES|
    ensures forall i :: 0 <= i < |FILES| ==> written[i] == (FILES[i], RenamedHeader(header(FILES[i])))
  {
    written := [];
    for i := 0 to |FILES|
      invariant |written| == i
      invariant forall k :: 0 <= k < i ==> written[k] == (FILES[k], RenamedHeader(header(FILES[k])))
    {
      var columns := header(FILES[i]);
      var renameDict := RenameDict(columns);
      var renamed := seq(|columns|, j requires 0 <= j < |columns| => renameDict[columns[j]]);
      written := written + [(FILES[i], renamed)];
    }
  }

  /**
   * Exactly five distinct tab-separated files are processed, and none of them is an
   * image the Place Pulse segmentation would pick up.
   */
  lemma FilesAreTheScoreTables()
    ensures |FILES| == 5
    ensures forall i, j :: 0 <= i < j < |FILES| ==> FILES[i] != FILES[j]
    ensures forall f :: f in FILES ==> !PlacePulseSegment.IsRelevantFile(f)
  {
    PlacePulseSegment.TsvIrrelevant("qscores", "");
    PlacePulseSegment.TsvIrrelevant("locations", "");
    PlacePulseSegment.TsvIrrelevant("places", "");
    PlacePulseSegment.TsvIrrelevant("votes", "");
    PlacePulseSegment.TsvIrrelevant("studies", "");
    assert "qscores" + ".tsv" + "" == FILES[0];
    assert "locations" + ".tsv" + "" == FILES[1];
    assert "places" + ".tsv" + "" == FILES[2];
    assert "votes" + ".tsv" + "" == FILES[3];
    assert "studies" + ".tsv" + "" == FILES[4];
  }
}
