/**
 * Acquisition and splitting of the 2023 crime records: 270 pages of 1000 rows are
 * fetched, concatenated and stripped of identical rows; after the tract join the
 * rows are split into a violent-crime table and a narcotics table.
 */
module GetCleanCrime {

  import Frames

  /** One crime record as the query returns it; numbers, flags and coordinates are kept as their text. */
  datatype Crime = Crime(
    id: string,
    caseNumber: string,
    date: string,
    iucr: string,
    primaryType: string,
    description: string,
    locationDescription: string,
    arrest: string,
    domestic: string,
    beat: string,
    district: string,
    ward: string,
    communityArea: string,
    fbiCode: string,
    year: string,
    latitude: string,
    longitude: string)

  const VIOLENT_CRIMES: seq<string> := [
    "BATTERY", "HOMICIDE", "ASSAULT", "ROBBERY",
    "CRIMINAL SEXUAL ASSAULT", "SEX OFFENSE", "KIDNAPPING",
    "HUMAN TRAFFICKING"
  ]

  const NARCOTICS: seq<string> := ["NARCOTICS", "OTHER NARCOTIC VIOLATION"]

  /** No primary type is both violent and a narcotics offence. */
  lemma CategoriesDisjoint()
    ensures forall t :: t in VIOLENT_CRIMES ==> t !in NARCOTICS
  {
  }

  /** The page numbers submitted to the thread pool: `range(270)`. */
  function Offsets(): seq<nat> {
    Frames.Interval(0, 270)
  }

  /** The fetch loop: one task per page, each appending its page to the list it is given. */
  method GrabCrimes(fetch: nat -> seq<Crime>, pds: Frames.PageList<Crime>)
    modifies pds
    ensures pds.pages == old(pds.pages) + Frames.Pages(fetch, Offsets())
  {
    Frames.GrabPages(fetch, Offsets(), pds);
  }

  /** Every page from 0 to 269 is requested exactly once, and no other page is. */
  lemma PagesEachOnce(p: nat)
    ensures Frames.Count(Offsets(), p) == if p < 270 then 1 else 0
  {
    Frames.IntervalCount(0, 270, p);
  }

  /** `pd.concat(pds).drop_duplicates()`: one copy of each distinct row, in the order of first occurrence. */
  function Deduplicated(pds: seq<seq<Crime>>): (df: seq<Crime>)
    ensures forall i, j :: 0 <= i < j < |df| ==> df[i] != df[j]
    ensures forall x :: x in df <==> x in Frames.Flatten(pds)
    ensures Frames.Subseq(df, Frames.Flatten(pds))
    ensures forall i, j :: 0 <= i < j < |df| ==>
      Frames.FirstKeyIndex(Frames.Flatten(pds), (c: Crime) => c, df[i])
      < Frames.FirstKeyIndex(Frames.Flatten(pds), (c: Crime) => c, df[j])
  {
    var all := Frames.Flatten(pds);
    var df := Frames.DropDuplicates(all, (c: Crime) => c);
    Frames.DropDuplicatesIsSubseq(all, (c: Crime) => c, {});
    Frames.DropDuplicatesOrder(all, (c: Crime) => c, {});
    assert forall x :: x in all ==> x in Frames.Keys(all, (c: Crime) => c);
    df
  }

  predicate IsViolent(c: Crime) { c.primaryType in VIOLENT_CRIMES }
  predicate IsNarcotic(c: Crime) { c.primaryType in NARCOTICS }

  /** `gdf[gdf['primary_type'].isin(VIOLENT_CRIMES)]` and the same for `NARCOTICS`. */
  function Split(gdf: seq<Crime>): (r: (seq<Crime>, seq<Crime>)) {
    (Frames.Filter(gdf, IsViolent), Frames.Filter(gdf, IsNarcotic))
  }

  /**
   * The two outputs: every violent row has a violent primary type and every narcotic
   * row a narcotics one; a row of the joined table lands in the violent output exactly
   * when its type is violent and likewise for narcotics; no row lands in both; each
   * output keeps the joined table's order; together they hold at most its rows.
   */
  lemma SplitIsDisjoint(gdf: seq<Crime>)
    ensures var (violent, narcotic) := Split(gdf);
      && (forall c :: c in violent <==> c in gdf && c.primaryType in VIOLENT_CRIMES)
      && (forall c :: c in narcotic <==> c in gdf && c.primaryType in NARCOTICS)
      && (forall c :: c in violent ==> c !in narcotic)
      && Frames.Subseq(violent, gdf) && Frames.Subseq(narcotic, gdf)
      && |violent| + |narcotic| <= |gdf|
  {
    CategoriesDisjoint();
    Frames.FilterIsSubseq(gdf, IsViolent);
    Frames.FilterIsSubseq(gdf, IsNarcotic);
    Frames.DisjointFiltersFit(gdf, IsViolent, IsNarcotic);
  }
}
