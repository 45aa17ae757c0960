/**
 * Acquisition and cleaning of the 2023 311 service requests: pages of 1000 rows are
 * fetched from the city's open data portal, concatenated, deduplicated by request
 * number, filtered, and labelled with a disorder class from a classification table.
 */
module GetClean311 {

  import opened Wrappers
  import Frames

  /** One 311 request as the query returns it; coordinates and dates are kept as their text. */
  datatype Request = Request(
    srNumber: string,
    srType: string,
    srShortCode: string,
    createdDate: string,
    duplicate: Option<bool>,   // None when the portal leaves the flag empty
    communityArea: string,
    latitude: string,
    longitude: string)

  /** A request with its `disorder_class` column attached. */
  datatype Classified = Classified(request: Request, disorderClass: string)

  const MISSING := "MISSING"
  const INFO_ONLY := "311IOC"

  /** The page numbers handed to the thread pool: `range(1, 1800)`. */
  function Offsets(): seq<nat> {
    Frames.Interval(1, 1800)
  }

  /** The fetch loop: one page per offset, appended to the shared page list. */
  method Grab311s(fetch: nat -> seq<Request>, pds: Frames.PageList<Request>)
    modifies pds
    ensures pds.pages == old(pds.pages) + Frames.Pages(fetch, Offsets())
  {
    Frames.GrabPages(fetch, Offsets(), pds);
  }

  /**
   * The first page (rows 0 to 999 of the query) is never requested, while every
   * later page up to page 1799 is requested exactly once.
   */
  lemma FirstPageNeverRequested(p: nat)
    ensures Frames.Count(Offsets(), p) == if 1 <= p < 1800 then 1 else 0
    ensures Frames.Count(Offsets(), 0) == 0
  {
    Frames.IntervalCount(1, 1800, p);
    Frames.IntervalCount(1, 1800, 0);
  }

  /** The page numbers the fetch evidently means to cover: `range(0, 1800)`. */
  function IntendedOffsets(): seq<nat> {
    Frames.Interval(0, 1800)
  }

  /** With the corrected range every page from 0 to 1799 is requested exactly once. */
  lemma IntendedPagesEachOnce(p: nat)
    ensures Frames.Count(IntendedOffsets(), p) == if p < 1800 then 1 else 0
  {
    Frames.IntervalCount(0, 1800, p);
  }

  /** The corrected fetch loop, starting at page 0. */
  method Grab311sIntended(fetch: nat -> seq<Request>, pds: Frames.PageList<Request>)
    modifies pds
    ensures pds.pages == old(pds.pages) + Frames.Pages(fetch, IntendedOffsets())
  {
    Frames.GrabPages(fetch, IntendedOffsets(), pds);
  }

  /** `request_classes.get(code, 'MISSING')` */
  function ClassOf(classes: map<string, string>, code: string): (c: string)
    ensures code in classes ==> c == classes[code]
    ensures code !in classes ==> c == MISSING
  {
    if code in classes then classes[code] else MISSING
  }

  /** The `disorder_class` column: every request with its class, in order. */
  function AttachClasses(df: seq<Request>, classes: map<string, string>): (r: seq<Classified>)
    ensures |r| == |df|
    ensures forall i :: 0 <= i < |df| ==> r[i] == Classified(df[i], ClassOf(classes, df[i].srShortCode))
  {
    if df == [] then [] else [Classified(df[0], ClassOf(classes, df[0].srShortCode))] + AttachClasses(df[1..], classes)
  }

  function Requests(cs: seq<Classified>): seq<Request> {
    if cs == [] then [] else [cs[0].request] + Requests(cs[1..])
  }

  predicate NotFlagged(r: Request) { r.duplicate != Some(true) }
  predicate NotInfoOnly(r: Request) { r.srShortCode != INFO_ONLY }
  predicate HasClass(c: Classified) { c.disorderClass != MISSING }

  /** The cleaning chain applied to the concatenated pages. */
  function Clean(pds: seq<seq<Request>>, classes: map<string, string>): seq<Classified> {
    var df := Frames.DropDuplicates(Frames.Flatten(pds), (r: Request) => r.srNumber);
    var df := Frames.Filter(df, NotFlagged);
    var df := Frames.Filter(df, NotInfoOnly);
    Frames.Filter(AttachClasses(df, classes), HasClass)
  }

  /** Attaching classes and dropping the `MISSING` ones keeps exactly the classified requests, in order. */
  lemma {:induction false} ClassifiedRequests(df: seq<Request>, classes: map<string, string>)
    ensures Requests(Frames.Filter(AttachClasses(df, classes), HasClass))
         == Frames.Filter(df, (r: Request) => ClassOf(classes, r.srShortCode) != MISSING)
  {
    if df != [] {
      ClassifiedRequests(df[1..], classes);
      assert AttachClasses(df, classes)[1..] == AttachClasses(df[1..], classes);
      var head := Classified(df[0], ClassOf(classes, df[0].srShortCode));
      Frames.FilterAppend([head], AttachClasses(df[1..], classes), HasClass);
      assert AttachClasses(df, classes) == [head] + AttachClasses(df[1..], classes);
      if HasClass(head) {
        assert Frames.Filter(AttachClasses(df, classes), HasClass)
            == [head] + Frames.Filter(AttachClasses(df[1..], classes), HasClass);
      } else {
        assert Frames.Filter(AttachClasses(df, classes), HasClass)
            == Frames.Filter(AttachClasses(df[1..], classes), HasClass);
      }
    }
  }

  /**
   * Every row of the cleaned table is neither flagged as a duplicate nor an info-only
   * call, and its class is the classification table's entry for its short code, never
   * `MISSING`.
   */
  lemma CleanRowsPassFilters(pds: seq<seq<Request>>, classes: map<string, string>)
    ensures forall c :: c in Clean(pds, classes) ==>
      && c.request.duplicate != Some(true)
      && c.request.srShortCode != INFO_ONLY
      && c.request.srShortCode in classes
      && c.disorderClass == classes[c.request.srShortCode]
      && c.disorderClass != MISSING
  {
    var d0 := Frames.DropDuplicates(Frames.Flatten(pds), (r: Request) => r.srNumber);
    var d1 := Frames.Filter(d0, NotFlagged);
    var d2 := Frames.Filter(d1, NotInfoOnly);
    var attached := AttachClasses(d2, classes);
    forall c | c in Clean(pds, classes)
      ensures c.request in d2 && c.disorderClass == ClassOf(classes, c.request.srShortCode) && HasClass(c)
    {
      assert c in attached && HasClass(c);
      var i :| 0 <= i < |attached| && attached[i] == c;
      assert c.request == d2[i];
    }
  }

  /**
   * Request numbers are unique in the cleaned table, and its requests form a
   * subsequence of the concatenated pages: rows are dropped, never reordered or
   * modified.
   */
  lemma CleanKeepsOrder(pds: seq<seq<Request>>, classes: map<string, string>)
    ensures var out := Requests(Clean(pds, classes));
      && (forall i, j :: 0 <= i < j < |out| ==> out[i].srNumber != out[j].srNumber)
      && Frames.Subseq(out, Frames.Flatten(pds))
  {
    var all := Frames.Flatten(pds);
    var key := (r: Request) => r.srNumber;
    var d0 := Frames.DropDuplicates(all, key);
    var d1 := Frames.Filter(d0, NotFlagged);
    var d2 := Frames.Filter(d1, NotInfoOnly);
    var kept := (r: Request) => ClassOf(classes, r.srShortCode) != MISSING;
    ClassifiedRequests(d2, classes);
    Frames.DropDuplicatesIsSubseq(all, key, {});
    Frames.FilterIsSubseq(d0, NotFlagged);
    Frames.FilterIsSubseq(d1, NotInfoOnly);
    Frames.FilterIsSubseq(d2, kept);
    Frames.SubseqTransitive(d2, d1, d0);
    Frames.SubseqTransitive(Frames.Filter(d2, kept), d2, d0);
    UniqueKeysSubseq(Frames.Filter(d2, kept), d0, key);
    Frames.SubseqTransitive(Frames.Filter(d2, kept), d0, all);
  }

  /**
   * Conversely, the first request carrying each request number survives, with its
   * class, whenever it is not flagged, not info-only and its code has a class.
   */
  lemma CleanKeepsFirstClassified(pds: seq<seq<Request>>, classes: map<string, string>, i: nat)
    requires i < |Frames.Flatten(pds)|
    requires forall j :: 0 <= j < i ==> Frames.Flatten(pds)[j].srNumber != Frames.Flatten(pds)[i].srNumber
    requires NotFlagged(Frames.Flatten(pds)[i]) && NotInfoOnly(Frames.Flatten(pds)[i])
    requires ClassOf(classes, Frames.Flatten(pds)[i].srShortCode) != MISSING
    ensures Classified(Frames.Flatten(pds)[i], ClassOf(classes, Frames.Flatten(pds)[i].srShortCode)) in Clean(pds, classes)
  {
    var all := Frames.Flatten(pds);
    var r := all[i];
    var d0 := Frames.DropDuplicates(all, (r: Request) => r.srNumber);
    Frames.DropDuplicatesKeepsFirst(all, (r: Request) => r.srNumber, {}, i);
    var d2 := Frames.Filter(Frames.Filter(d0, NotFlagged), NotInfoOnly);
    assert r in d2;
    var k :| 0 <= k < |d2| && d2[k] == r;
    assert AttachClasses(d2, classes)[k] == Classified(r, ClassOf(classes, r.srShortCode));
  }

  /**
   * `drop_duplicates` runs before the filters, so a request survives only as the first
   * request carrying its number: when that first one is flagged, info-only or
   * unclassified, no later copy takes its place.
   */
  lemma CleanKeepsOnlyFirst(pds: seq<seq<Request>>, classes: map<string, string>)
    ensures var all := Frames.Flatten(pds);
      forall req :: req in Requests(Clean(pds, classes)) ==>
        var i := Frames.FirstKeyIndex(all, (r: Request) => r.srNumber, req.srNumber);
        && i < |all| && all[i] == req
        && forall k :: 0 <= k < i ==> all[k].srNumber != req.srNumber
  {
    var all := Frames.Flatten(pds);
    var key := (r: Request) => r.srNumber;
    var d0 := Frames.DropDuplicates(all, key);
    var d2 := Frames.Filter(Frames.Filter(d0, NotFlagged), NotInfoOnly);
    ClassifiedRequests(d2, classes);
    Frames.DropDuplicatesKeepsOnlyFirst(all, key, {});
    forall req | req in Requests(Clean(pds, classes))
      ensures req in d0
    {
      assert req in Frames.Filter(d2, (r: Request) => ClassOf(classes, r.srShortCode) != MISSING);
    }
    forall req, k | req in Requests(Clean(pds, classes)) && 0 <= k < Frames.FirstKeyIndex(all, key, req.srNumber)
      ensures all[k].srNumber != req.srNumber
    {
      Frames.FirstKeyIndexIsFirst(all, key, req.srNumber, k);
    }
  }

  /** A subsequence of a frame with unique keys has unique keys. */
  lemma {:induction false} UniqueKeysSubseq(a: seq<Request>, b: seq<Request>, key: Request -> string)
    requires Frames.Subseq(a, b)
    requires forall i, j :: 0 <= i < j < |b| ==> key(b[i]) != key(b[j])
    ensures forall i, j :: 0 <= i < j < |a| ==> key(a[i]) != key(a[j])
    decreases |b|
  {
    if a != [] {
      if a[0] == b[0] && Frames.Subseq(a[1..], b[1..]) {
        UniqueKeysSubseq(a[1..], b[1..], key);
        forall j | 0 < j < |a|
          ensures key(a[0]) != key(a[j])
        {
          SubseqMember(a[1..], b[1..], j - 1);
        }
      } else {
        UniqueKeysSubseq(a, b[1..], key);
      }
    }
  }

  lemma {:induction false} SubseqMember(a: seq<Request>, b: seq<Request>, i: nat)
    requires Frames.Subseq(a, b) && i < |a|
    ensures a[i] in b
    decreases |b|
  {
    if a[0] == b[0] && Frames.Subseq(a[1..], b[1..]) {
      if i > 0 {
        SubseqMember(a[1..], b[1..], i - 1);
      }
    } else {
      SubseqMember(a, b[1..], i);
    }
  }
}
