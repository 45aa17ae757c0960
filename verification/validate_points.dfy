/**
 * The metadata pass over the candidate points: one metadata request per point with
 * a random heading, recording the status, and for points with imagery the capture
 * date and the snapped location.
 */
module ValidatePoints {

  import opened Wrappers
  import opened Text
  import opened StreetviewApi
  import LambdaFunction

  const METADATA_URL: string := "https://maps.googleapis.com/maps/api/streetview/metadata?"
  const NA: string := "NA"

  /** `generate_request_url`: the metadata request for a location and heading. */
  function GenerateRequestUrl(apiKey: string, loc: Location, heading: int): string {
    var sizeRq := "size=600x400";
    var headingRq := "heading=" + IntToString(heading);
    var keyRq := "key=" + apiKey;
    var sourceRq := "source=outdoor";
    var returnErrorCodeRq := "return_error_code=true";
    var locRq := "location=" + loc.lat + ", " + loc.lng;
    var parameters := sizeRq + "&" + headingRq + "&" + sourceRq + "&" + returnErrorCodeRq + "&" + keyRq + "&" + locRq;
    METADATA_URL + parameters
  }

  /** The metadata request of this pass is, character for character, the one the Lambda sends. */
  lemma SameUrlAsLambda(apiKey: string, loc: Location, heading: int)
    ensures GenerateRequestUrl(apiKey, loc, heading) == LambdaFunction.GenerateRequestUrl(loc, apiKey, heading, true)
    ensures GenerateRequestUrl(apiKey, loc, heading) == LambdaFunction.Url(Request(MetadataEndpoint, loc, apiKey, heading))
  {
    LambdaFunction.ImageSizeText();
    assert "size=" + LambdaFunction.SizeText(LambdaFunction.IMG_SIZE) == "size=600x400";
  }

  /** A candidate point. */
  datatype Point = Point(id: string, latitude: string, longitude: string)

  /** A row of the metadata table. */
  datatype MetadataRow = MetadataRow(id: string, longitude: string, latitude: string, heading: int, date: string, status: string)

  /** The row recorded for a point, given the heading drawn for it and the metadata response. */
  function RecordRow(point: Point, heading: int, metadata: Metadata): (row: MetadataRow)
    ensures row.id == point.id && row.heading == heading && row.status == metadata.status
    ensures metadata.status != "OK" ==> row.date == NA && row.longitude == NA && row.latitude == NA
    ensures metadata.status == "OK" ==>
      row.date == metadata.date && row.longitude == metadata.location.lng && row.latitude == metadata.location.lat
  {
    if metadata.status != "OK" then MetadataRow(point.id, NA, NA, heading, NA, metadata.status)
    else MetadataRow(point.id, metadata.location.lng, metadata.location.lat, heading, metadata.date, metadata.status)
  }

  /** The metadata request for a point. */
  function CheckRequest(point: Point, apiKey: string, heading: int): Request {
    Request(MetadataEndpoint, Location(point.latitude, point.longitude), apiKey, heading)
  }

  /** The six columns the pass collects, in the order the table names them. */
  datatype Columns = Columns(ids: seq<string>, lons: seq<string>, lats: seq<string>,
                             headings: seq<int>, dates: seq<string>, status: seq<string>)
  {
    predicate Aligned(n: nat) {
      |ids| == n && |lons| == n && |lats| == n && |headings| == n && |dates| == n && |status| == n
    }

    function Row(k: nat): MetadataRow
      requires k < |ids| && Aligned(|ids|)
    {
      MetadataRow(ids[k], lons[k], lats[k], headings[k], dates[k], status[k])
    }
  }

  /**
   * The main loop: for each point in order, the metadata request with the heading
   * drawn for it (`headings[k]`, drawn uniformly from 0 to 359), and the row recorded
   * from the response. A response the script cannot read aborts the pass, and no
   * table is written.
   */
  method ValidatePointList(points: seq<Point>, headings: seq<int>, service: MetadataService, apiKey: string)
    returns (r: Result<Columns>)
    requires |headings| == |points|
    requires forall k :: 0 <= k < |headings| ==> 0 <= headings[k] < 360
    ensures r.Success? <==> forall k :: 0 <= k < |points| ==> service(CheckRequest(points[k], apiKey, headings[k])).Some?
    ensures r.Success? ==> r.value.Aligned(|points|)
    ensures r.Success? ==> forall k :: 0 <= k < |points| ==>
      r.value.Row(k) == RecordRow(points[k], headings[k], service(CheckRequest(points[k], apiKey, headings[k])).value)
  {
    var lons, lats, ids, status, hs, dates := [], [], [], [], [], [];
    for i := 0 to |points|
      invariant forall k :: 0 <= k < i ==> service(CheckRequest(points[k], apiKey, headings[k])).Some?
      invariant Columns(ids, lons, lats, hs, dates, status).Aligned(i)
      invariant forall k :: 0 <= k < i ==>
        Columns(ids, lons, lats, hs, dates, status).Row(k)
        == RecordRow(points[k], headings[k], service(CheckRequest(points[k], apiKey, headings[k])).value)
    {
      var heading := headings[i];
      var response := service(CheckRequest(points[i], apiKey, heading));
      if response.None? {
        return Failure("KeyError");
      }
      var metadata := response.value;
      if metadata.status != "OK" {
        hs := hs + [heading];
        status := status + [metadata.status];
        dates := dates + [NA];
        lons := lons + [NA];
        lats := lats + [NA];
        ids := ids + [points[i].id];
        continue;
      }
      hs := hs + [heading];
      status := status + [metadata.status];
      dates := dates + [metadata.date];
      ids := ids + [points[i].id];
      lons := lons + [metadata.location.lng];
      lats := lats + [metadata.location.lat];
    }
    r := Success(Columns(ids, lons, lats, hs, dates, status));
  }
}
