/**
 * Geocoding through the Google Maps geocoder with one city-level fallback, and the
 * batch wrapper that keeps ids aligned with their coordinates. The geocoder itself
 * is an oracle from a request to the locations of its results, in result order.
 */
module GeocodeFren {

  import opened Wrappers
  import opened Text

  const GEOCODE_URL: string := "https://maps.googleapis.com/maps/api/geocode/json"
  const IDS_ERROR: string := "ids list must be same length as addresses"
  const ADDRESS_COLUMN_ERROR: string := "DataFrame must have 'address' column"
  const STATE_COLUMN_ERROR: string := "DataFrame must have 'state' column"
  const CITY_COLUMN_ERROR: string := "DataFrame must have 'city' column"
  const TYPE_ERROR: string := "TypeError"
  const KEY_ERROR: string := "KeyError"

  datatype LatLng = LatLng(lat: real, lng: real)

  /** Returned when neither the address nor its city and state can be geocoded. */
  const SENTINEL: LatLng := LatLng(-999.0, -999.0)

  /** The query parameters of one geocoding request. */
  datatype GeocodeRequest = GeocodeRequest(sensor: string, address: string, key: string)

  /** The geocoder: the `(lat, lng)` of each result of a request, in result order. */
  type Geocoder = GeocodeRequest -> seq<LatLng>

  /** A geocoded point together with the requests made to obtain it, in order. */
  datatype Geocoded = Geocoded(location: LatLng, requests: seq<GeocodeRequest>)

  /** The `addresses` argument: a list of (address, city, state) tuples or a DataFrame. */
  datatype Addresses =
    | Tuples(items: seq<(string, string, string)>)
    | Frame(columns: set<string>, rows: seq<map<string, string>>)
  {
    function Length(): nat {
      if Tuples? then |items| else |rows|
    }

    /** Every row of a DataFrame has exactly the frame's columns. */
    predicate WellFormed() {
      Frame? ==> forall i :: 0 <= i < |rows| ==> rows[i].Keys == columns
    }
  }

  /** The `ids` argument: None, a list of ids, or the name of an id column. */
  datatype Ids = NoIds | IdList(values: seq<string>) | IdColumn(column: string) {
    /** Python truthiness of the argument. */
    predicate Falsy() {
      NoIds? || (IdList? && values == []) || (IdColumn? && column == "")
    }
  }

  datatype CoordinateTable = CoordinateTable(id: seq<string>, lat: seq<real>, long: seq<real>)

  /** The (address, city, state) tuples the wrapper iterates over. */
  function AddressTuples(addresses: Addresses): (r: seq<(string, string, string)>)
    requires addresses.WellFormed()
    requires addresses.Frame? ==> {"Address", "City", "State"} <= addresses.columns
    ensures |r| == addresses.Length()
  {
    match addresses
    case Tuples(items) => items
    case Frame(columns, rows) =>
      seq(|rows|, i requires 0 <= i < |rows| => (rows[i]["Address"], rows[i]["City"], rows[i]["State"]))
  }

  /**
   * The argument checks and id resolution of `geocode_addresses`: the ids paired with
   * the tuples they label (the loop zips the two, so the shorter one bounds it).
   */
  function ResolveInputs(addresses: Addresses, ids: Ids): (r: Result<(seq<string>, seq<(string, string, string)>)>)
    requires addresses.WellFormed()
    ensures ids.IdList? && ids.values != [] && |ids.values| != addresses.Length() ==> r == Failure(IDS_ERROR)
    ensures (addresses.Frame? && "Address" !in addresses.columns
             && (ids.Falsy() || ids.IdColumn? || |ids.values| == addresses.Length()))
            ==> r == Failure(ADDRESS_COLUMN_ERROR)
    ensures (addresses.Frame? && "Address" in addresses.columns && "State" !in addresses.columns
             && (ids.Falsy() || ids.IdColumn? || |ids.values| == addresses.Length()))
            ==> r == Failure(STATE_COLUMN_ERROR)
    ensures (addresses.Frame? && "Address" in addresses.columns && "State" in addresses.columns
             && "City" !in addresses.columns
             && (ids.Falsy() || ids.IdColumn? || |ids.values| == addresses.Length()))
            ==> r == Failure(CITY_COLUMN_ERROR)
    ensures ids.IdColumn? && addresses.Tuples? ==> r == Failure(TYPE_ERROR)
    ensures (ids.IdColumn? && addresses.Frame? && {"Address", "City", "State"} <= addresses.columns
             && ids.column !in addresses.columns)
            ==> r == Failure(KEY_ERROR)
    ensures r.Success? <==>
      && (ids.Falsy() || ids.IdColumn? || |ids.values| == addresses.Length())
      && (addresses.Frame? ==> {"Address", "City", "State"} <= addresses.columns)
      && (ids.IdColumn? ==> addresses.Frame? && ids.column in addresses.columns)
    ensures r.Success? ==> |r.value.1| == addresses.Length()
    ensures r.Success? && ids.NoIds? ==>
      && |r.value.0| == |r.value.1|
      && forall k :: 0 <= k < |r.value.1| ==>
           r.value.0[k] == JoinSpaces([r.value.1[k].0, r.value.1[k].1, r.value.1[k].2])
    ensures r.Success? && ids.IdList? ==> r.value.0 == ids.values
    ensures r.Success? && ids.IdColumn? ==>
      && addresses.Frame? && ids.column in addresses.columns
      && |r.value.0| == |r.value.1|
      && forall k :: 0 <= k < |r.value.0| ==> r.value.0[k] == addresses.rows[k][ids.column]
    ensures r.Success? && addresses.Tuples? ==> r.value.1 == addresses.items
  {
    if !(ids.Falsy() || ids.IdColumn? || |ids.values| == addresses.Length()) then Failure(IDS_ERROR)
    else if addresses.Frame? && "Address" !in addresses.columns then Failure(ADDRESS_COLUMN_ERROR)
    else if addresses.Frame? && "State" !in addresses.columns then Failure(STATE_COLUMN_ERROR)
    else if addresses.Frame? && "City" !in addresses.columns then Failure(CITY_COLUMN_ERROR)
    else if ids.IdColumn? && addresses.Tuples? then Failure(TYPE_ERROR)
    else if ids.IdColumn? && ids.column !in addresses.columns then Failure(KEY_ERROR)
    else
      var tuples := AddressTuples(addresses);
      var idValues :=
        match ids
        case NoIds => seq(|tuples|, k requires 0 <= k < |tuples| => JoinSpaces([tuples[k].0, tuples[k].1, tuples[k].2]))
        case IdList(values) => values
        case IdColumn(column) => seq(|addresses.rows|, k requires 0 <= k < |addresses.rows| => addresses.rows[k][column]);
      Success((idValues, tuples))
  }

  /** The geocoding helper; it holds the API key every request carries. */
  class GeocodeFren {
    const apiKey: string

    constructor (apiKey: string)
      ensures this.apiKey == apiKey
    {
      this.apiKey := apiKey;
    }

    /** The request for an address: `sensor=false`, the three parts joined by spaces, the key. */
    function Request(address: string, city: string, state: string): (q: GeocodeRequest)
      ensures q.sensor == "false" && q.key == apiKey
      ensures q.address == address + " " + city + " " + state
    {
      GeocodeRequest("false", address + " " + city + " " + state, apiKey)
    }

    /**
     * `geocode_point`: the first result's location; with no result, a retry at city and
     * state level when an address was given, and the sentinel otherwise.
     */
    function GeocodePoint(geocoder: Geocoder, address: string, city: string, state: string): (r: Geocoded)
      decreases if address == "" then 0 else 1
      ensures 1 <= |r.requests| <= 2
      ensures r.requests[0] == Request(address, city, state)
      ensures |r.requests| == 2 ==> address != "" && r.requests[1] == Request("", city, state)
      ensures r.location == SENTINEL
              || exists i :: 0 <= i < |r.requests| && geocoder(r.requests[i]) != [] && r.location == geocoder(r.requests[i])[0]
    {
      var q := Request(address, city, state);
      var results := geocoder(q);
      if results != [] then Geocoded(results[0], [q])
      else if address == "" then Geocoded(SENTINEL, [q])
      else
        var fallback := GeocodePoint(geocoder, "", city, state);
        Geocoded(fallback.location, [q] + fallback.requests)
    }

    /** With at least one result, the first result's location is returned after one request. */
    lemma GeocodeFirstResult(geocoder: Geocoder, address: string, city: string, state: string)
      requires geocoder(Request(address, city, state)) != []
      ensures GeocodePoint(geocoder, address, city, state)
              == Geocoded(geocoder(Request(address, city, state))[0], [Request(address, city, state)])
    {
    }

    /** With no result for a full address, the answer is the city-and-state lookup. */
    lemma GeocodeFallback(geocoder: Geocoder, address: string, city: string, state: string)
      requires geocoder(Request(address, city, state)) == [] && address != ""
      ensures GeocodePoint(geocoder, address, city, state).location == GeocodePoint(geocoder, "", city, state).location
      ensures GeocodePoint(geocoder, address, city, state).requests
              == [Request(address, city, state), Request("", city, state)]
    {
      if geocoder(Request("", city, state)) != [] {
        GeocodeFirstResult(geocoder, "", city, state);
      }
    }

    /** Nothing found at any granularity: the sentinel, after at most the one documented retry. */
    lemma GeocodeSentinel(geocoder: Geocoder, address: string, city: string, state: string)
      requires geocoder(Request(address, city, state)) == []
      requires geocoder(Request("", city, state)) == []
      ensures GeocodePoint(geocoder, address, city, state).location == SENTINEL
      ensures GeocodePoint(geocoder, address, city, state).requests
              == if address == "" then [Request("", city, state)]
                 else [Request(address, city, state), Request("", city, state)]
    {
      if address != "" {
        GeocodeFallback(geocoder, address, city, state);
      }
    }

    /** The first `|lat|` tuples are geocoded, in order, into the `lat` and `long` columns. */
    predicate Located(geocoder: Geocoder, tuples: seq<(string, string, string)>, lat: seq<real>, long: seq<real>)
    {
      && |lat| == |long| <= |tuples|
      && forall j :: 0 <= j < |lat| ==>
           LatLng(lat[j], long[j]) == GeocodePoint(geocoder, tuples[j].0, tuples[j].1, tuples[j].2).location
    }

    lemma LocatedStep(geocoder: Geocoder, tuples: seq<(string, string, string)>, lat: seq<real>, long: seq<real>,
                      location: LatLng)
      requires Located(geocoder, tuples, lat, long) && |lat| < |tuples|
      requires location == GeocodePoint(geocoder, tuples[|lat|].0, tuples[|lat|].1, tuples[|lat|].2).location
      ensures Located(geocoder, tuples, lat + [location.lat], long + [location.lng])
    {
      var lat', long' := lat + [location.lat], long + [location.lng];
      forall j | 0 <= j < |lat'|
        ensures LatLng(lat'[j], long'[j]) == GeocodePoint(geocoder, tuples[j].0, tuples[j].1, tuples[j].2).location
      {
        if j < |lat| {
          assert lat'[j] == lat[j] && long'[j] == long[j];
        } else {
          assert j == |lat| && LatLng(lat'[j], long'[j]) == location;
        }
      }
    }

    /**
     * `geocode_addresses`: checks the arguments, resolves the ids, then geocodes each
     * (id, address) pair of the zip in order, appending id, lat and long together.
     */
    method GeocodeAddresses(geocoder: Geocoder, addresses: Addresses, ids: Ids)
      returns (r: Result<CoordinateTable>, requests: seq<GeocodeRequest>)
      requires addresses.WellFormed()
      ensures r.Success? <==> ResolveInputs(addresses, ids).Success?
      ensures r.Success? ==>
        var (idValues, tuples) := ResolveInputs(addresses, ids).value;
        var n := if |idValues| < |tuples| then |idValues| else |tuples|;
        && |r.value.id| == n && |r.value.lat| == n && |r.value.long| == n
        && (forall k :: 0 <= k < n ==> r.value.id[k] == idValues[k])
        && (forall k :: 0 <= k < n ==>
              LatLng(r.value.lat[k], r.value.long[k])
              == GeocodePoint(geocoder, tuples[k].0, tuples[k].1, tuples[k].2).location)
        && n <= |requests| <= 2 * n
      ensures r.Failure? ==> requests == []
      ensures ids == IdList([]) && r.Success? ==> r.value == CoordinateTable([], [], [])
    {
      requests := [];
      var resolved := ResolveInputs(addresses, ids);
      if resolved.Failure? {
        return resolved.PropagateFailure(), requests;
      }
      var (idValues, tuples) := resolved.value;
      var n := if |idValues| < |tuples| then |idValues| else |tuples|;
      var idColumn, latColumn, longColumn := [], [], [];
      for k := 0 to n
        invariant |idColumn| == k && |latColumn| == k && |longColumn| == k
        invariant forall j :: 0 <= j < k ==> idColumn[j] == idValues[j]
        invariant Located(geocoder, tuples, latColumn, longColumn)
        invariant k <= |requests| <= 2 * k
      {
        var (address, city, state) := tuples[k];
        var point := GeocodePoint(geocoder, address, city, state);
        LocatedStep(geocoder, tuples, latColumn, longColumn, point.location);
        requests := requests + point.requests;
        latColumn := latColumn + [point.location.lat];
        longColumn := longColumn + [point.location.lng];
        idColumn := idColumn + [idValues[k]];
      }
      r := Success(CoordinateTable(idColumn, latColumn, longColumn));
    }
  }
}
