/**
 * What the Street View scripts see of Google's Street View service. A request is
 * described by its endpoint and the parameters that vary between requests; the URL
 * text each script renders for it is defined next to that script. Latitudes and
 * longitudes travel as the decimal text they are rendered to in URLs and CSV cells.
 */
module StreetviewApi {

  import opened Wrappers

  datatype Location = Location(lat: string, lng: string)

  datatype Endpoint = MetadataEndpoint | ImageEndpoint

  datatype Request = Request(endpoint: Endpoint, loc: Location, apiKey: string, heading: int)

  datatype Metadata = Metadata(status: string, date: string, location: Location)

  /** The metadata service: the parsed response to a request, or None when the call raises. */
  type MetadataService = Request -> Option<Metadata>

  /** The image service: the bytes of the image returned for a request. */
  type ImageService = Request -> seq<bv8>
}
