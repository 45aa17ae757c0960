/**
 * The image-scraping Lambda: Street View request URLs, the metadata check, and the
 * handler that fetches and uploads an image for each request that passes the check.
 */
module LambdaFunction {

  import opened Wrappers
  import opened Text
  import opened StreetviewApi
  import Frames

  const METADATA_URL: string := "https://maps.googleapis.com/maps/api/streetview/metadata?"
  const IMAGE_URL: string := "https://maps.googleapis.com/maps/api/streetview?"
  const IMG_SIZE: (nat, nat) := (600, 400)
  const BUCKET: string := "chicago-places-buckette"

  /** The query parameters, in the order the handler sends them. */
  function Parameters(loc: Location, apiKey: string, heading: int): string {
    var sizeRq := "size=" + SizeText(IMG_SIZE);
    var headingRq := "heading=" + IntToString(heading);
    var keyRq := "key=" + apiKey;
    var sourceRq := "source=outdoor";
    var returnErrorCodeRq := "return_error_code=true";
    var locRq := "location=" + loc.lat + ", " + loc.lng;
    sizeRq + "&" + headingRq + "&" + sourceRq + "&" + returnErrorCodeRq + "&" + keyRq + "&" + locRq
  }

  /** `generate_request_url`: the metadata endpoint or the image endpoint, followed by the parameters. */
  function GenerateRequestUrl(loc: Location, apiKey: string, heading: int, metadata: bool): string {
    var parameters := Parameters(loc, apiKey, heading);
    if metadata then METADATA_URL + parameters else IMAGE_URL + parameters
  }

  /** A request URL is its endpoint followed by the parameter string. */
  lemma RequestUrlShape(loc: Location, apiKey: string, heading: int, metadata: bool)
    ensures var url := GenerateRequestUrl(loc, apiKey, heading, metadata);
      && StartsWith(url, if metadata then METADATA_URL else IMAGE_URL)
      && url[(if metadata then |METADATA_URL| else |IMAGE_URL|)..] == Parameters(loc, apiKey, heading)
  {
  }

  /** A query string `name=value&name=value...` from its parameters. */
  function Query(pairs: seq<(string, string)>): string {
    if pairs == [] then ""
    else if |pairs| == 1 then pairs[0].0 + "=" + pairs[0].1
    else pairs[0].0 + "=" + pairs[0].1 + "&" + Query(pairs[1..])
  }

  /** The parameters as (name, value) pairs, independent of the string rendering. */
  function ParameterPairs(loc: Location, apiKey: string, heading: int): (pairs: seq<(string, string)>)
    ensures |pairs| == 6
  {
    [("size", "600x400"), ("heading", IntToString(heading)), ("source", "outdoor"),
     ("return_error_code", "true"), ("key", apiKey), ("location", loc.lat + ", " + loc.lng)]
  }

  /** An image size as `<width>x<height>`. */
  function SizeText(size: (nat, nat)): string {
    NatToString(size.0) + "x" + NatToString(size.1)
  }

  /** The size renders as `600x400`. */
  lemma ImageSizeText()
    ensures SizeText(IMG_SIZE) == "600x400"
  {
    assert NatToString(600) == NatToString(60) + ['0'];
    assert NatToString(60) == NatToString(6) + ['0'];
    assert NatToString(400) == NatToString(40) + ['0'];
    assert NatToString(40) == NatToString(4) + ['0'];
  }

  /**
   * The parameter string is the query of six parameters in the fixed order size,
   * heading, source, return_error_code, key, location.
   */
  lemma ParametersInFixedOrder(loc: Location, apiKey: string, heading: int)
    ensures Parameters(loc, apiKey, heading) == Query(ParameterPairs(loc, apiKey, heading))
    ensures var pairs := ParameterPairs(loc, apiKey, heading);
      [pairs[0].0, pairs[1].0, pairs[2].0, pairs[3].0, pairs[4].0, pairs[5].0]
      == ["size", "heading", "source", "return_error_code", "key", "location"]
  {
    var p := ParameterPairs(loc, apiKey, heading);
    var r := seq(6, k requires 0 <= k < 6 => p[k].0 + "=" + p[k].1);
    assert Query(p[5..]) == r[5];
    assert p[4..][1..] == p[5..];
    QueryStep(p[4..], "key", apiKey);
    assert p[3..][1..] == p[4..];
    QueryStep(p[3..], "return_error_code", "true");
    assert p[2..][1..] == p[3..];
    QueryStep(p[2..], "source", "outdoor");
    assert p[1..][1..] == p[2..];
    QueryStep(p[1..], "heading", IntToString(heading));
    QueryStep(p, "size", "600x400");
    ImageSizeText();
    ParameterTexts(loc, apiKey, heading, r);
    JoinSix("&", r[0], r[1], r[2], r[3], r[4], r[5]);
  }

  /** Each parameter is rendered as `name=value`. */
  lemma ParameterTexts(loc: Location, apiKey: string, heading: int, r: seq<string>)
    requires |r| == 6
    requires forall k :: 0 <= k < 6 ==> r[k] == ParameterPairs(loc, apiKey, heading)[k].0 + "=" + ParameterPairs(loc, apiKey, heading)[k].1
    requires SizeText(IMG_SIZE) == "600x400"
    ensures Parameters(loc, apiKey, heading) == r[0] + "&" + r[1] + "&" + r[2] + "&" + r[3] + "&" + r[4] + "&" + r[5]
  {
    assert r[0] == "size=" + SizeText(IMG_SIZE);
    assert r[1] == "heading=" + IntToString(heading);
    assert r[2] == "source=outdoor";
    assert r[3] == "return_error_code=true";
    assert r[4] == "key=" + apiKey;
    assert r[5] == "location=" + loc.lat + ", " + loc.lng;
  }

  /** Six fields joined by a separator, grouped from the right. */
  lemma JoinSix(sep: string, a: string, b: string, c: string, d: string, e: string, f: string)
    ensures a + sep + b + sep + c + sep + d + sep + e + sep + f
         == a + (sep + (b + (sep + (c + (sep + (d + (sep + (e + (sep + f)))))))))
  {
  }

  lemma QueryStep(p: seq<(string, string)>, name: string, value: string)
    requires |p| >= 2 && p[0] == (name, value)
    ensures Query(p) == (name + "=" + value) + ("&" + Query(p[1..]))
  {
  }

  /** The URL a request is sent to. */
  function Url(req: Request): string {
    GenerateRequestUrl(req.loc, req.apiKey, req.heading, req.endpoint == MetadataEndpoint)
  }

  /** A metadata URL and an image URL for the same parameters differ only in their endpoint. */
  lemma MetadataAndImageShareParameters(loc: Location, apiKey: string, heading: int)
    ensures var m := GenerateRequestUrl(loc, apiKey, heading, true);
      var i := GenerateRequestUrl(loc, apiKey, heading, false);
      && StartsWith(m, METADATA_URL) && StartsWith(i, IMAGE_URL)
      && m[|METADATA_URL|..] == i[|IMAGE_URL|..] && m != i
  {
    var m := GenerateRequestUrl(loc, apiKey, heading, true);
    var i := GenerateRequestUrl(loc, apiKey, heading, false);
    RequestUrlShape(loc, apiKey, heading, true);
    RequestUrlShape(loc, apiKey, heading, false);
    assert |m| == |i| + 9;
  }

  /** `is_valid_call`: the metadata status is 'OK'; a raising metadata call is a failure. */
  function IsValidCall(service: MetadataService, loc: Location, apiKey: string, heading: int): (r: Result<bool>)
    ensures r.Failure? <==> service(Request(MetadataEndpoint, loc, apiKey, heading)).None?
    ensures r.Success? ==> (r.value <==> service(Request(MetadataEndpoint, loc, apiKey, heading)).value.status == "OK")
  {
    match service(Request(MetadataEndpoint, loc, apiKey, heading))
    case None => Failure("KeyError")
    case Some(m) => Success(m.status == "OK")
  }

  /** One request of the Lambda's event, as built by the request batcher. */
  datatype LambdaRequest = LambdaRequest(id: string, latitude: string, longitude: string, heading: int, apiKey: string) {
    function Loc(): Location { Location(latitude, longitude) }
    function Check(): Request { Request(MetadataEndpoint, Loc(), apiKey, heading) }
    function Fetch(): Request { Request(ImageEndpoint, Loc(), apiKey, heading) }
  }

  /** The external calls the handler makes, in order. */
  datatype Call =
    | MetadataCall(req: Request)
    | ImageCall(req: Request)
    | Upload(bucket: string, key: string, body: seq<bv8>)

  /** The calls made for one request, or Failure when its metadata call raises. */
  function RequestCalls(req: LambdaRequest, service: MetadataService, images: ImageService): Result<seq<Call>> {
    var valid :- IsValidCall(service, req.Loc(), req.apiKey, req.heading);
    if !valid then Success([MetadataCall(req.Check())])
    else Success([MetadataCall(req.Check()), ImageCall(req.Fetch()), Upload(BUCKET, req.id, images(req.Fetch()))])
  }

  /** A request passes the metadata check. */
  predicate Passes(req: LambdaRequest, service: MetadataService) {
    var v := IsValidCall(service, req.Loc(), req.apiKey, req.heading);
    v.Success? && v.value
  }

  /** The requests handled before the first raising metadata call (all of them if none raises). */
  function Handled(event: seq<LambdaRequest>, service: MetadataService): seq<LambdaRequest> {
    if event == [] then []
    else if IsValidCall(service, event[0].Loc(), event[0].apiKey, event[0].heading).Failure? then []
    else [event[0]] + Handled(event[1..], service)
  }

  /**
   * The handled requests are a prefix of the event whose metadata calls all return, and
   * the request after them, if any, is the one whose metadata call raises.
   */
  lemma {:induction false} HandledPrefix(event: seq<LambdaRequest>, service: MetadataService)
    ensures var h := Handled(event, service);
      && |h| <= |event| && h == event[..|h|]
      && (forall i :: 0 <= i < |h| ==> IsValidCall(service, h[i].Loc(), h[i].apiKey, h[i].heading).Success?)
      && (|h| < |event| ==> IsValidCall(service, event[|h|].Loc(), event[|h|].apiKey, event[|h|].heading).Failure?)
  {
    if event != [] && IsValidCall(service, event[0].Loc(), event[0].apiKey, event[0].heading).Success? {
      HandledPrefix(event[1..], service);
      var h := Handled(event, service);
      var t := Handled(event[1..], service);
      assert h == [event[0]] + t;
      assert h[1..] == t;
      assert event[..|h|] == [event[0]] + event[1..][..|t|];
    }
  }

  /** The handler's calls over the event, in order, up to the first raising metadata call. */
  function HandlerCalls(event: seq<LambdaRequest>, service: MetadataService, images: ImageService): seq<Call> {
    if event == [] then []
    else match RequestCalls(event[0], service, images)
      case Failure(_) => [MetadataCall(event[0].Check())]
      case Success(calls) => calls + HandlerCalls(event[1..], service, images)
  }

  /** The object store the handler uploads to. */
  class S3Bucket {
    var objects: map<string, seq<bv8>>

    constructor (objects: map<string, seq<bv8>>)
      ensures this.objects == objects
    {
      this.objects := objects;
    }

    method UploadFileobj(key: string, body: seq<bv8>)
      modifies this
      ensures objects == old(objects)[key := body]
    {
      objects := objects[key := body];
    }
  }

  /** The bucket after a sequence of calls: each upload stores its body under its key. */
  function ApplyUploads(objects: map<string, seq<bv8>>, calls: seq<Call>): map<string, seq<bv8>>
    decreases |calls|
  {
    if calls == [] then objects
    else if calls[0].Upload? then ApplyUploads(objects[calls[0].key := calls[0].body], calls[1..])
    else ApplyUploads(objects, calls[1..])
  }

  lemma {:induction false} ApplyUploadsAppend(objects: map<string, seq<bv8>>, a: seq<Call>, b: seq<Call>)
    decreases |a|
    ensures ApplyUploads(objects, a + b) == ApplyUploads(ApplyUploads(objects, a), b)
  {
    if a != [] {
      assert (a + b)[1..] == a[1..] + b;
      if a[0].Upload? {
        ApplyUploadsAppend(objects[a[0].key := a[0].body], a[1..], b);
      } else {
        ApplyUploadsAppend(objects, a[1..], b);
      }
    } else {
      assert a + b == b;
    }
  }

  lemma HandlerCallsCons(event: seq<LambdaRequest>, service: MetadataService, images: ImageService)
    requires event != []
    ensures RequestCalls(event[0], service, images).Failure? ==>
      && HandlerCalls(event, service, images) == [MetadataCall(event[0].Check())]
      && Handled(event, service) == []
    ensures RequestCalls(event[0], service, images).Success? ==>
      && HandlerCalls(event, service, images)
         == RequestCalls(event[0], service, images).value + HandlerCalls(event[1..], service, images)
      && Handled(event, service) == [event[0]] + Handled(event[1..], service)
  {
  }

  /** A request whose metadata call raises ends the handler's calls and leaves requests unhandled. */
  lemma HandlerStepRaises(event: seq<LambdaRequest>, i: nat, calls: seq<Call>, service: MetadataService, images: ImageService)
    requires i < |event| && RequestCalls(event[i], service, images).Failure?
    requires HandlerCalls(event, service, images) == calls + HandlerCalls(event[i..], service, images)
    requires Handled(event, service) == event[..i] + Handled(event[i..], service)
    ensures HandlerCalls(event, service, images) == calls + [MetadataCall(event[i].Check())]
    ensures |Handled(event, service)| < |event|
  {
    var rest := event[i..];
    assert rest[0] == event[i];
    HandlerCallsCons(rest, service, images);
    assert Handled(event, service) == event[..i] + [];
  }

  /** A request whose metadata call returns adds its calls and is handled. */
  lemma HandlerStepReturns(event: seq<LambdaRequest>, i: nat, calls: seq<Call>, service: MetadataService, images: ImageService)
    requires i < |event| && RequestCalls(event[i], service, images).Success?
    requires HandlerCalls(event, service, images) == calls + HandlerCalls(event[i..], service, images)
    requires Handled(event, service) == event[..i] + Handled(event[i..], service)
    ensures HandlerCalls(event, service, images)
         == (calls + RequestCalls(event[i], service, images).value) + HandlerCalls(event[i + 1..], service, images)
    ensures Handled(event, service) == event[..i + 1] + Handled(event[i + 1..], service)
  {
    var rest := event[i..];
    assert rest[0] == event[i] && rest[1..] == event[i + 1..];
    HandlerCallsCons(rest, service, images);
    CallsStep(calls, RequestCalls(event[i], service, images).value, HandlerCalls(event[i + 1..], service, images));
    HandledStep(event, i, Handled(event[i + 1..], service));
  }

  lemma CallsStep(calls: seq<Call>, v: seq<Call>, later: seq<Call>)
    ensures calls + (v + later) == (calls + v) + later
  {
  }

  lemma HandledStep(event: seq<LambdaRequest>, i: nat, handled: seq<LambdaRequest>)
    requires i < |event|
    ensures event[..i] + ([event[i]] + handled) == event[..i + 1] + handled
  {
    PrefixSnoc(event, i);
  }

  lemma PrefixSnoc<T>(s: seq<T>, i: nat)
    requires i < |s|
    ensures s[..i + 1] == s[..i] + [s[i]]
  {
  }

  lemma ApplyUploadsStep(objects: map<string, seq<bv8>>, calls: seq<Call>, step: seq<Call>)
    requires (|step| == 1 && step[0].MetadataCall?) || (|step| == 3 && step[0].MetadataCall? && step[1].ImageCall? && step[2].Upload?)
    ensures |step| == 1 ==> ApplyUploads(objects, calls + step) == ApplyUploads(objects, calls)
    ensures |step| == 3 ==> ApplyUploads(objects, calls + step) == ApplyUploads(objects, calls)[step[2].key := step[2].body]
  {
    ApplyUploadsAppend(objects, calls, step);
    var m := ApplyUploads(objects, calls);
    if |step| == 3 {
      assert step[1..][1..] == step[2..] && step[2..][1..] == [];
      assert ApplyUploads(m, step) == ApplyUploads(m, step[1..]) == ApplyUploads(m, step[2..]);
      assert ApplyUploads(m, step[2..]) == ApplyUploads(m[step[2].key := step[2].body], []);
    }
  }

  /**
   * One iteration of `lambda_handler`: the metadata check, then for a passing request
   * the image fetch and its upload under the request's ID. Failure when the metadata
   * call raises, before anything is uploaded.
   */
  method HandleRequest(req: LambdaRequest, service: MetadataService, images: ImageService, bucket: S3Bucket)
    returns (r: Result<seq<Call>>)
    modifies bucket
    ensures r == RequestCalls(req, service, images)
    ensures r.Success? ==> bucket.objects == ApplyUploads(old(bucket.objects), r.value)
    ensures r.Failure? ==> bucket.objects == old(bucket.objects)
  {
    var valid := IsValidCall(service, req.Loc(), req.apiKey, req.heading);
    if valid.Failure? {
      return Failure(valid.error);
    }
    if !valid.value {
      r := Success([MetadataCall(req.Check())]);
      ApplyUploadsStep(old(bucket.objects), [], r.value);
      assert [] + r.value == r.value;
      return;
    }
    var body := images(req.Fetch());
    bucket.UploadFileobj(req.id, body);
    r := Success([MetadataCall(req.Check()), ImageCall(req.Fetch()), Upload(BUCKET, req.id, body)]);
    ApplyUploadsStep(old(bucket.objects), [], r.value);
    assert [] + r.value == r.value;
  }

  /**
   * `lambda_handler`: the requests in event order, each handled as above. A raising
   * metadata call ends the handler (its error path raises too), so the handler
   * completes exactly when every request was handled.
   */
  method LambdaHandler(event: seq<LambdaRequest>, service: MetadataService, images: ImageService, bucket: S3Bucket)
    returns (calls: seq<Call>, completed: bool)
    modifies bucket
    ensures calls == HandlerCalls(event, service, images)
    ensures completed <==> Handled(event, service) == event
    ensures bucket.objects == ApplyUploads(old(bucket.objects), calls)
  {
    calls := [];
    var i := 0;
    assert event[..0] == [] && event[0..] == event;
    while i < |event|
      invariant 0 <= i <= |event|
      invariant HandlerCalls(event, service, images) == calls + HandlerCalls(event[i..], service, images)
      invariant Handled(event, service) == event[..i] + Handled(event[i..], service)
      invariant bucket.objects == ApplyUploads(old(bucket.objects), calls)
    {
      var step := HandleRequest(event[i], service, images, bucket);
      if step.Failure? {
        HandlerStepRaises(event, i, calls, service, images);
        ApplyUploadsStep(old(bucket.objects), calls, [MetadataCall(event[i].Check())]);
        return calls + [MetadataCall(event[i].Check())], false;
      }
      HandlerStepReturns(event, i, calls, service, images);
      ApplyUploadsAppend(old(bucket.objects), calls, step.value);
      calls := calls + step.value;
      i := i + 1;
    }
    assert event[i..] == [] && event[..i] == event;
    completed := true;
  }

  /** The keys of the uploads among some calls, in order. */
  function UploadKeys(calls: seq<Call>): seq<string> {
    if calls == [] then []
    else (if calls[0].Upload? then [calls[0].key] else []) + UploadKeys(calls[1..])
  }

  function Ids(reqs: seq<LambdaRequest>): (r: seq<string>)
    ensures |r| == |reqs|
  {
    if reqs == [] then [] else [reqs[0].id] + Ids(reqs[1..])
  }

  /**
   * Exactly the handled requests that pass the metadata check are uploaded, in event
   * order, each under its own ID.
   */
  lemma {:induction false} UploadsAreThePassingRequests(event: seq<LambdaRequest>, service: MetadataService, images: ImageService)
    ensures UploadKeys(HandlerCalls(event, service, images))
            == Ids(Frames.Filter(Handled(event, service), (r: LambdaRequest) => Passes(r, service)))
  {
    var p := (r: LambdaRequest) => Passes(r, service);
    if event != [] {
      HandlerCallsCons(event, service, images);
      var rc := RequestCalls(event[0], service, images);
      if rc.Success? {
        UploadsAreThePassingRequests(event[1..], service, images);
        UploadKeysAppend(rc.value, HandlerCalls(event[1..], service, images));
        var h := Handled(event, service);
        assert h[0] == event[0] && h[1..] == Handled(event[1..], service);
        var head: seq<LambdaRequest> := if p(event[0]) then [event[0]] else [];
        assert Frames.Filter(h, p) == head + Frames.Filter(h[1..], p);
        IdsAppend(head, Frames.Filter(h[1..], p));
        if p(event[0]) {
          var v := rc.value;
          assert v[1..][1..] == v[2..] && v[2..][1..] == [];
          assert UploadKeys(v[2..]) == [event[0].id] + UploadKeys([]);
          assert UploadKeys(v) == [] + UploadKeys(v[1..]) && UploadKeys(v[1..]) == [] + UploadKeys(v[2..]);
        } else {
          assert rc.value[1..] == [];
          assert UploadKeys(rc.value) == [];
        }
        assert Ids(head) == if p(event[0]) then [event[0].id] else [];
      }
    }
  }

  lemma {:induction false} UploadKeysAppend(a: seq<Call>, b: seq<Call>)
    ensures UploadKeys(a + b) == UploadKeys(a) + UploadKeys(b)
  {
    if a != [] {
      assert (a + b)[1..] == a[1..] + b;
      UploadKeysAppend(a[1..], b);
    } else {
      assert a + b == b;
    }
  }

  lemma {:induction false} IdsAppend(a: seq<LambdaRequest>, b: seq<LambdaRequest>)
    ensures Ids(a + b) == Ids(a) + Ids(b)
  {
    if a != [] {
      assert (a + b)[1..] == a[1..] + b;
      IdsAppend(a[1..], b);
    } else {
      assert a + b == b;
    }
  }

  /**
   * Every image fetch is immediately preceded by the metadata check of the same
   * parameters, sent to the metadata endpoint, and immediately followed by the upload
   * of the fetched bytes.
   */
  lemma {:induction false} FetchFollowsCheck(event: seq<LambdaRequest>, service: MetadataService, images: ImageService, i: nat)
    requires i < |HandlerCalls(event, service, images)|
    requires HandlerCalls(event, service, images)[i].ImageCall?
    ensures var calls := HandlerCalls(event, service, images);
      && 0 < i < |calls| - 1
      && calls[i - 1] == MetadataCall(calls[i].req.(endpoint := MetadataEndpoint))
      && service(calls[i - 1].req).Some? && service(calls[i - 1].req).value.status == "OK"
      && calls[i + 1].Upload?
      && calls[i + 1] == Upload(BUCKET, calls[i + 1].key, images(calls[i].req))
      && StartsWith(Url(calls[i].req), IMAGE_URL) && StartsWith(Url(calls[i - 1].req), METADATA_URL)
      && Url(calls[i - 1].req)[|METADATA_URL|..] == Url(calls[i].req)[|IMAGE_URL|..]
  {
    var calls := HandlerCalls(event, service, images);
    assert event != [];
    HandlerCallsCons(event, service, images);
    var rc := RequestCalls(event[0], service, images);
    assert rc.Success?;
    var rest := HandlerCalls(event[1..], service, images);
    assert calls == rc.value + rest;
    var req := event[0];
    if i < |rc.value| {
      assert |rc.value| == 3 && i == 1;
      AroundInFront(rc.value, rest, i);
      MetadataAndImageShareParameters(req.Loc(), req.apiKey, req.heading);
    } else {
      FetchFollowsCheck(event[1..], service, images, i - |rc.value|);
      assert |rc.value| >= 1;
      AroundBehind(rc.value, rest, i);
    }
  }

  /** The neighbours of a position well inside the front part of a concatenation. */
  lemma AroundInFront<T>(a: seq<T>, b: seq<T>, j: nat)
    requires 0 < j && j + 1 < |a|
    ensures (a + b)[j - 1] == a[j - 1] && (a + b)[j] == a[j] && (a + b)[j + 1] == a[j + 1]
  {
  }

  /** The neighbours of a position well inside the back part of a concatenation. */
  lemma AroundBehind<T>(a: seq<T>, b: seq<T>, j: nat)
    requires |a| < j && j + 1 < |a| + |b|
    ensures (a + b)[j - 1] == b[j - 1 - |a|] && (a + b)[j] == b[j - |a|] && (a + b)[j + 1] == b[j + 1 - |a|]
  {
  }

  /**
   * The handler its log message describes: a request whose metadata call raises is
   * logged and skipped, and the handler goes on to the next request.
   */
  function IntendedCalls(event: seq<LambdaRequest>, service: MetadataService, images: ImageService): seq<Call> {
    if event == [] then []
    else match RequestCalls(event[0], service, images)
      case Failure(_) => [MetadataCall(event[0].Check())] + IntendedCalls(event[1..], service, images)
      case Success(calls) => calls + IntendedCalls(event[1..], service, images)
  }

  /** Under the intended handler every passing request of the event is uploaded, in order. */
  lemma {:induction false} IntendedUploadsAllPassing(event: seq<LambdaRequest>, service: MetadataService, images: ImageService)
    ensures UploadKeys(IntendedCalls(event, service, images))
            == Ids(Frames.Filter(event, (r: LambdaRequest) => Passes(r, service)))
  {
    var p := (r: LambdaRequest) => Passes(r, service);
    if event != [] {
      IntendedUploadsAllPassing(event[1..], service, images);
      var rc := RequestCalls(event[0], service, images);
      var head: seq<LambdaRequest> := if p(event[0]) then [event[0]] else [];
      assert Frames.Filter(event, p) == head + Frames.Filter(event[1..], p);
      IdsAppend(head, Frames.Filter(event[1..], p));
      assert Ids(head) == if p(event[0]) then [event[0].id] else [];
      var v: seq<Call> := if rc.Success? then rc.value else [MetadataCall(event[0].Check())];
      assert IntendedCalls(event, service, images) == v + IntendedCalls(event[1..], service, images);
      UploadKeysAppend(v, IntendedCalls(event[1..], service, images));
      if p(event[0]) {
        assert v[1..][1..] == v[2..] && v[2..][1..] == [];
        assert UploadKeys(v[2..]) == [event[0].id] + UploadKeys([]);
        assert UploadKeys(v) == [] + UploadKeys(v[1..]) && UploadKeys(v[1..]) == [] + UploadKeys(v[2..]);
      } else {
        assert v[1..] == [];
        assert UploadKeys(v) == [] + UploadKeys([]);
      }
    }
  }

  /**
   * As written, a raising metadata call on the first request ends the handler before
   * a passing second request is uploaded; the intended handler uploads it.
   */
  lemma HandlerStopsAtRaisingCheck(images: ImageService)
    ensures var a := LambdaRequest("a.png", "41.88", "-87.63", 90, "K");
      var b := LambdaRequest("b.png", "41.89", "-87.62", 180, "K");
      var service := (q: Request) => if q.heading == 90 then None else Some(Metadata("OK", "2019-06", q.loc));
      && UploadKeys(HandlerCalls([a, b], service, images)) == []
      && UploadKeys(IntendedCalls([a, b], service, images)) == ["b.png"]
  {
    var a := LambdaRequest("a.png", "41.88", "-87.63", 90, "K");
    var b := LambdaRequest("b.png", "41.89", "-87.62", 180, "K");
    var service := (q: Request) => if q.heading == 90 then None else Some(Metadata("OK", "2019-06", q.loc));
    var event := [a, b];
    assert event[1..] == [b];
    assert RequestCalls(a, service, images).Failure?;
    assert HandlerCalls(event, service, images) == [MetadataCall(a.Check())];
    assert UploadKeys([MetadataCall(a.Check())]) == [] + UploadKeys([]);
    IntendedUploadsAllPassing(event, service, images);
    var p := (r: LambdaRequest) => Passes(r, service);
    assert !p(a) && p(b);
    assert Frames.Filter(event, p) == Frames.Filter([b], p);
    assert [b][1..] == [];
    assert Frames.Filter([b], p) == [b];
  }
}
