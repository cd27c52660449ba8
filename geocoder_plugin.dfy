/**
 * GeocoderPlugin's request handling: the method name picks a lookup,
 * assertPresent guards it, and the try/catch of the background task turns
 * the geocoder's answer into exactly one response.
 *
 * android.location.Geocoder is an oracle: whether isPresent() holds and what
 * each lookup request returns or throws.
 */
module GeocoderPlugin {
  import opened Wrappers
  import opened Addresses
  import opened AddressMaps

  /** The number of results the plugin asks the platform geocoder for. */
  const MaxResults: nat := 3

  const QueryMethod := "findAddressesFromQuery"
  const CoordinatesMethod := "findAddressesFromCoordinates"
  const FailedCode := "failed"
  const NotAvailableCode := "not_available"

  /** A method call on the channel with the arguments the two methods read. */
  datatype MethodCall = MethodCall(name: string, address: string, latitude: real, longitude: real)

  /** Which branch of onMethodCall a method name takes. */
  datatype Route = ByQuery | ByCoordinates | Unsupported

  function RouteOf(name: string): (r: Route)
    ensures r == ByQuery <==> name == QueryMethod
    ensures r == ByCoordinates <==> name == CoordinatesMethod
    ensures r == Unsupported <==> name != QueryMethod && name != CoordinatesMethod
  {
    if name == QueryMethod then ByQuery
    else if name == CoordinatesMethod then ByCoordinates
    else Unsupported
  }

  /** The two platform lookups: getFromLocationName and getFromLocation. */
  datatype Request =
    | FromLocationName(locationName: string, maxResults: nat)
    | FromLocation(latitude: real, longitude: real, maxResults: nat)

  /** What a lookup does: return a (possibly null) list of (possibly null) addresses, or throw IOException. */
  datatype Reply = Found(addresses: Option<seq<Option<NativeAddress>>>) | IOFailure

  /** The platform geocoder as the plugin sees it. */
  datatype Geocoder = Geocoder(isPresent: bool, lookup: Request -> Reply)

  /**
   * What the caller on the channel receives: result.success, result.error
   * with a code, result.notImplemented, or nothing at all because an
   * unchecked exception escaped the background task.
   */
  datatype Response =
    | Success(records: seq<Option<AddressRecord>>)
    | Error(code: string)
    | NotImplemented
    | Crashed(failure: Failure)

  /** assertPresent: NotAvailableException exactly when the geocoder is not present. */
  function AssertPresent(g: Geocoder): (r: Result<(), string>)
    ensures r.Ok? <==> g.isPresent
    ensures r.Err? ==> r.error == NotAvailableCode
  {
    if g.isPresent then Ok(()) else Err(NotAvailableCode)
  }

  /** One doInBackground body: assertPresent, the lookup, createAddressMapList, and the two catch clauses. */
  function LookupOutcome(g: Geocoder, req: Request): (r: Response)
    ensures !g.isPresent ==> r == Error(NotAvailableCode)
    ensures r.Error? ==> r.code == FailedCode || r.code == NotAvailableCode
    ensures !r.NotImplemented?
  {
    match AssertPresent(g)
    case Err(code) => Error(code)
    case Ok(_) =>
      match g.lookup(req)
      case IOFailure => Error(FailedCode)
      case Found(addresses) =>
        match AddressRecordListOf(addresses)
        case Ok(records) => Success(records)
        case Err(f) => Crashed(f)
  }

  /** The lookup that onMethodCall starts for a call, if its name is one of the two. */
  function RequestOf(call: MethodCall): (r: Option<Request>)
    ensures r.None? <==> call.name != QueryMethod && call.name != CoordinatesMethod
    ensures r.Some? ==> r.value.maxResults == MaxResults
    ensures call.name == QueryMethod ==> r == Some(FromLocationName(call.address, MaxResults))
    ensures call.name == CoordinatesMethod ==> r == Some(FromLocation(call.latitude, call.longitude, MaxResults))
  {
    match RouteOf(call.name)
    case ByQuery => Some(FromLocationName(call.address, MaxResults))
    case ByCoordinates => Some(FromLocation(call.latitude, call.longitude, MaxResults))
    case Unsupported => None
  }

  /** onMethodCall together with the background task it starts. */
  function OnMethodCall(call: MethodCall, g: Geocoder): (r: Response)
    ensures r.NotImplemented? <==> call.name != QueryMethod && call.name != CoordinatesMethod
  {
    match RequestOf(call)
    case None => NotImplemented
    case Some(req) => LookupOutcome(g, req)
  }

  /**
   * The two method names start their own lookup with a limit of three
   * results; every other name, and only those, gets notImplemented.
   */
  lemma OnMethodCallRoutes(call: MethodCall, g: Geocoder)
    ensures OnMethodCall(call, g) == NotImplemented
      <==> call.name != QueryMethod && call.name != CoordinatesMethod
    ensures call.name == QueryMethod
      ==> OnMethodCall(call, g) == LookupOutcome(g, FromLocationName(call.address, 3))
    ensures call.name == CoordinatesMethod
      ==> OnMethodCall(call, g) == LookupOutcome(g, FromLocation(call.latitude, call.longitude, 3))
  {
  }

  /**
   * Without a present geocoder both methods answer not_available, and the
   * answer does not depend on the lookup at all: no lookup is attempted.
   */
  lemma NotAvailableBeforeLookup(call: MethodCall, g: Geocoder, h: Geocoder)
    requires !g.isPresent && !h.isPresent
    ensures OnMethodCall(call, g) == OnMethodCall(call, h)
    ensures RouteOf(call.name) != Unsupported ==> OnMethodCall(call, g) == Error("not_available")
  {
  }

  /**
   * The outcomes of one lookup: an error with code "not_available" exactly
   * when the geocoder is absent, with code "failed" exactly when it is
   * present and throws IOException; success with the mapped list, or an
   * escaped exception from mapping it, otherwise. notImplemented never
   * comes from a lookup.
   */
  lemma LookupOutcomeCases(g: Geocoder, req: Request)
    ensures LookupOutcome(g, req) == Error("not_available") <==> !g.isPresent
    ensures LookupOutcome(g, req) == Error("failed") <==> g.isPresent && g.lookup(req) == IOFailure
    ensures LookupOutcome(g, req).Error? ==> LookupOutcome(g, req).code in {"failed", "not_available"}
    ensures LookupOutcome(g, req).Success?
      <==> g.isPresent && g.lookup(req).Found? && AddressRecordListOf(g.lookup(req).addresses).Ok?
    ensures LookupOutcome(g, req).Success?
      ==> LookupOutcome(g, req).records == AddressRecordListOf(g.lookup(req).addresses).value
    ensures LookupOutcome(g, req).Crashed?
      <==> g.isPresent && g.lookup(req).Found? && AddressRecordListOf(g.lookup(req).addresses).Err?
    ensures !LookupOutcome(g, req).NotImplemented?
  {
  }

  /** A lookup that finds nothing, as an empty or a null list, succeeds with an empty list. */
  lemma NoMatchesIsEmptySuccess(g: Geocoder, req: Request)
    requires g.isPresent
    requires g.lookup(req) == Found(None) || g.lookup(req) == Found(Some([]))
    ensures LookupOutcome(g, req) == Success([])
  {
  }

  /** The geocoder returns no more addresses than a request asks for. */
  predicate HonoursMaxResults(g: Geocoder, req: Request)
  {
    (g.lookup(req).Found? && g.lookup(req).addresses.Some?) ==>
      |g.lookup(req).addresses.value| <= req.maxResults
  }

  /** Against a geocoder that honours the limit, a successful call returns at most three records. */
  lemma AtMostThreeRecords(call: MethodCall, g: Geocoder)
    requires forall req :: HonoursMaxResults(g, req)
    ensures OnMethodCall(call, g).Success? ==> |OnMethodCall(call, g).records| <= 3
  {
    match RequestOf(call)
    case None =>
    case Some(req) =>
      assert HonoursMaxResults(g, req);
  }
}
