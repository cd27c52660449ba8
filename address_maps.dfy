/**
 * createAddressMap and createAddressMapList: one platform address, and the
 * list the geocoder returned, turned into the plain records sent back over
 * the channel.
 */
module AddressMaps {
  import opened Wrappers
  import opened Addresses
  import opened FormattedLines

  /** The map createAddressMap builds, one field per key it puts. */
  datatype AddressRecord = AddressRecord(
    coordinates: Coordinates,
    featureName: Option<string>,
    countryName: Option<string>,
    countryCode: Option<string>,
    locality: Option<string>,
    subLocality: Option<string>,
    thoroughfare: Option<string>,
    subThoroughfare: Option<string>,
    adminArea: Option<string>,
    subAdminArea: Option<string>,
    addressLine: string,
    postalCode: Option<string>,
    addressLine1: string)

  /**
   * createAddressMap as a value: null for a null address; otherwise the
   * record, or the first exception thrown while building it (the
   * coordinates are read before the first line is filtered).
   */
  function AddressRecordOf(a: Option<NativeAddress>): Result<Option<AddressRecord>, Failure>
  {
    if a.None? then Ok(None)
    else
      var n := a.value;
      if n.location.None? then Err(MissingLocation)
      else
        match FilteredFirstLine(n)
        case Err(f) => Err(f)
        case Ok(line1) =>
          Ok(Some(AddressRecord(n.location.value, n.featureName, n.countryName, n.countryCode,
            n.locality, n.subLocality, n.thoroughfare, n.subThoroughfare, n.adminArea,
            n.subAdminArea, JoinedLines(n.lines), n.postalCode, line1)))
  }

  /**
   * A non-null address yields a record exactly when it has a location and a
   * first line with a surviving token; the record carries the location, the
   * two formatted lines and every named field unchanged.
   */
  lemma AddressRecordOfAddress(a: NativeAddress)
    ensures AddressRecordOf(Some(a)).Ok? <==> a.location.Some? && FilteredFirstLine(a).Ok?
    ensures AddressRecordOf(Some(a)).Ok? ==>
      var r := AddressRecordOf(Some(a)).value;
      r.Some? && r.value.coordinates == a.location.value
      && r.value.addressLine == JoinedLines(a.lines)
      && r.value.addressLine1 == FilteredFirstLine(a).value
      && r.value.featureName == a.featureName && r.value.countryName == a.countryName
      && r.value.countryCode == a.countryCode && r.value.locality == a.locality
      && r.value.subLocality == a.subLocality && r.value.thoroughfare == a.thoroughfare
      && r.value.subThoroughfare == a.subThoroughfare && r.value.adminArea == a.adminArea
      && r.value.subAdminArea == a.subAdminArea && r.value.postalCode == a.postalCode
  {
  }

  /** createAddressMap. */
  method CreateAddressMap(a: Option<NativeAddress>) returns (r: Result<Option<AddressRecord>, Failure>)
    ensures r == AddressRecordOf(a)
  {
    if a.None? {
      return Ok(None);
    }
    var n := a.value;
    var addressLine := JoinAddressLines(n.lines);
    if n.location.None? {
      return Err(MissingLocation);
    }
    var line1 := FilterAddressLine(n);
    if line1.Err? {
      return Err(line1.error);
    }
    r := Ok(Some(AddressRecord(n.location.value, n.featureName, n.countryName, n.countryCode,
      n.locality, n.subLocality, n.thoroughfare, n.subThoroughfare, n.adminArea,
      n.subAdminArea, addressLine, n.postalCode, line1.value)));
  }

  /**
   * The records of a non-null list: when no address throws, one record per
   * address, in order; otherwise the exception of the first address that
   * throws.
   */
  function RecordsOf(addresses: seq<Option<NativeAddress>>): (r: Result<seq<Option<AddressRecord>>, Failure>)
    ensures r.Ok? ==> (|r.value| == |addresses|
      && forall i :: 0 <= i < |addresses| ==> AddressRecordOf(addresses[i]) == Ok(r.value[i]))
    ensures r.Err? ==> exists i :: (0 <= i < |addresses| && AddressRecordOf(addresses[i]) == Err(r.error)
      && forall j :: 0 <= j < i ==> AddressRecordOf(addresses[j]).Ok?)
  {
    if |addresses| == 0 then Ok([])
    else
      match AddressRecordOf(addresses[0])
      case Err(f) => Err(f)
      case Ok(m) =>
        var rest := RecordsOf(addresses[1..]);
        assert forall i :: 1 <= i < |addresses| ==> addresses[1..][i - 1] == addresses[i];
        match rest
        case Err(f) =>
          assert exists i :: (1 <= i < |addresses| && AddressRecordOf(addresses[i]) == Err(f)
            && forall j :: 0 <= j < i ==> AddressRecordOf(addresses[j]).Ok?);
          Err(f)
        case Ok(ms) => Ok([m] + ms)
  }

  /** createAddressMapList as a value: a null list gives an empty one. */
  function AddressRecordListOf(addresses: Option<seq<Option<NativeAddress>>>): (r: Result<seq<Option<AddressRecord>>, Failure>)
    ensures addresses.None? ==> r == Ok([])
    ensures addresses.Some? ==> r == RecordsOf(addresses.value)
  {
    if addresses.None? then Ok([]) else RecordsOf(addresses.value)
  }

  /** createAddressMapList: the ArrayList filled by a loop over the addresses. */
  method CreateAddressMapList(addresses: Option<seq<Option<NativeAddress>>>)
    returns (r: Result<seq<Option<AddressRecord>>, Failure>)
    ensures r == AddressRecordListOf(addresses)
  {
    if addresses.None? {
      return Ok([]);
    }
    var list := addresses.value;
    var result: seq<Option<AddressRecord>> := [];
    for i := 0 to |list|
      invariant |result| == i
      invariant forall j :: 0 <= j < i ==> AddressRecordOf(list[j]) == Ok(result[j])
    {
      var m := CreateAddressMap(list[i]);
      if m.Err? {
        RecordsOfFirstFailure(list, i);
        return Err(m.error);
      }
      result := result + [m.value];
    }
    var all := RecordsOf(list);
    assert all.Ok? && all.value == result;
    r := Ok(result);
  }

  /** The failure of the first address that throws is the failure of the whole list. */
  lemma RecordsOfFirstFailure(addresses: seq<Option<NativeAddress>>, i: nat)
    requires i < |addresses| && AddressRecordOf(addresses[i]).Err?
    requires forall j :: 0 <= j < i ==> AddressRecordOf(addresses[j]).Ok?
    ensures RecordsOf(addresses) == Err(AddressRecordOf(addresses[i]).error)
  {
    var r := RecordsOf(addresses);
    if r.Err? {
      var i' :| 0 <= i' < |addresses| && AddressRecordOf(addresses[i']) == Err(r.error)
        && forall j :: 0 <= j < i' ==> AddressRecordOf(addresses[j]).Ok?;
      assert i' == i;
    }
  }
}
