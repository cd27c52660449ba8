/** The platform's address record, as far as the plugin reads it. */
module Addresses {
  import opened Wrappers

  /**
   * A location. The platform holds doubles; the model treats them as opaque
   * values that are copied, never computed with.
   */
  datatype Coordinates = Coordinates(latitude: real, longitude: real)

  /**
   * android.location.Address: the formatted lines 0..getMaxAddressLineIndex()
   * and the nullable named fields. location is None when the address lacks
   * a latitude or a longitude: getLatitude() and getLongitude() each throw
   * IllegalStateException when theirs was never set, so an address with a
   * latitude alone is None here as well.
   */
  datatype NativeAddress = NativeAddress(
    lines: seq<string>,
    location: Option<Coordinates>,
    featureName: Option<string>,
    countryName: Option<string>,
    countryCode: Option<string>,
    locality: Option<string>,
    subLocality: Option<string>,
    thoroughfare: Option<string>,
    subThoroughfare: Option<string>,
    adminArea: Option<string>,
    subAdminArea: Option<string>,
    postalCode: Option<string>)

  /**
   * The unchecked exceptions that building one address map can throw; none
   * of them is caught by the plugin.
   */
  datatype Failure =
    | MissingLocation   // getLatitude() on an address without a latitude: IllegalStateException
    | MissingFirstLine  // getAddressLine(0) is null on an address without lines: NullPointerException
    | NoSurvivingToken  // substring(0, -1) on an empty addressLine1: StringIndexOutOfBoundsException
}
