# Geocoder plugin: address shaping and request handling

A Dafny model of the Android side of a Flutter geocoding plugin
(`GeocoderPlugin.java`). The plugin takes a method call from the channel,
asks the platform geocoder (`android.location.Geocoder`) for at most three
addresses, and turns each platform `Address` into a plain record. Two of the
record's fields are computed rather than copied:

- `addressLine`: the address lines, skipping blank ones, built with a
  `StringBuilder` that puts `", "` before every retained line whose index is
  above 0;
- `addressLine1`: line 0 split on `,`, each token trimmed, tokens equal to
  the trimmed postal code, country name or country code dropped, the rest
  joined with `,` (no space).

Modules, in dependency order:

| file | module | models |
|---|---|---|
| `wrappers.dfy` | `Wrappers` | nullable references (`Option`) and operations that may throw (`Result`) |
| `java_strings.dfy` | `JavaStrings` | `String.trim()`, `String.split(",")` and joining, with Java's semantics |
| `addresses.dfy` | `Addresses` | the platform `Address` as a value, and the unchecked exceptions building a record can throw |
| `formatted_lines.dfy` | `FormattedLines` | `filterAddressLine` and the `StringBuilder` loop of `createAddressMap` |
| `address_maps.dfy` | `AddressMaps` | `createAddressMap`, `createAddressMapList` |
| `geocoder_plugin.dfy` | `GeocoderPlugin` | `onMethodCall`, `assertPresent`, the try/catch of the two `doInBackground` bodies |
| `address_line_examples.dfy` | `AddressLineExamples` | concrete addresses worked through the model |

The loops of the source are methods with loop invariants
(`FilterAddressLine`, `JoinAddressLines`, `CreateAddressMapList`), each
proved equal to a specification function (`FilteredFirstLine`,
`JoinedLines`, `AddressRecordListOf`) whose meaning is proved in lemmas.
The branching code (`onMethodCall`, `assertPresent`, the catch clauses) is
pure functions over a geocoder oracle: a presence flag and a function from
lookup request to reply (a list or an `IOException`).

Behaviours of the code that the model states:

- `addressLine1` joins the surviving tokens with `","` and no space: line
  `"123 Main St, Springfield, 62704, USA"` with postal code `"62704"` and
  country name `"USA"` gives `"123 Main St,Springfield"`
  (`AddressLineExamples.SpringfieldFirstLine`).
- When no token of line 0 survives, `substring(0, -1)` throws:
  `Err(NoSurvivingToken)`.
- `addressLine` appends lines untrimmed, and a blank line 0 followed by a
  retained line gives a leading `", "`.
- The coordinates entry is never null: `createCoordinatesMap` is called with
  the non-null address, and Android's `Address.getLatitude()` and
  `getLongitude()` throw `IllegalStateException` when either value was never
  set: `Err(MissingLocation)` for an address lacking either.
- An address without lines has a null line 0 (Android's `getAddressLine`
  returns null past `getMaxAddressLineIndex()`), so `split` throws
  `NullPointerException`: `Err(MissingFirstLine)`.
- None of these unchecked exceptions is caught by `doInBackground` (only
  `IOException` and `NotAvailableException` are), so the caller receives no
  response at all; the model's `Response` has a `Crashed` case for it.

## Model

| member | source | states |
|---|---|---|
| `JavaStrings.Trim` | android/src/main/java/com/aloisdeniel/geocoder/GeocoderPlugin.java:202 | `String.trim()` (also used at lines 143 and 189-191): never longer than its input, and the result neither starts nor ends with a character at or below U+0020; `TrimShape` pins it to the infix between the stripped runs |
| `JavaStrings.TrimShape` | android/src/main/java/com/aloisdeniel/geocoder/GeocoderPlugin.java:202 | `trim()` yields the infix between the leading and trailing runs of characters at or below U+0020, and the result neither starts nor ends with such a character |
| `JavaStrings.TrimEmptyIffBlank` | android/src/main/java/com/aloisdeniel/geocoder/GeocoderPlugin.java:143 | `trim()` yields `""` exactly when every character is at or below U+0020 |
| `JavaStrings.TrimKeepsAbsent` | android/src/main/java/com/aloisdeniel/geocoder/GeocoderPlugin.java:202 | a trimmed token contains no character its input lacks, so trimmed split pieces hold no `,` |
| `JavaStrings.Split` | android/src/main/java/com/aloisdeniel/geocoder/GeocoderPlugin.java:194 | `split(",")`: a string without `,` is its own single piece, otherwise the result is empty or ends in a non-empty piece; `SplitShape` and `SplitJoinWith` state the pieces themselves |
| `JavaStrings.SplitAll` | android/src/main/java/com/aloisdeniel/geocoder/GeocoderPlugin.java:194 | the pieces between separators contain no separator, there is at least one, and they join back to the input |
| `JavaStrings.SplitAllJoinWith` | android/src/main/java/com/aloisdeniel/geocoder/GeocoderPlugin.java:194 | splitting a join of separator-free parts gives the parts back |
| `JavaStrings.SplitShape` | android/src/main/java/com/aloisdeniel/geocoder/GeocoderPlugin.java:194 | `split(",")`: no piece holds `,`; without a `,` the string is the one piece; otherwise the pieces of `SplitAll` up to the last non-empty one, everything dropped being empty |
| `JavaStrings.SplitJoinWith` | android/src/main/java/com/aloisdeniel/geocoder/GeocoderPlugin.java:194 | `split(",")` undoes a join of two or more `,`-free parts whose last part is not empty |
| `JavaStrings.StripTrailingEmpty` | android/src/main/java/com/aloisdeniel/geocoder/GeocoderPlugin.java:194 | the result is a prefix of the pieces, ends in a non-empty piece or is empty, and every dropped piece is empty |
| `JavaStrings.JoinWithSnoc` | android/src/main/java/com/aloisdeniel/geocoder/GeocoderPlugin.java:205 | appending a part to a join adds one separator and the part |
| `FormattedLines.Survivors` | android/src/main/java/com/aloisdeniel/geocoder/GeocoderPlugin.java:196-206 | no more survivors than tokens, and every survivor differs from the trimmed postal code, country name and country code |
| `FormattedLines.KeptPositions` | android/src/main/java/com/aloisdeniel/geocoder/GeocoderPlugin.java:202-203 | increasing positions within the tokens |
| `FormattedLines.KeptPositionsExactly` | android/src/main/java/com/aloisdeniel/geocoder/GeocoderPlugin.java:202-203 | a position is listed exactly when its trimmed token passes the three comparisons |
| `FormattedLines.SurvivorsAreKeptTokens` | android/src/main/java/com/aloisdeniel/geocoder/GeocoderPlugin.java:196-206 | the survivors are exactly the trimmed tokens at the kept positions, in their order in line 0 |
| `FormattedLines.SurvivorsLackComma` | android/src/main/java/com/aloisdeniel/geocoder/GeocoderPlugin.java:194-202 | no survivor of a split contains `,` |
| `FormattedLines.CommaTerminatedIsJoin` | android/src/main/java/com/aloisdeniel/geocoder/GeocoderPlugin.java:205-214 | the concatenation of `token + ","` over one or more survivors is their `","`-join plus one `,` |
| `FormattedLines.CommaTerminatedDropLast` | android/src/main/java/com/aloisdeniel/geocoder/GeocoderPlugin.java:205-214 | dropping the last character of the concatenation of `token + ","` gives the `","`-join; the concatenation is empty exactly when there is no survivor |
| `FormattedLines.SurvivorsSnoc` | android/src/main/java/com/aloisdeniel/geocoder/GeocoderPlugin.java:196-206 | one more token adds its trimmed form to the survivors exactly when it passes the three comparisons |
| `FormattedLines.SurvivorsStep` | android/src/main/java/com/aloisdeniel/geocoder/GeocoderPlugin.java:202-205 | one loop iteration appends `token + ","` to the accumulated line when the token passes, and nothing otherwise |
| `FormattedLines.FilterAddressLine` | android/src/main/java/com/aloisdeniel/geocoder/GeocoderPlugin.java:186-215 | the loop's result is the `","`-join of the survivors of line 0; `MissingFirstLine` without lines, `NoSurvivingToken` when nothing survives |
| `FormattedLines.FilteredFirstLineTokens` | android/src/main/java/com/aloisdeniel/geocoder/GeocoderPlugin.java:196-214 | a successful `addressLine1` split on `,` is exactly the survivors in order, each passing the filter, and with a `,` appended it is the concatenation of `token + ","` over them |
| `FormattedLines.FilteredFirstLineFails` | android/src/main/java/com/aloisdeniel/geocoder/GeocoderPlugin.java:194-214 | the filter throws on a null line 0 exactly when there are no lines, and in `substring` exactly when line 0 has no survivor |
| `FormattedLines.EmptyTokenDropped` | android/src/main/java/com/aloisdeniel/geocoder/GeocoderPlugin.java:189-203 | a token empty after trimming is dropped exactly when the postal code, country name or country code is null or blank |
| `FormattedLines.NonBlankIndices` | android/src/main/java/com/aloisdeniel/geocoder/GeocoderPlugin.java:141-143 | increasing indices within the lines |
| `FormattedLines.NonBlankIndicesExactly` | android/src/main/java/com/aloisdeniel/geocoder/GeocoderPlugin.java:141-143 | an index is listed exactly when its line is not blank after trimming |
| `FormattedLines.NonBlankLines` | android/src/main/java/com/aloisdeniel/geocoder/GeocoderPlugin.java:143 | no more retained lines than lines, none of them blank |
| `FormattedLines.NonBlankLinesAreNonBlankIndices` | android/src/main/java/com/aloisdeniel/geocoder/GeocoderPlugin.java:141-147 | the retained lines are exactly the untrimmed lines at the non-blank indices, in index order |
| `FormattedLines.NonBlankLinesNone` | android/src/main/java/com/aloisdeniel/geocoder/GeocoderPlugin.java:141-143 | no line is retained exactly when every line is blank |
| `FormattedLines.NonBlankLinesFirst` | android/src/main/java/com/aloisdeniel/geocoder/GeocoderPlugin.java:143-147 | a non-blank line 0 is the first retained line |
| `FormattedLines.JoinedLinesStep` | android/src/main/java/com/aloisdeniel/geocoder/GeocoderPlugin.java:143-147 | one more index adds nothing for a blank line, and `", "` (when the index is above 0) plus the untrimmed line otherwise |
| `FormattedLines.JoinAddressLines` | android/src/main/java/com/aloisdeniel/geocoder/GeocoderPlugin.java:138-148 | the `StringBuilder` result is the non-blank lines joined with `", "`, with one more leading `", "` when line 0 is blank and a later line is not |
| `FormattedLines.JoinedLinesEmpty` | android/src/main/java/com/aloisdeniel/geocoder/GeocoderPlugin.java:138-148 | the joined line is `""` exactly when no line is retained (no lines, or all blank) |
| `FormattedLines.JoinWithHead` | android/src/main/java/com/aloisdeniel/geocoder/GeocoderPlugin.java:147 | a join starts with its first part |
| `AddressMaps.AddressRecordOfAddress` | android/src/main/java/com/aloisdeniel/geocoder/GeocoderPlugin.java:150-164 | a non-null address yields a record exactly when it has a location and a filterable line 0; the record holds the location, both formatted lines, and every named field unchanged |
| `AddressMaps.CreateAddressMap` | android/src/main/java/com/aloisdeniel/geocoder/GeocoderPlugin.java:132-169 | the method's result is the record specification: null for null, otherwise the record or the first exception |
| `AddressMaps.RecordsOf` | android/src/main/java/com/aloisdeniel/geocoder/GeocoderPlugin.java:176-182 | when nothing throws, one record per address with the i-th record built from the i-th address; otherwise the exception of the first address that throws |
| `AddressMaps.AddressRecordListOf` | android/src/main/java/com/aloisdeniel/geocoder/GeocoderPlugin.java:171-174 | a null list gives an empty list; a non-null one its element-wise records |
| `AddressMaps.CreateAddressMapList` | android/src/main/java/com/aloisdeniel/geocoder/GeocoderPlugin.java:171-183 | the `ArrayList` loop yields the list specification |
| `AddressMaps.RecordsOfFirstFailure` | android/src/main/java/com/aloisdeniel/geocoder/GeocoderPlugin.java:178-180 | the exception of the first throwing address is the exception of the list |
| `GeocoderPlugin.OnMethodCall` | android/src/main/java/com/aloisdeniel/geocoder/GeocoderPlugin.java:50-61 | `onMethodCall` together with the task it starts: not-implemented exactly for a name other than the two; `OnMethodCallRoutes` gives the lookup each of the two starts |
| `GeocoderPlugin.RequestOf` | android/src/main/java/com/aloisdeniel/geocoder/GeocoderPlugin.java:51-58 | the query name starts `getFromLocationName(address, 3)`, the coordinates name `getFromLocation(latitude, longitude, 3)`, and every other name no lookup |
| `GeocoderPlugin.AssertPresent` | android/src/main/java/com/aloisdeniel/geocoder/GeocoderPlugin.java:63-67 | `assertPresent` passes exactly when the geocoder is present and otherwise fails with `"not_available"` |
| `GeocoderPlugin.LookupOutcome` | android/src/main/java/com/aloisdeniel/geocoder/GeocoderPlugin.java:75-83 | a `doInBackground` body (also lines 100-108): `"not_available"` when the geocoder is absent, an error code only `"failed"` or `"not_available"`, never not-implemented; `LookupOutcomeCases` gives every case |
| `GeocoderPlugin.RouteOf` | android/src/main/java/com/aloisdeniel/geocoder/GeocoderPlugin.java:50-61 | the query branch exactly for `"findAddressesFromQuery"`, the coordinates branch exactly for `"findAddressesFromCoordinates"`, not-implemented exactly for every other name |
| `GeocoderPlugin.OnMethodCallRoutes` | android/src/main/java/com/aloisdeniel/geocoder/GeocoderPlugin.java:50-61 | the two names start their own lookup with a limit of 3; every other name, and only those, gets not-implemented |
| `GeocoderPlugin.NotAvailableBeforeLookup` | android/src/main/java/com/aloisdeniel/geocoder/GeocoderPlugin.java:63-67 | without a present geocoder both names answer `"not_available"` and the answer does not depend on what the lookup would do |
| `GeocoderPlugin.LookupOutcomeCases` | android/src/main/java/com/aloisdeniel/geocoder/GeocoderPlugin.java:75-83 | `"not_available"` exactly when absent, `"failed"` exactly when present and the lookup throws `IOException`, success with the mapped list or an escaped exception otherwise; never not-implemented |
| `GeocoderPlugin.NoMatchesIsEmptySuccess` | android/src/main/java/com/aloisdeniel/geocoder/GeocoderPlugin.java:77-78 | a lookup returning null or an empty list succeeds with an empty list |
| `GeocoderPlugin.AtMostThreeRecords` | android/src/main/java/com/aloisdeniel/geocoder/GeocoderPlugin.java:100-103 | against a geocoder that honours the requested maximum, a successful call has at most 3 records |
| `AddressLineExamples.SplitDropsTrailingEmpty` | android/src/main/java/com/aloisdeniel/geocoder/GeocoderPlugin.java:194 | `"a,b,,"` splits to `["a","b"]`: trailing empty pieces are dropped |
| `AddressLineExamples.SplitOfSeparatorOrEmpty` | android/src/main/java/com/aloisdeniel/geocoder/GeocoderPlugin.java:194 | `","` splits to `[]` and `""` to `[""]` |
| `AddressLineExamples.BlankFirstLineLeadsWithSeparator` | android/src/main/java/com/aloisdeniel/geocoder/GeocoderPlugin.java:141-147 | lines `["  ", "Main St"]` join to `", Main St"` |
| `AddressLineExamples.SpringfieldSplit` | android/src/main/java/com/aloisdeniel/geocoder/GeocoderPlugin.java:194 | line `"123 Main St, Springfield, 62704, USA"` splits into its four untrimmed tokens |
| `AddressLineExamples.SpringfieldSurvivors` | android/src/main/java/com/aloisdeniel/geocoder/GeocoderPlugin.java:196-206 | of those tokens, trimmed, only `"123 Main St"` and `"Springfield"` differ from postal code `"62704"` and country name `"USA"` |
| `AddressLineExamples.SpringfieldFirstLine` | android/src/main/java/com/aloisdeniel/geocoder/GeocoderPlugin.java:186-215 | line `"123 Main St, Springfield, 62704, USA"` with postal code `"62704"` and country name `"USA"` filters to `"123 Main St,Springfield"` |

## Left out

- Background execution (`AsyncTask`, `onPostExecute`) and the delivery of the response through `Result` on another thread: concurrency and framework plumbing; the model computes the one response a call leads to.
- Channel registration (`registerWith`) and the plugin constructor: host-framework lifecycle.
- `Geocoder.isPresent`, `getFromLocationName` and `getFromLocation`: platform services, modelled only as an oracle (`GeocoderPlugin.Geocoder`); that the platform returns at most the requested number of results is an assumption of `AtMostThreeRecords`, not something the plugin enforces.
- Reading the arguments with casts (`(String)`, `(Number)`) and `floatValue()`: a missing `latitude` or `longitude` (a `NullPointerException` at `floatValue()`) or a wrongly typed argument (a `ClassCastException`) throws in `onMethodCall` itself; a missing `address` is no error there, reaches `getFromLocationName` as null and makes the platform throw `IllegalArgumentException`, which no catch clause handles, so the background task dies. The model's `MethodCall.address` is never null and its oracle throws only `IOException`, so neither path is modelled; latitude and longitude are opaque values.
- Floating-point coordinates: kept as opaque `real` values that are copied, never computed with.
- `System.out.println` logging and the `ex.toString()` messages of the two error responses: diagnostics only; an error is modelled by its code.
- The key layout of the `HashMap`s: a record datatype with one field per key stands for it; the `Map` for the coordinates is the `Coordinates` value.
- Gaps in the address lines: Android can hold a null line below `getMaxAddressLineIndex()`, on which the `trim()` of the join loop would throw; the model's lines are contiguous and non-null.
- Android's process crash after an unchecked exception in the background task: the model stops at `Crashed`, meaning that no response reaches the caller.
