# PartsLogic search client: a Dafny model

This project models the search core of the PartsLogic PHP client. Each
search endpoint (`Base`, `Products`, `Fitment\Labels`, `Fitment\Labels\Values`)
declares the query parameters it accepts. It checks a query against that
allow-list and turns the query into a relative URI and a `GET` request. A
`Response` wraps what the transport returns. The model also covers
`Parameter`, the rule for one query argument: it has a `required` flag and a
rendering of the value (lists joined by `|`). It also covers the test
configuration `Tests\Config`, which maps `PARTSLOGIC_*` environment
variables onto camel-cased settings.

Modules:

- `Results`, `Strings`, `QueryValues`: `Option`/`Result`, string helpers
  (`Join`, `Split`, ASCII case mapping, `StartsWith`, `FlatMap`), and query
  values. A query is an ordered list of `(name, value)` pairs, as a PHP
  array is. A value is a scalar or a list of scalars.
- `UrlEncoding`: PHP's `urlencode` over the UTF-8 bytes of each character,
  with a decoder that inverts it.
- `Parameters`: `Parameter` and its `sanitize`/`cleanList`.
- `ParameterTable`: the declared-parameter table, an ordered map.
- `QueryValidation`: the walk that `Base::validate` runs. It is proved equal
  to an independent description: missing required names first, then
  undeclared keys.
- `FlatQuery`: the "flatten and repeat" query string that `Products` and
  `Values` build with `buildQuery`.
- `Response`: the response wrapper.
- `Base`: the class `Endpoint` covers `Base` and every subclass.
  - A `Declaration` carries what each subclass overrides: path, parameter
    lists, validation on or off, and URI style.
  - The specification functions `FormatSpec`, `UriSpec` and `RequestSpec`
    state what the methods compute.
- `Products`, `FitmentValues`, `FitmentLabels`: the three concrete
  endpoints.
- `TestConfig`, `ConfigExamples`: the test configuration and its test
  cases.

The `Products` and `Values` URI builders put `&` between the path and the
query string. The `Values` URI test expects `?` there. The model follows the
code, and `FitmentValues.ValuesUri` states the `&` form.

## Model

| member | source | states |
|---|---|---|
| Parameters.NewParameter | src/Search/Parameter.php:40-43 | the `required` flag given at construction is the one `isRequired` reads back |
| Parameters.Parameter.IsRequired | src/Search/Parameter.php:50-53 | the `required` flag the parameter was built with; `Parameters.NewParameter` ties it to the constructor argument |
| Parameters.ConstructorFlag | tests/PartsLogic/Search/ParameterTest.php:28-40 | the default parameter is not required; `new Parameter(true)` is |
| Parameters.Parameter.Validate | src/Search/Parameter.php:60-63 | every parameter accepts every value |
| Parameters.Parameter.Sanitize | src/Search/Parameter.php:71-75 | a list is sent as its escaped elements joined by the pipe, a scalar as its `strval`; `SanitizeListSplits` and `SanitizeScalarVerbatim` state what the rendering keeps |
| QueryValues.StrVal | src/Search/Parameter.php:73-74 | PHP's `strval` of a scalar: a string as it is, an integer in decimal, `true` as `1`, `false` and `null` as the empty string |
| QueryValues.Leaves | src/Search/Products.php:75-76 | the scalars the recursive walk visits in `(array)` of a value: a list's elements in order, a non-null scalar alone, nothing for `null` |
| Parameters.Escape | src/Search/Parameter.php:77-85 | an escaped list element never contains the pipe delimiter |
| Parameters.CleanList | src/Search/Parameter.php:77-85 | one escaped string per list element, in order |
| Parameters.SanitizeListSplits | src/Search/Parameter.php:71-75 | a rendered non-empty list splits on the pipe back into exactly its escaped elements, one per element |
| Parameters.SanitizeScalarVerbatim | src/Search/Parameter.php:71-75 | a string scalar is sent as it is, never escaped |
| Parameters.SanitizeSingleton | src/Search/Parameter.php:71-75 | a one-element list without a pipe renders as that element |
| Parameters.SanitizeScalarExamples | tests/PartsLogic/Search/ParameterTest.php:45-50 | the scalars `'string'`, `'a` pipe `b'` and `1` render as themselves, `1` as `'1'` |
| Parameters.SanitizeOneItemExample | tests/PartsLogic/Search/ParameterTest.php:46 | `['string']` renders as `string` |
| Parameters.SanitizeTwoItemsExample | tests/PartsLogic/Search/ParameterTest.php:47 | `[1, 2]` renders as `1`, pipe, `2` |
| Parameters.SanitizeEscapedExample | tests/PartsLogic/Search/ParameterTest.php:48 | the one-element list `a` pipe `b` renders as `a%7Cb` |
| UrlEncoding.UrlEncodeFormSafe | src/Search/Products.php:71-81 | encoded text holds only unreserved characters, `+` and `%HH`, so never `&`, `=` or the pipe |
| UrlEncoding.UrlDecodeEncode | src/Search/Products.php:71-81 | decoding an encoded string gives back exactly its UTF-8 bytes |
| UrlEncoding.UrlEncodeAppend | src/Search/Products.php:71-81 | encoding works character by character |
| UrlEncoding.UrlEncodeUnreserved | src/Search/Products.php:71-81 | letters, digits, `.`, `_` and `-` are sent unchanged |
| UrlEncoding.EncodePipe | src/Search/Parameter.php:77-85 | the pipe encodes as `%7C` |
| UrlEncoding.EncodeSpace | tests/PartsLogic/Search/Fitment/FitmentValuesTest.php:44-47 | `with space` encodes as `with+space` |
| QueryValues.Keys | src/Search/Base.php:150 | `array_keys`: the names of a query or of the declared table, one per entry, in order |
| ParameterTable.Lookup | src/Search/Base.php:232-236 | a name is found exactly when it is declared, with the parameter declared for it |
| ParameterTable.Put | src/Search/Base.php:189-192 | declaring a new name appends it; re-declaring one keeps its place |
| ParameterTable.PutLookup | src/Search/Base.php:189-192 | after `addParameter` the name reads back the new parameter and every other name is unchanged |
| ParameterTable.PutKeepsDistinct | src/Search/Base.php:189-192 | declared names stay distinct |
| ParameterTable.Declare | src/Search/Base.php:88-94 | one declaration loop: each listed name in turn is put into the table with a fresh parameter carrying the flag; `DeclareLookup` states the resulting lookups |
| ParameterTable.DeclaredTable | src/Search/Base.php:88-94 | the required names declared, then the optional ones; `DeclaredLookup` states what each name then reads |
| ParameterTable.DeclareLookup | src/Search/Base.php:88-94 | after a declaration loop each listed name holds the parameter with the given flag, and the rest are unchanged |
| ParameterTable.DeclareKeepsDistinct | src/Search/Base.php:88-94 | the declaration loops keep names distinct |
| ParameterTable.DeclareStep | src/Search/Base.php:88-94 | one more loop step puts the next name into the table built so far |
| ParameterTable.DeclaredLookup | src/Search/Base.php:88-94 | after construction an optional name is not required, a required-only name is required, and any other name is undeclared; an optional declaration overrides a required one |
| QueryValidation.RemoveFirst | src/Search/Base.php:155-156 | `array_splice` at `array_search`: the first occurrence of the name dropped, the rest kept in order; `RemoveFirstOfDistinct` states it for distinct keys |
| QueryValidation.Visit | src/Search/Base.php:154-165 | one `foreach` step over a declared name: found keys are spliced out, a missing required name pushes its error; `VisitMeaning` states its effect |
| QueryValidation.Scan | src/Search/Base.php:150-166 | the whole walk over the declared table: the errors it pushes and the keys it leaves; `ScanMeaning` states both |
| QueryValidation.ValidationErrors | src/Search/Base.php:146-181 | the walk's errors, then one invalid-parameter error per key left over; `ErrorsMeaning` and `PassesIff` state their meaning |
| QueryValidation.MissingNames | src/Search/Base.php:154-165 | exactly the required declared names absent from the query |
| QueryValidation.Undeclared | src/Search/Base.php:168-172 | exactly the query keys that are not declared |
| QueryValidation.Suffixed | src/Search/Base.php:146-181 | one message per name, in order, each the name followed by the fixed text |
| QueryValidation.RemoveFirstOfDistinct | src/Search/Base.php:155-156 | splicing out a key from distinct keys removes every occurrence of it |
| QueryValidation.UndeclaredExtend | src/Search/Base.php:154-156 | declaring one more name removes it from the unmatched keys |
| QueryValidation.UndeclaredDistinct | src/Search/Base.php:150-172 | unmatched keys of a PHP array stay distinct |
| QueryValidation.VisitMeaning | src/Search/Base.php:154-165 | one step of the walk adds the name's error exactly when it is required and missing, and removes it from the unmatched keys |
| QueryValidation.ScanMeaning | src/Search/Base.php:150-172 | the walk gives "`<name>` is required" for each missing required name in declaration order, and leaves exactly the undeclared keys in query order |
| QueryValidation.ErrorsMeaning | src/Search/Base.php:146-181 | the error list is the missing-name errors, then one "`<key>` is an invalid parameter" per undeclared key; "validation failed" never appears |
| QueryValidation.PassesIff | src/Search/Base.php:146-181 | the check passes exactly when every required name is given and every key is declared |
| QueryValidation.UndeclaredKeyReported | src/Search/Base.php:170-172 | each undeclared key is reported as an invalid parameter |
| QueryValidation.MissingNameReported | src/Search/Base.php:160-164 | each missing required name is reported as required |
| FlatQuery.Pair | src/Search/Products.php:77 | the encoded name, `=`, the encoded `strval` of the leaf; `PairSplits` states it splits back into the two |
| FlatQuery.Pairs | src/Search/Products.php:73-79 | every entry's pairs, entry after entry; `PairsCount` and `PairsAppend` state count and order |
| FlatQuery.QueryString | src/Search/Products.php:71-81 | the pairs joined by `&`; `QueryStringSplits` states that splitting on `&` gives them back |
| FlatQuery.EntryPairs | src/Search/Products.php:75-78 | one `name=value` pair per leaf of an entry, in list order |
| FlatQuery.BuildQuery | src/Search/Products.php:71-81 | `buildQuery` returns the `&`-join of every leaf's pair, entry after entry |
| FlatQuery.WalkLeaves | src/Search/Products.php:75-78 | the walk appends exactly the entry's pairs to `clean` |
| FlatQuery.PairsCount | src/Search/Products.php:71-81 | one pair per leaf: a list counts its length, `null` nothing |
| FlatQuery.PairsAppend | src/Search/Products.php:74-79 | entries are emitted in query order |
| FlatQuery.SingleEntryPairs | src/Search/Products.php:75-78 | one entry repeats its name once per list element; a list is never pipe-joined |
| FlatQuery.PairAvoids | src/Search/Products.php:77 | a pair holds no character that `urlencode` escapes, apart from its own `=` |
| FlatQuery.PairSplits | src/Search/Products.php:77 | a pair splits on `=` into the encoded name and the encoded value |
| FlatQuery.QueryStringSplits | src/Search/Products.php:71-81 | splitting the query string on `&` recovers exactly the pairs, one per leaf, in order |
| FlatQuery.PairsAvoidAmpersand | src/Search/Products.php:71-81 | no pair contains `&` |
| FlatQuery.EntryAvoidsAmpersand | src/Search/Products.php:75-78 | no pair of an entry contains `&` |
| FlatQuery.NoLeavesNoQueryString | src/Search/Products.php:71-81 | a query without leaves gives the empty string |
| FlatQuery.PlainPair | src/Search/Products.php:77 | an unreserved name and value give the plain `name=value` |
| FlatQuery.OneScalar | src/Search/Products.php:71-81 | one non-null scalar gives its single pair |
| FlatQuery.PlainName | src/Search/Products.php:77 | with an unreserved name only the value is encoded |
| FlatQuery.TwoScalars | src/Search/Products.php:71-81 | two scalars give their two pairs joined by `&` |
| FlatQuery.TwoLeaves | src/Search/Products.php:75-78 | a two-element list repeats the name for each element |
| FlatQuery.TwoEntryPairs | src/Search/Products.php:74-79 | two entries give the first entry's pairs, then the second's |
| FlatQuery.OneParameterExample | tests/PartsLogic/Search/Fitment/FitmentValuesTest.php:40-43 | `{test: 'foo'}` gives `test=foo` |
| FlatQuery.EncodedParameterExample | tests/PartsLogic/Search/Fitment/FitmentValuesTest.php:44-47 | `{test: 'with space'}` gives `test=with+space` |
| FlatQuery.TwoParametersExample | tests/PartsLogic/Search/Fitment/FitmentValuesTest.php:48-51 | `{test: 1, foo: 2}` gives `test=1&foo=2` |
| FlatQuery.ListParameterExample | tests/PartsLogic/Search/Fitment/FitmentValuesTest.php:56-59 | `{test: [1, 2]}` gives `test=1&test=2` |
| Response.DecodeBody | src/Search/Response.php:103-106 | the decoded document, or `null` when the text does not decode |
| Response.Response.constructor | src/Search/Response.php:51-54 | status and headers are kept as given, and the body is decoded once |
| Response.Response.IsSuccess | src/Search/Response.php:71-74 | success is exactly status 200 |
| Response.PingOkExample | tests/PartsLogic/Search/ResponseTest.php:56-62 | a 200 answer whose body decodes to `"OK"` reads back as body `"OK"`, status 200, success, and the given headers |
| Base.FormatSpec | src/Search/Base.php:224-240 | the query values rendered by their declared parameters, or the first undeclared key as the error; `FormatSpecMeaning` and `FormatSpecFirstFailure` state both outcomes |
| Base.FormatSpecMeaning | src/Search/Base.php:224-240 | formatting succeeds exactly when every key is declared, and each value is then replaced by its own key's parameter's rendering, in query order |
| Base.FormatSpecFirstFailure | src/Search/Base.php:231-234 | a failure names the first undeclared key in query order |
| Base.ValidatedQueryFormats | src/Search/Base.php:133-137 | a query that passed the check always formats |
| Base.StrictRequest | src/Search/Base.php:133-181 | with the check on, a `GET` with the endpoint's headers is built exactly when required names are given and all keys are declared; otherwise the failure carries the error list |
| Base.UncheckedRequest | src/Search/Products.php:42-45 | with the check off and the flat URI, every query gives a `GET` |
| Base.FlatRequest | src/Search/Products.php:55-63 | a built flat-style request is a `GET` for the flat URI with no separate query |
| Base.FlatUri | src/Search/Products.php:55-63 | the path, `/`, the fitment name, then `&` and the query string when the query is not empty; `FlatUriForm` states it |
| Base.UriSpec | src/Search/Base.php:212-216 | the standard style gives the path with the formatted values as the query, the flat style `FlatUri`; `Base.Endpoint.Uri` is proved to compute it |
| Base.RequestSpec | src/Search/Base.php:133-137 | validation first (when on), then a `GET` for the URI with the endpoint's headers; `StrictRequest` and `UncheckedRequest` state when a request is built |
| Base.FlatUriForm | src/Search/Products.php:55-63 | the flat URI is `<path>/<name>`, followed by `&` and the query string when the query is not empty |
| Base.UndeclaredKeyExample | tests/PartsLogic/Search/ApiBaseTest.php:101-106 | the key `test` with nothing declared gives exactly one error, "test is an invalid parameter", whatever its value (`1` here, `'foo'` in the no-query-exception case) |
| Base.TwoRequiredExample | tests/PartsLogic/Search/ApiBaseTest.php:95-100 | two required names and an empty query give two errors, in declaration order |
| Base.ListParameterPasses | tests/PartsLogic/Search/ApiBaseTest.php:81-84 | a declared list parameter passes |
| Base.SampleRequestExample | tests/PartsLogic/Search/ApiBaseTest.php:162-183 | `{testQuery: 'testValue'}` gives a `GET` for `/` with query `testQuery=testValue` and the sample header |
| Base.Endpoint.constructor | src/Search/Base.php:82-98 | the table holds the required names, then the optional ones, with no errors |
| Base.Endpoint.DeclareAll | src/Search/Base.php:88-94 | each name in turn is declared with a fresh parameter carrying the flag, giving the declared table |
| Base.Endpoint.Create | src/Search/Base.php:82-98 | construction fails exactly when the path is unset; otherwise the table is the declared one |
| Base.Endpoint.AddParameter | src/Search/Base.php:189-192 | the name is declared, overwriting any earlier declaration, and names stay distinct |
| Base.Endpoint.GetErrors | src/Search/Base.php:199-202 | the errors of the last validation |
| Base.Endpoint.Validate | src/Search/Base.php:146-181 | with the check on, the errors are recomputed and the query passes exactly when there are none; with it off, every query passes and the errors are untouched |
| Base.Endpoint.FormatQueryParams | src/Search/Base.php:224-240 | the loop computes `FormatSpec`, so each value is rendered by its declared parameter, and an undeclared key aborts |
| Base.Endpoint.Uri | src/Search/Base.php:212-216 | the URI for the endpoint's style: path plus formatted values, or the flat URI |
| Base.Endpoint.Headers | src/Search/Base.php:248-251 | the endpoint's own headers |
| Base.Endpoint.BuildRequest | src/Search/Base.php:133-137 | the request is `RequestSpec`: validation first, then always a `GET` |
| Base.Endpoint.Get | src/Search/Base.php:106-112 | a failing request build fails with the same error; otherwise the response wraps what the transport returns for the built request |
| Products.NewProducts | src/Search/Products.php:28-31 | path `products`, `page` required, `limit` and `q` optional, fitment name empty |
| Products.ProductsParameters | src/Search/Products.php:30-31 | `page` is required, `limit` and `q` are optional, and nothing else is declared |
| Products.ProductsNeverRejects | src/Search/Products.php:42-63 | every query gives a `GET` for `products/`, then `&` and the query string when the query is not empty |
| Products.NullOnlyQuery | src/Search/Products.php:55-81 | a query holding only `null` gives the path `products/&` |
| Products.DriveFacetExample | tests/PartsLogic/Search/ProductsTest.php:43-58 | an undeclared two-value facet is accepted and the query gives four pairs |
| FitmentValues.NewValues | src/Search/Fitment/Labels/Values.php:40-44 | path `fitment/labels`, `groupId` required, `parents` optional, and the fitment name stored |
| FitmentValues.ValuesTable | src/Search/Fitment/Labels/Values.php:31-32 | the table after construction, entry by entry |
| FitmentValues.ValuesAccepts | src/Search/Fitment/Labels/Values.php:31-32 | a request is built exactly when `groupId` is given and no key other than `groupId` and `parents` is |
| FitmentValues.ValuesUri | src/Search/Fitment/Labels/Values.php:54-62 | an accepted query gives a `GET` for `fitment/labels/<name>&<query string>` |
| FitmentValues.ValuesUriExamples | tests/PartsLogic/Search/Fitment/FitmentValuesTest.php:36-43 | `fitment/labels/year` for the empty query and `fitment/labels/year&test=foo` for `{test: 'foo'}` |
| FitmentLabels.NewLabels | src/Search/Fitment/Labels.php:30-33 | path `fitment/labels`, only `groupId` declared, as required |
| FitmentLabels.LabelsTable | src/Search/Fitment/Labels.php:32-33 | the table after construction holds `groupId`, required, and nothing else |
| FitmentLabels.EmptyQueryRejected | src/Search/Fitment/Labels.php:32-33 | the empty query fails with exactly "groupId is required" |
| FitmentLabels.GroupIdAccepted | tests/PartsLogic/Search/Fitment/FitmentLabelsTest.php:30-36 | `{groupId: 1}` gives a `GET` for `fitment/labels` with query `groupId=1` |
| FitmentLabels.OtherKeysRejected | src/Search/Fitment/Labels.php:32-33 | any key other than `groupId` is an invalid parameter and the request fails |
| FitmentLabels.GetValues | src/Search/Fitment/Labels.php:42-47 | a fresh `Values` endpoint answers under its own rules and path, and the labels endpoint is left as it was |
| TestConfig.RemoveAll | tests/support/Config.php:80 | removing the marker never lengthens the name; `InnerOccurrenceRemoved` and `MarkersRemoved` state that every marker goes |
| TestConfig.RemoveAllAbsent | tests/support/Config.php:80 | a name without the marker is left unchanged |
| TestConfig.RemoveLeading | tests/support/Config.php:80 | a leading marker is removed |
| TestConfig.RemoveAllSkips | tests/support/Config.php:80 | removal passes over text that cannot start the marker |
| TestConfig.LowerAll | tests/support/Config.php:81 | `strtolower`: each character mapped to lower case, the length kept |
| TestConfig.UcWords | tests/support/Config.php:81 | `ucwords(s, '_')`: the first character and each one after `_` upper-cased; `CamelWords` states it word by word |
| TestConfig.LcFirst | tests/support/Config.php:81 | `lcfirst`: the first character lower-cased; `LcFirstUcWords` states that it undoes the capital `ucwords` gives |
| TestConfig.Camelize | tests/support/Config.php:81 | the result holds no `_` |
| TestConfig.PropertyFromEnvName | tests/support/Config.php:74-84 | a name not starting with `PARTSLOGIC_` gives nothing; a property given is non-empty and holds no `_` |
| TestConfig.CamelizeWords | tests/support/Config.php:81 | camel-casing `_`-joined words gives the first word lower-cased, then each later word lower-cased and capitalised |
| TestConfig.CamelizeSplit | tests/support/Config.php:81 | every string camel-cases to the word-by-word description of its `_`-separated words |
| TestConfig.CamelizeEmpty | tests/support/Config.php:81-83 | the camel case is empty exactly when the input is only underscores |
| TestConfig.MarkedNameCamelized | tests/support/Config.php:74-84 | a marker followed by a rest without a second marker gives the camel case of the rest, or nothing when that is empty |
| TestConfig.MarkedName | tests/support/Config.php:74-84 | such a name gives nothing when the rest is only underscores, and otherwise the word-by-word camel case of the rest |
| TestConfig.MarkedNameWithoutG | tests/support/Config.php:74-84 | a rest without `G` cannot hold a second marker |
| TestConfig.TwoWordName | tests/support/Config.php:74-84 | `PARTSLOGIC_A_B` gives `a` followed by `B` capitalised |
| TestConfig.ThreeWordName | tests/support/Config.php:74-84 | `PARTSLOGIC_A_B_C` gives the three words camel-cased |
| TestConfig.NoStraddle | tests/support/Config.php:80 | an occurrence of a needle whose last character is unique in it cannot start inside a text holding none and run on into the needle right after it |
| TestConfig.InnerOccurrenceRemoved | tests/support/Config.php:80 | for such a needle, `RemoveAll(x + needle + y) == x + RemoveAll(y)` whenever `x` holds no occurrence |
| TestConfig.InnerMarkerRemoved | tests/support/Config.php:80 | `PARTSLOGIC_` is such a needle: a marker after marker-free text is removed and the text kept |
| TestConfig.MarkersRemoved | tests/support/Config.php:80 | marker-free pieces joined by markers lose every marker: the result is the pieces put together |
| TestConfig.InnerMarkersDropped | tests/support/Config.php:74-84 | a name made of the marker and marker-free pieces joined by further markers gives the camel case of the pieces put together, or nothing when that is empty |
| TestConfig.Assign | tests/support/Config.php:65-70 | one variable: its value is stored under the property its name gives, and nothing changes when the name gives none; `AppliedLastWins` and `AppliedUntouched` state the effect |
| TestConfig.Applied | tests/support/Config.php:63-72 | the variables assigned in order; `AppliedLastWins`, `AppliedUntouched` and `AppliedKeepsNames` state its meaning |
| TestConfig.AppliedLastWins | tests/support/Config.php:63-72 | a property holds the value of the last variable whose name gives it |
| TestConfig.AppliedUntouched | tests/support/Config.php:63-72 | a property that no variable names keeps its value, or stays absent |
| TestConfig.AppliedKeepsNames | tests/support/Config.php:63-72 | applying the environment never removes a property |
| TestConfig.Config.constructor | tests/support/Config.php:35-47 | the defaults, then the environment applied in order |
| TestConfig.Config.SetConfigFromEnvironment | tests/support/Config.php:63-72 | each variable in turn stores its value under the property its name gives |
| TestConfig.Config.Get | tests/support/Config.php:49-61 | a set property reads back its value; a missing one fails with "does not exist", and a `null` one with "has not been set for client" |
| TestConfig.EnvOverride | tests/PartsLogic/ConfigTest.php:80-87 | an overriding variable's property reads back its value, and every other default reads back unchanged |
| ConfigExamples.TestPropertyName | tests/PartsLogic/ConfigTest.php:35-42 | `PARTSLOGIC_TEST_PROPERTY_NAME` gives `testPropertyName` |
| ConfigExamples.ApiKey | tests/PartsLogic/ConfigTest.php:71 | `PARTSLOGIC_API_KEY` gives `apiKey` |
| ConfigExamples.ApiEndpoint | tests/PartsLogic/ConfigTest.php:72 | `PARTSLOGIC_API_ENDPOINT` gives `apiEndpoint` |
| ConfigExamples.UseMockResponses | tests/PartsLogic/ConfigTest.php:73 | `PARTSLOGIC_USE_MOCK_RESPONSES` gives `useMockResponses` |
| ConfigExamples.InnerMarkerExample | tests/support/Config.php:80 | `PARTSLOGIC_API_PARTSLOGIC_KEY` gives `apiKey`: the second marker is removed like the first |
| ConfigExamples.NoPropertyExamples | tests/PartsLogic/ConfigTest.php:44-66 | the prefix alone, the prefix with `_`, and the prefix not at the start all give nothing |
| ConfigExamples.DefaultsExample | tests/support/Config.php:35-38 | without an environment the four defaults read back, and an unknown name does not exist |
| ConfigExamples.EnvOverrideExamples | tests/PartsLogic/ConfigTest.php:68-87 | each of the three test variables sets its property, and the debug flag keeps its default |

## Left out

- The HTTP transport, the mock handler and logging are left out. `Base::sendRequest` becomes the `send` parameter of `Base.Endpoint.Get`. `Client.php` and `Api.php` are not part of this model.
- Guzzle's `Uri` and `Request` objects are reduced to a path and an ordered list of query values. How Guzzle encodes that query is not modelled. `Base.QueryText` joins the values unencoded, which matches the test values.
- `json_decode` is a function parameter. The JSON grammar is not modelled. Numbers are integers only.
- `InvalidArgumentsException` carries the error list itself, not the `print_r` text of it.
- Query values are strings, integers, booleans, `null`, or flat lists of those. Nested arrays and floats are left out. `in_array`'s loose comparison is not modelled, because keys are compared as strings.
- PHP array keys are unique. The lemmas that need this state it as `DistinctKeys` or `Distinct` in their requires, and `Endpoint.Valid` keeps it for the declared names.
- `$errors` starts as `null` in PHP. The model starts it as the empty list.
- `Base.Endpoint.Create`: a path of `""` is accepted, as PHP's `=== null` accepts it.
- `Products` never declares `$fitmentName`. Reading it gives `null` and, in PHP 8, an "Undefined property" warning. The model uses `""`, so the path starts `products/`.
- `Response.Response.GetBody`, `GetStatusCode`, `GetHeaders`: plain getters without an `ensures` of their own. `Response.PingOkExample` states what they read back.
- `TestConfig.Config.Get`: dynamic properties created by `setConfigFromEnvironment` are public in PHP and are read directly, not through `__get`. The model reads every property through `Get`, so a dynamic property holding `null` fails with "has not been set" where PHP would return `null`.
- `TestConfig.Config.constructor`: the default environment `$_ENV` is not modelled. The environment is always a parameter.
- `strtolower`, `ucwords` and `lcfirst` are modelled on ASCII only, as PHP 8.2 and later do. Locale-dependent case mapping is left out.
- Integer environment keys are left out. Variable names are strings.
