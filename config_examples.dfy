/** The environment names and settings the configuration tests use. */
module ConfigExamples {
  import opened Results
  import opened Strings
  import opened TestConfig

  // Each test word in lower case, or with a capital first letter.

  lemma LowerTest(w: string, l: string)
    requires w == "TEST" && l == "test"
    ensures LowerAll(w) == l
  {
  }

  lemma LowerApi(w: string, l: string)
    requires w == "API" && l == "api"
    ensures LowerAll(w) == l
  {
  }

  lemma LowerUse(w: string, l: string)
    requires w == "USE" && l == "use"
    ensures LowerAll(w) == l
  {
  }

  lemma CapitalProperty(w: string, c: string)
    requires w == "PROPERTY" && c == "Property"
    ensures Capitalize(LowerAll(w)) == c
  {
  }

  lemma CapitalName(w: string, c: string)
    requires w == "NAME" && c == "Name"
    ensures Capitalize(LowerAll(w)) == c
  {
  }

  lemma CapitalKey(w: string, c: string)
    requires w == "KEY" && c == "Key"
    ensures Capitalize(LowerAll(w)) == c
  {
  }

  lemma CapitalEndpoint(w: string, c: string)
    requires w == "ENDPOINT" && c == "Endpoint"
    ensures Capitalize(LowerAll(w)) == c
  {
  }

  lemma CapitalMock(w: string, c: string)
    requires w == "MOCK" && c == "Mock"
    ensures Capitalize(LowerAll(w)) == c
  {
  }

  lemma CapitalResponses(w: string, c: string)
    requires w == "RESPONSES" && c == "Responses"
    ensures Capitalize(LowerAll(w)) == c
  {
  }

  // How each test name is spelt: the marker and its words.

  lemma TestPropertySpelling(name: string, a: string, b: string, c: string)
    requires name == "PARTSLOGIC_TEST_PROPERTY_NAME" && a == "TEST" && b == "PROPERTY" && c == "NAME"
    ensures '_' !in a && '_' !in b && '_' !in c && 'G' !in a + "_" + b + "_" + c
    ensures name == EnvMarker + (a + "_" + b + "_" + c)
  {
  }

  lemma ApiKeySpelling(name: string, a: string, b: string)
    requires name == "PARTSLOGIC_API_KEY" && a == "API" && b == "KEY"
    ensures '_' !in a && '_' !in b && 'G' !in a + "_" + b
    ensures name == EnvMarker + (a + "_" + b)
  {
  }

  lemma ApiEndpointSpelling(name: string, a: string, b: string)
    requires name == "PARTSLOGIC_API_ENDPOINT" && a == "API" && b == "ENDPOINT"
    ensures '_' !in a && '_' !in b && 'G' !in a + "_" + b
    ensures name == EnvMarker + (a + "_" + b)
  {
  }

  lemma UseMockResponsesSpelling(name: string, a: string, b: string, c: string)
    requires name == "PARTSLOGIC_USE_MOCK_RESPONSES" && a == "USE" && b == "MOCK" && c == "RESPONSES"
    ensures '_' !in a && '_' !in b && '_' !in c && 'G' !in a + "_" + b + "_" + c
    ensures name == EnvMarker + (a + "_" + b + "_" + c)
  {
  }

  lemma Concat2(a: string, b: string, r: string)
    requires (a == "api" && b == "Key" && r == "apiKey") || (a == "api" && b == "Endpoint" && r == "apiEndpoint")
    ensures a + b == r
  {
  }

  lemma Concat3(a: string, b: string, c: string, r: string)
    requires (a == "test" && b == "Property" && c == "Name" && r == "testPropertyName")
          || (a == "use" && b == "Mock" && c == "Responses" && r == "useMockResponses")
    ensures a + b + c == r
  {
  }

  /** `PARTSLOGIC_TEST_PROPERTY_NAME` gives `testPropertyName`. */
  lemma TestPropertyName(name: string)
    requires name == "PARTSLOGIC_TEST_PROPERTY_NAME"
    ensures PropertyFromEnvName(name) == Some("testPropertyName")
  {
    var a, b, c := "TEST", "PROPERTY", "NAME";
    var la, cb, cc := "test", "Property", "Name";
    var property := "testPropertyName";
    LowerTest(a, la);
    CapitalProperty(b, cb);
    CapitalName(c, cc);
    Concat3(la, cb, cc, property);
    TestPropertySpelling(name, a, b, c);
    ThreeWordName(name, a, b, c, property);
  }

  /** `PARTSLOGIC_API_KEY` gives `apiKey`. */
  lemma ApiKey(name: string)
    requires name == "PARTSLOGIC_API_KEY"
    ensures PropertyFromEnvName(name) == Some("apiKey")
  {
    var a, b := "API", "KEY";
    var la, cb := "api", "Key";
    var property := "apiKey";
    LowerApi(a, la);
    CapitalKey(b, cb);
    Concat2(la, cb, property);
    ApiKeySpelling(name, a, b);
    TwoWordName(name, a, b, property);
  }

  /** `PARTSLOGIC_API_ENDPOINT` gives `apiEndpoint`. */
  lemma ApiEndpoint(name: string)
    requires name == "PARTSLOGIC_API_ENDPOINT"
    ensures PropertyFromEnvName(name) == Some("apiEndpoint")
  {
    var a, b := "API", "ENDPOINT";
    var la, cb := "api", "Endpoint";
    var property := "apiEndpoint";
    LowerApi(a, la);
    CapitalEndpoint(b, cb);
    Concat2(la, cb, property);
    ApiEndpointSpelling(name, a, b);
    TwoWordName(name, a, b, property);
  }

  /** `PARTSLOGIC_USE_MOCK_RESPONSES` gives `useMockResponses`. */
  lemma UseMockResponses(name: string)
    requires name == "PARTSLOGIC_USE_MOCK_RESPONSES"
    ensures PropertyFromEnvName(name) == Some("useMockResponses")
  {
    var a, b, c := "USE", "MOCK", "RESPONSES";
    var la, cb, cc := "use", "Mock", "Responses";
    var property := "useMockResponses";
    LowerUse(a, la);
    CapitalMock(b, cb);
    CapitalResponses(c, cc);
    Concat3(la, cb, cc, property);
    UseMockResponsesSpelling(name, a, b, c);
    ThreeWordName(name, a, b, c, property);
  }

  lemma InnerMarkerSpelling(name: string, x: string, y: string, a: string, b: string)
    requires name == "PARTSLOGIC_API_PARTSLOGIC_KEY" && x == "API_" && y == "KEY" && a == "API" && b == "KEY"
    ensures 'G' !in x && 'G' !in y && '_' !in a && '_' !in b
    ensures name == EnvMarker + Join([x, y], EnvMarker)
    ensures Join([x, y], "") == a + "_" + b
  {
    assert [x, y][1..] == [y];
  }

  /** `PARTSLOGIC_API_PARTSLOGIC_KEY` gives `apiKey` as well: the second
      marker is dropped like the first. */
  lemma InnerMarkerExample(name: string)
    requires name == "PARTSLOGIC_API_PARTSLOGIC_KEY"
    ensures PropertyFromEnvName(name) == Some("apiKey")
  {
    var x, y := "API_", "KEY";
    var a, b := "API", "KEY";
    var la, cb := "api", "Key";
    var property := "apiKey";
    InnerMarkerSpelling(name, x, y, a, b);
    assert 'G' in EnvMarker by { assert EnvMarker[7] == 'G'; }
    MissingCharNoOccurrence(x, EnvMarker, 'G');
    MissingCharNoOccurrence(y, EnvMarker, 'G');
    var pieces := [x, y];
    assert forall i :: 0 <= i < |pieces| ==> !Occurs(pieces[i], EnvMarker);
    InnerMarkersDropped(pieces);
    LowerApi(a, la);
    CapitalKey(b, cb);
    Concat2(la, cb, property);
    CamelizeTwo(a, b);
  }

  /** The prefix alone, the prefix and `_` alone, and the prefix somewhere
      other than at the start give no property. */
  lemma NoPropertyExamples(prefixOnly: string, marker: string, later: string)
    requires prefixOnly == "PARTSLOGIC" && marker == "PARTSLOGIC_"
    requires later == "NO_MATCHPARTSLOGIC_TEST_PROPERTY_NAME"
    ensures PropertyFromEnvName(prefixOnly) == None
    ensures PropertyFromEnvName(marker) == None
    ensures PropertyFromEnvName(later) == None
  {
    assert !StartsWith(prefixOnly, EnvMarker);
    var empty := "";
    MarkedNameWithoutG(empty);
    assert Camelize(empty) == "";
    assert EnvMarker + empty == marker;
    assert later[0] != EnvMarker[0];
    assert !StartsWith(later, EnvMarker);
  }

  /** Without an environment every default reads back, and any other name
      does not exist. */
  method DefaultsExample() returns (apiKey: Result<Setting, ConfigFault>, apiEndpoint: Result<Setting, ConfigFault>,
                                    useMockResponses: Result<Setting, ConfigFault>, enableDebug: Result<Setting, ConfigFault>,
                                    other: Result<Setting, ConfigFault>)
    ensures apiKey == Success(Text("test-api-key"))
    ensures apiEndpoint == Success(Text("https://api.sunhammer.io"))
    ensures useMockResponses == Success(Flag(true))
    ensures enableDebug == Success(Flag(false))
    ensures other == Failure(DoesNotExist("'other' does not exist."))
  {
    var c := new Config([]);
    apiKey := c.Get("apiKey");
    apiEndpoint := c.Get("apiEndpoint");
    useMockResponses := c.Get("useMockResponses");
    enableDebug := c.Get("enableDebug");
    other := c.Get("other");
    assert "'" + "other" + "' does not exist." == "'other' does not exist.";
  }

  /** The overrides of the tests: each of the three variables sets its
      property, and the debug flag keeps its default. */
  method EnvOverrideExamples(value: Setting) returns (apiKey: Result<Setting, ConfigFault>, apiEndpoint: Result<Setting, ConfigFault>,
                                                      useMockResponses: Result<Setting, ConfigFault>, enableDebug: Result<Setting, ConfigFault>)
    requires value != Unset
    ensures apiKey == Success(value) && apiEndpoint == Success(value) && useMockResponses == Success(value)
    ensures enableDebug == Success(Flag(false))
  {
    var debug := "enableDebug";
    var name := "PARTSLOGIC_API_KEY";
    ApiKey(name);
    apiKey, enableDebug := EnvOverride(name, value, debug);
    name := "PARTSLOGIC_API_ENDPOINT";
    ApiEndpoint(name);
    apiEndpoint, enableDebug := EnvOverride(name, value, debug);
    name := "PARTSLOGIC_USE_MOCK_RESPONSES";
    UseMockResponses(name);
    useMockResponses, enableDebug := EnvOverride(name, value, debug);
  }
}
