/** `Fitment\Labels`: the fitment labels of a group. It declares only the
    required `groupId`, keeps the `Base` check and URI, and hands value
    lookups to a fresh `Values` endpoint. */
module FitmentLabels {
  import opened Results
  import opened QueryValues
  import opened Parameters
  import opened ParameterTable
  import opened QueryValidation
  import opened Response
  import opened Base
  import opened FitmentValues

  const LabelsDecl := Declaration(Some("fitment/labels"), ["groupId"], [], Strict, Standard, [])

  /** `new Labels($client)`. */
  method NewLabels() returns (l: Endpoint)
    ensures fresh(l) && l.decl == LabelsDecl && l.path == "fitment/labels"
    ensures l.parameters == DeclaredTable(["groupId"], [])
    ensures l.errors == [] && l.fitmentName == ""
    ensures l.Valid()
  {
    l := new Endpoint(LabelsDecl);
  }

  /** The table after construction holds `groupId`, required, and
      nothing else. */
  lemma LabelsTable()
    ensures DeclaredTable(["groupId"], []) == [("groupId", Parameter(true))]
  {
    var required: seq<string> := ["groupId"];
    assert required[..0] == [];
    assert Declare([], required, true) == Put([], "groupId", Parameter(true));
  }

  /** The empty query fails with exactly one error, naming `groupId`. */
  lemma EmptyQueryRejected(q: Query)
    requires q == []
    ensures ValidationErrors(DeclaredTable(["groupId"], []), q) == ["groupId is required"]
    ensures RequestSpec(LabelsDecl, "fitment/labels", DeclaredTable(["groupId"], []), "", q)
         == Failure(InvalidArguments(["groupId is required"]))
  {
    var t := DeclaredTable(["groupId"], []);
    LabelsTable();
    var e := ("groupId", Parameter(true));
    assert Keys(q) == [];
    assert t[..0] == [];
    var none: seq<string> := [];
    assert Scan(t, []) == Visit(Scan([], []), e);
    assert Visit((none, none), e) == (none + ["groupId" + " is required"], none);
    assert "groupId" + " is required" == "groupId is required";
    assert none + ["groupId is required"] == ["groupId is required"];
    SuffixedOne("groupId", " is required");
    assert Suffixed(none, " is an invalid parameter") == [];
  }

  /** `{groupId: 1}` passes and gives a `GET` for `fitment/labels` with
      the query value `groupId=1`. */
  lemma GroupIdAccepted(q: Query)
    requires q == [("groupId", Scalar(Int(1)))]
    ensures ValidationErrors(DeclaredTable(["groupId"], []), q) == []
    ensures RequestSpec(LabelsDecl, "fitment/labels", DeclaredTable(["groupId"], []), "", q)
         == Success(Request("GET", RelativeUri("fitment/labels", [("groupId", "1")]), []))
  {
    var t := DeclaredTable(["groupId"], []);
    LabelsTable();
    var e := ("groupId", Parameter(true));
    var keys := Keys(q);
    assert keys == ["groupId"];
    assert t[..0] == [];
    var none: seq<string> := [];
    assert RemoveFirst(keys, "groupId") == [];
    assert e.1.Validate();
    assert Scan(t, keys) == Visit(Scan([], keys), e);
    assert Visit((none, keys), e) == (none + none, RemoveFirst(keys, "groupId"));
    assert none + none == none;
    assert Suffixed(none, " is an invalid parameter") == [];
    assert ValidationErrors(t, q) == [];
    var f := FormatSpec(t, q);
    assert Keys(t) == ["groupId"];
    assert q[..0] == [];
    assert FormatSpec(t, q[..0]) == Success([]);
    assert Lookup(t, "groupId") == Some(Parameter(true));
    assert Parameter(true).Sanitize(Scalar(Int(1))) == "1";
    var v := [("groupId", "1")];
    var noValues: seq<(string, string)> := [];
    assert noValues + v == v;
    assert f == Success(v);
  }

  /** Any key other than `groupId`, `parents` included, is an invalid
      parameter, and the request fails. */
  lemma OtherKeysRejected(q: Query, k: string)
    requires DistinctKeys(q) && k in Keys(q) && k != "groupId"
    ensures k + " is an invalid parameter" in ValidationErrors(DeclaredTable(["groupId"], []), q)
    ensures RequestSpec(LabelsDecl, "fitment/labels", DeclaredTable(["groupId"], []), "", q).Failure?
  {
    var t := DeclaredTable(["groupId"], []);
    LabelsTable();
    assert Keys(t) == ["groupId"];
    UndeclaredKeyReported(t, q, k);
  }

  /** `getValues($fitmentName, $query)`: a fresh `Values` endpoint for the
      name answers the query, under its own rules (`groupId` required,
      `parents` allowed) and at its own path. The labels endpoint itself
      is left as it was. */
  method GetValues(labels: Endpoint, fitmentName: string, q: Query,
                   send: Request -> RawResponse, jsonDecode: string -> Option<Json>)
    returns (r: Result<Response, Fault>)
    ensures var expected := RequestSpec(ValuesDecl, "fitment/labels", DeclaredTable(["groupId"], ["parents"]), fitmentName, q);
      (r.Failure? <==> expected.Failure?) &&
      (r.Failure? ==> r.error == expected.error) &&
      (r.Success? ==> r.value.httpStatus == send(expected.value).status &&
                      r.value.headers == send(expected.value).headers &&
                      r.value.body == DecodeBody(send(expected.value).body, jsonDecode))
    ensures labels.parameters == old(labels.parameters) && labels.errors == old(labels.errors)
  {
    var values := NewValues(fitmentName);
    r := values.Get(q, send, jsonDecode);
  }
}
