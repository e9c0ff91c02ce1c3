/** `Fitment\Labels\Values`: the values of one fitment label. It keeps the
    `Base` allow-list check (`groupId` required, `parents` optional) but
    builds its URI itself: the label's path, the fitment name, then the
    flat query string. */
module FitmentValues {
  import opened Results
  import opened QueryValues
  import opened Parameters
  import opened ParameterTable
  import opened QueryValidation
  import opened FlatQuery
  import opened Base

  const ValuesDecl := Declaration(Some("fitment/labels"), ["groupId"], ["parents"], Strict, PathAndFlatQuery, [])

  /** `new Values($client, $fitmentName)`: the `Base` construction, then
      the fitment name is stored; the path stays `fitment/labels`. */
  method NewValues(fitmentName: string) returns (v: Endpoint)
    ensures fresh(v) && v.decl == ValuesDecl && v.path == "fitment/labels"
    ensures v.parameters == DeclaredTable(["groupId"], ["parents"])
    ensures v.errors == [] && v.fitmentName == fitmentName
    ensures v.Valid()
  {
    v := new Endpoint(ValuesDecl);
    v.fitmentName := fitmentName;
  }

  /** The table after construction, entry by entry. */
  lemma ValuesTable()
    ensures DeclaredTable(["groupId"], ["parents"]) == [("groupId", Parameter(true)), ("parents", Parameter(false))]
  {
    var required: seq<string>, optional: seq<string> := ["groupId"], ["parents"];
    assert required[..0] == [] && optional[..0] == [];
    var t1 := Declare([], required, true);
    assert t1 == Put([], "groupId", Parameter(true)) == [("groupId", Parameter(true))];
    assert Keys(t1) == ["groupId"];
    assert "parents" !in Keys(t1);
    assert Declare(t1, optional, false) == Put(t1, "parents", Parameter(false));
    assert Put(t1, "parents", Parameter(false)) == [("groupId", Parameter(true)), ("parents", Parameter(false))];
  }

  lemma ValuesTableRules(t: Table, keys: seq<string>)
    requires t == [("groupId", Parameter(true)), ("parents", Parameter(false))]
    ensures (forall i :: 0 <= i < |t| && t[i].1.IsRequired() ==> t[i].0 in keys) <==> "groupId" in keys
    ensures forall k :: k in Keys(t) <==> k == "groupId" || k == "parents"
  {
    assert Keys(t) == ["groupId", "parents"];
    assert |t| == 2 && t[0].0 == "groupId" && t[0].1.IsRequired() && !t[1].1.IsRequired();
    if "groupId" in keys {
      forall i | 0 <= i < |t| && t[i].1.IsRequired() ensures t[i].0 in keys {
        assert i == 0;
      }
    }
  }

  /** A request is built exactly when `groupId` is given and no key other
      than `groupId` and `parents` is. */
  lemma ValuesAccepts(fitmentName: string, q: Query)
    requires DistinctKeys(q)
    ensures RequestSpec(ValuesDecl, "fitment/labels", DeclaredTable(["groupId"], ["parents"]), fitmentName, q).Success?
        <==> "groupId" in Keys(q) && forall k :: k in Keys(q) ==> k == "groupId" || k == "parents"
  {
    var t := DeclaredTable(["groupId"], ["parents"]);
    ValuesTable();
    ValuesTableRules(t, Keys(q));
    StrictRequest(ValuesDecl, "fitment/labels", t, fitmentName, q);
  }

  /** An accepted query gives a `GET` for `fitment/labels/<name>`,
      followed by `&` and the query string when there is a query (which
      an accepted query always is, since `groupId` is required). */
  lemma ValuesUri(t: Table, fitmentName: string, q: Query)
    requires RequestSpec(ValuesDecl, "fitment/labels", t, fitmentName, q).Success?
    ensures var r := RequestSpec(ValuesDecl, "fitment/labels", t, fitmentName, q).value;
      r.verb == "GET" && r.uri.query == [] && r.headers == [] &&
      (q != [] ==> r.uri.path == "fitment/labels/" + fitmentName + "&" + QueryString(q))
  {
    FlatRequest(ValuesDecl, "fitment/labels", t, fitmentName, q);
    var path := "fitment/labels";
    FlatUriForm(path, fitmentName, q);
    assert path + "/" == "fitment/labels/";
    assert path + "/" + fitmentName == "fitment/labels/" + fitmentName;
  }

  /** With the empty query the path is `fitment/labels/<name>`; with a
      query it is that path, `&`, and the query string. The tests expect
      a `?` before the query string; the code joins with `&`. */
  lemma ValuesUriExamples(q: Query)
    requires q == [("test", Scalar(Str("foo")))]
    ensures FlatUri("fitment/labels", "year", []) == "fitment/labels/year"
    ensures FlatUri("fitment/labels", "year", q) == "fitment/labels/year&test=foo"
  {
    var path, name := "fitment/labels", "year";
    FlatUriForm(path, name, []);
    FlatUriForm(path, name, q);
    OneParameterExample(q);
    ValuesUriText(path, name, QueryString(q));
  }

  lemma ValuesUriText(path: string, name: string, query: string)
    requires path == "fitment/labels" && name == "year" && query == "test=foo"
    ensures path + "/" + name == "fitment/labels/year"
    ensures path + "/" + name + "&" + query == "fitment/labels/year&test=foo"
  {
  }
}
