/** `Base`, the endpoint every search API object extends. It keeps a table
    of declared parameters and the errors of its last validation, checks a
    query against the table, and turns a query into a relative URI and a
    `GET` request. The subclasses differ only in their declared path and
    parameters, in switching validation off, and in building the URI
    themselves; a `Declaration` carries those choices. */
module Base {
  import opened Results
  import opened Strings
  import opened QueryValues
  import opened Parameters
  import opened ParameterTable
  import opened QueryValidation
  import opened FlatQuery
  import opened Response

  /** Whether the endpoint runs the allow-list check (`Base::validate`) or
      accepts every query (`Products::validate`). */
  datatype Validation = Strict | Disabled

  /** Whether the query goes through `formatQueryParams` into the URI's
      query (`Base::uri`), or is flattened into one string appended to the
      path after `&` (`Products::uri`, `Values::uri`). */
  datatype UriStyle = Standard | PathAndFlatQuery

  /** What a subclass overrides: the path (unset in `Base` itself), the
      required and optional parameter names, and the behaviour choices. */
  datatype Declaration = Declaration(
    path: Option<string>,
    required: seq<string>,
    optional: seq<string>,
    validation: Validation,
    uriStyle: UriStyle,
    headers: seq<(string, string)>)

  /** The exceptions: `RuntimeException` for an unset path or an
      undeclared key in `formatQueryParams`, `InvalidArgumentsException`
      with the error list. */
  datatype Fault =
    | PathNotSet
    | InvalidArguments(errors: seq<string>)
    | UndefinedParameter(name: string)

  /** A relative URI: its path and its query values, in order. */
  datatype RelativeUri = RelativeUri(path: string, query: seq<(string, string)>)

  datatype Request = Request(verb: string, uri: RelativeUri, headers: seq<(string, string)>)

  /** `formatQueryParams`: every key must be declared, and its value is
      replaced by the declared parameter's rendering of it. The first
      undeclared key, in query order, aborts. */
  function FormatSpec(t: Table, q: Query): Result<seq<(string, string)>, Fault>
  {
    if q == [] then Success([])
    else
      var (name, value) := q[|q| - 1];
      match FormatSpec(t, q[..|q| - 1])
      case Failure(f) => Failure(f)
      case Success(rv) =>
        match Lookup(t, name)
        case None => Failure(UndefinedParameter(name))
        case Some(p) => Success(rv + [(name, p.Sanitize(value))])
  }

  /** Formatting succeeds exactly when every key is declared, and each
      value is then rendered by its own key's parameter, in query order. */
  lemma {:induction false} FormatSpecMeaning(t: Table, q: Query)
    ensures FormatSpec(t, q).Success? <==> forall i :: 0 <= i < |q| ==> q[i].0 in Keys(t)
    ensures FormatSpec(t, q).Success? ==> |FormatSpec(t, q).value| == |q|
    ensures FormatSpec(t, q).Success? ==> forall i :: 0 <= i < |q| ==>
      Lookup(t, q[i].0).Some? && FormatSpec(t, q).value[i] == (q[i].0, Lookup(t, q[i].0).value.Sanitize(q[i].1))
  {
    if q != [] {
      var init, last := q[..|q| - 1], |q| - 1;
      FormatSpecMeaning(t, init);
      assert forall i :: 0 <= i < |init| ==> init[i] == q[i];
      var name := q[last].0;
      if FormatSpec(t, init).Success? && Lookup(t, name).Some? {
        var rv, r := FormatSpec(t, init).value, FormatSpec(t, q).value;
        assert r == rv + [(name, Lookup(t, name).value.Sanitize(q[last].1))];
        assert forall i :: 0 <= i < |init| ==> r[i] == rv[i];
      }
    }
  }

  /** A failure names the first undeclared key, in query order. */
  lemma {:induction false} FormatSpecFirstFailure(t: Table, q: Query)
    requires FormatSpec(t, q).Failure?
    ensures exists i :: 0 <= i < |q| && q[i].0 !in Keys(t) && FormatSpec(t, q).error == UndefinedParameter(q[i].0) &&
                        forall j :: 0 <= j < i ==> q[j].0 in Keys(t)
  {
    var init, last := q[..|q| - 1], |q| - 1;
    assert forall i :: 0 <= i < |init| ==> init[i] == q[i];
    if FormatSpec(t, init).Failure? {
      FormatSpecFirstFailure(t, init);
      var i :| 0 <= i < |init| && init[i].0 !in Keys(t) && FormatSpec(t, init).error == UndefinedParameter(init[i].0) &&
               forall j :: 0 <= j < i ==> init[j].0 in Keys(t);
      assert q[i].0 !in Keys(t);
    } else {
      FormatSpecMeaning(t, init);
      assert q[last].0 !in Keys(t);
    }
  }

  /** The path of `Products::uri` and `Values::uri`: `<path>/<fitment
      name>`, then `&` and the flat query string when the query is not
      empty. */
  function FlatUri(path: string, fitmentName: string, q: Query): string
  {
    Join([path + "/" + fitmentName] + (if q == [] then [] else [QueryString(q)]), "&")
  }

  /** The relative URI an endpoint builds for a query. */
  function UriSpec(style: UriStyle, path: string, t: Table, fitmentName: string, q: Query): Result<RelativeUri, Fault>
  {
    match style
    case Standard =>
      (match FormatSpec(t, q)
       case Failure(f) => Failure(f)
       case Success(values) => Success(RelativeUri(path, values)))
    case PathAndFlatQuery => Success(RelativeUri(FlatUri(path, fitmentName, q), []))
  }

  /** `buildRequest`: validation first, then a `GET` for the URI. */
  function RequestSpec(decl: Declaration, path: string, t: Table, fitmentName: string, q: Query): Result<Request, Fault>
  {
    if decl.validation == Strict && ValidationErrors(t, q) != [] then
      Failure(InvalidArguments(ValidationErrors(t, q)))
    else
      match UriSpec(decl.uriStyle, path, t, fitmentName, q)
      case Failure(f) => Failure(f)
      case Success(uri) => Success(Request("GET", uri, decl.headers))
  }

  /** The query string of a URI's values, each as `name=value`, joined by
      `&`; values here are left as they are. */
  function QueryText(values: seq<(string, string)>): string
  {
    Join(seq(|values|, i requires 0 <= i < |values| => values[i].0 + "=" + values[i].1), "&")
  }

  /** A query that passes the check has only declared keys, so
      `formatQueryParams` cannot then fail. */
  lemma ValidatedQueryFormats(t: Table, q: Query)
    requires Distinct(Keys(t)) && DistinctKeys(q)
    requires ValidationErrors(t, q) == []
    ensures FormatSpec(t, q).Success?
  {
    PassesIff(t, q);
    FormatSpecMeaning(t, q);
    assert forall i :: 0 <= i < |q| ==> q[i].0 == Keys(q)[i];
  }

  /** With the check on, a request is built exactly when every required
      name is a query key and every key is declared; it is then a `GET`
      with the endpoint's headers, and otherwise the failure carries the
      error list. */
  lemma StrictRequest(decl: Declaration, path: string, t: Table, fitmentName: string, q: Query)
    requires decl.validation == Strict
    requires Distinct(Keys(t)) && DistinctKeys(q)
    ensures var r := RequestSpec(decl, path, t, fitmentName, q);
      r.Success? <==>
        (forall i :: 0 <= i < |t| && t[i].1.IsRequired() ==> t[i].0 in Keys(q)) &&
        (forall k :: k in Keys(q) ==> k in Keys(t))
    ensures var r := RequestSpec(decl, path, t, fitmentName, q);
      r.Success? ==> r.value.verb == "GET" && r.value.headers == decl.headers
    ensures var r := RequestSpec(decl, path, t, fitmentName, q);
      r.Failure? ==> r.error == InvalidArguments(ValidationErrors(t, q))
  {
    PassesIff(t, q);
    if ValidationErrors(t, q) == [] {
      ValidatedQueryFormats(t, q);
    }
  }

  /** With the check off and the flat URI style, every query gives a `GET`
      request: nothing is rejected. */
  lemma UncheckedRequest(decl: Declaration, path: string, t: Table, fitmentName: string, q: Query)
    requires decl.validation == Disabled && decl.uriStyle == PathAndFlatQuery
    ensures RequestSpec(decl, path, t, fitmentName, q)
         == Success(Request("GET", RelativeUri(FlatUri(path, fitmentName, q), []), decl.headers))
  {
  }

  /** With the flat URI style, a built request is a `GET` for the flat
      URI, with no separate query values. */
  lemma FlatRequest(decl: Declaration, path: string, t: Table, fitmentName: string, q: Query)
    requires decl.uriStyle == PathAndFlatQuery
    requires RequestSpec(decl, path, t, fitmentName, q).Success?
    ensures RequestSpec(decl, path, t, fitmentName, q).value
         == Request("GET", RelativeUri(FlatUri(path, fitmentName, q), []), decl.headers)
  {
  }

  /** The flat URI is `<path>/<name>` for the empty query, and
      `<path>/<name>&<query string>` otherwise; the query string never
      follows a `?`. */
  lemma FlatUriForm(path: string, fitmentName: string, q: Query)
    ensures q == [] ==> FlatUri(path, fitmentName, q) == path + "/" + fitmentName
    ensures q != [] ==> FlatUri(path, fitmentName, q) == path + "/" + fitmentName + "&" + QueryString(q)
  {
    if q != [] {
      assert [path + "/" + fitmentName] + [QueryString(q)] == [path + "/" + fitmentName, QueryString(q)];
      JoinTwo(path + "/" + fitmentName, QueryString(q), "&");
    }
  }

  /** `SampleApiObject` of the endpoint tests: path `/`, nothing declared,
      one header of its own. */
  const SampleDecl := Declaration(Some("/"), [], [], Strict, Standard, [("testHeader", "testValue")])

  lemma SuffixedOne(name: string, message: string)
    ensures Suffixed([name], message) == [name + message]
  {
  }

  /** A query key `test` with nothing declared is one invalid parameter,
      whatever its value (`'foo'` or `1` in the tests). */
  lemma UndeclaredKeyExample(q: Query, v: Value)
    requires q == [("test", v)]
    ensures ValidationErrors([], q) == ["test is an invalid parameter"]
  {
    var keys := Keys(q);
    assert keys == ["test"];
    assert Scan([], keys) == ([], keys);
    SuffixedOne("test", " is an invalid parameter");
    InvalidTestText("test", " is an invalid parameter");
  }

  lemma InvalidTestText(name: string, message: string)
    requires name == "test" && message == " is an invalid parameter"
    ensures name + message == "test is an invalid parameter"
  {
  }

  /** Two required parameters and an empty query give two errors, in
      declaration order. */
  lemma TwoRequiredExample(t: Table)
    requires t == Put(Put([], "test", Parameter(true)), "foo", Parameter(true))
    ensures ValidationErrors(t, []) == ["test is required", "foo is required"]
  {
    var e1, e2 := ("test", Parameter(true)), ("foo", Parameter(true));
    assert t == [e1, e2];
    var noQuery: Query := [];
    assert Keys(noQuery) == [];
    var s0 := Scan([], []);
    assert s0 == ([], []);
    var s1 := Visit(s0, e1);
    assert s1 == ([] + ["test" + " is required"], []);
    RequiredTexts("test", "foo", " is required");
    var m1: seq<string> := ["test is required"];
    assert [] + m1 == m1;
    assert s1 == (m1, []);
    assert [e1, e2][..1] == [e1] && [e1][..0] == [];
    assert Scan([e1], []) == s1;
    var s2 := Visit(s1, e2);
    assert s2 == (s1.0 + ["foo" + " is required"], []);
    assert m1 + ["foo is required"] == ["test is required", "foo is required"];
    assert s2 == (["test is required", "foo is required"], []);
    assert Scan(t, []) == s2;
    assert Suffixed([], " is an invalid parameter") == [];
  }

  lemma RequiredTexts(first: string, second: string, message: string)
    requires first == "test" && second == "foo" && message == " is required"
    ensures first + message == "test is required" && second + message == "foo is required"
  {
  }

  /** A declared list parameter passes the check. */
  lemma ListParameterPasses(t: Table, q: Query)
    requires t == Put([], "test", Parameter(false))
    requires q == [("test", List([Int(1), Int(2)]))]
    ensures ValidationErrors(t, q) == []
  {
    var e := ("test", Parameter(false));
    assert t == [e];
    var keys := Keys(q);
    assert keys == ["test"];
    assert t[..0] == [];
    assert Scan([], keys) == ([], keys);
    assert RemoveFirst(keys, "test") == [];
    assert e.1.Validate();
    var none: seq<string> := [];
    assert Visit((none, keys), e) == (none + none, RemoveFirst(keys, "test"));
    assert none + none == none;
    assert Scan(t, keys) == Visit(Scan([], keys), e);
    assert Scan(t, keys) == ([], []);
    assert Suffixed([], " is an invalid parameter") == [];
  }

  /** The endpoint tests' request: with `testQuery` declared, the query
      `{testQuery: 'testValue'}` gives a `GET` for path `/` whose query
      reads `testQuery=testValue`, carrying the endpoint's header. */
  lemma SampleRequestExample(t: Table, q: Query)
    requires t == Put([], "testQuery", Parameter(false))
    requires q == [("testQuery", Scalar(Str("testValue")))]
    ensures RequestSpec(SampleDecl, "/", t, "", q)
         == Success(Request("GET", RelativeUri("/", [("testQuery", "testValue")]), [("testHeader", "testValue")]))
    ensures QueryText([("testQuery", "testValue")]) == "testQuery=testValue"
  {
    var e := ("testQuery", Parameter(false));
    assert t == [e];
    var keys := Keys(q);
    assert keys == ["testQuery"];
    assert t[..0] == [];
    assert Scan([], keys) == ([], keys);
    assert RemoveFirst(keys, "testQuery") == [];
    assert e.1.Validate();
    var none: seq<string> := [];
    assert Visit((none, keys), e) == (none + none, RemoveFirst(keys, "testQuery"));
    assert none + none == none;
    assert Scan(t, keys) == Visit(Scan([], keys), e);
    assert Scan(t, keys) == ([], []);
    assert Suffixed([], " is an invalid parameter") == [];
    assert ValidationErrors(t, q) == [];
    var f := FormatSpec(t, q);
    assert Keys(t) == ["testQuery"];
    FormatSpecMeaning(t, q);
    assert f.Success?;
    assert Lookup(t, "testQuery") == Some(Parameter(false));
    SanitizeScalarVerbatim(Parameter(false), "testValue");
    assert q[..0] == [];
    assert FormatSpec(t, q[..0]) == Success([]);
    assert f == Success([] + [("testQuery", Parameter(false).Sanitize(Scalar(Str("testValue"))))]);
    var v := [("testQuery", "testValue")];
    assert Parameter(false).Sanitize(Scalar(Str("testValue"))) == "testValue";
    var noValues: seq<(string, string)> := [];
    assert noValues + v == v;
    assert f == Success(v);
    assert UriSpec(Standard, "/", t, "", q) == Success(RelativeUri("/", v));
    var values := [("testQuery", "testValue")];
    var parts := seq(|values|, i requires 0 <= i < |values| => values[i].0 + "=" + values[i].1);
    assert parts[0] == "testQuery=testValue";
    assert parts == ["testQuery=testValue"];
  }

  class Endpoint {
    const decl: Declaration
    const path: string
    var parameters: Table
    var errors: seq<string>
    /** Only `Values` sets it; elsewhere it reads as the empty string. */
    var fitmentName: string

    /** Declared names are distinct, as the keys of a PHP array are. */
    ghost predicate Valid()
      reads this
    {
      Distinct(Keys(parameters))
    }

    /** The constructor once the path is known to be set: the required
        names are declared, then the optional ones. */
    constructor (decl: Declaration)
      requires decl.path.Some?
      ensures this.decl == decl && path == decl.path.value
      ensures parameters == DeclaredTable(decl.required, decl.optional)
      ensures errors == [] && fitmentName == ""
      ensures Valid()
    {
      this.decl := decl;
      path := decl.path.value;
      parameters := [];
      errors := [];
      fitmentName := "";
      new;
      DeclareAll(decl.required, true);
      DeclareAll(decl.optional, false);
      DeclaredLookup(decl.required, decl.optional, "");
    }

    /** One of the constructor's loops: each name in turn is declared with
        a fresh parameter carrying the flag. */
    method DeclareAll(names: seq<string>, required: bool)
      modifies this`parameters
      ensures parameters == Declare(old(parameters), names, required)
    {
      var start := parameters;
      for i := 0 to |names|
        invariant parameters == Declare(start, names[..i], required)
      {
        DeclareStep(start, names, i, required);
        AddParameter(names[i], NewParameter(required));
      }
      assert names[..|names|] == names;
    }

    /** `new X($client)`: refused when the subclass leaves the path
        unset. */
    static method Create(decl: Declaration) returns (r: Result<Endpoint, Fault>)
      ensures r.Failure? <==> decl.path.None?
      ensures r.Failure? ==> r.error == PathNotSet
      ensures r.Success? ==> fresh(r.value) && r.value.decl == decl
      ensures r.Success? ==> r.value.parameters == DeclaredTable(decl.required, decl.optional)
      ensures r.Success? ==> r.value.errors == [] && r.value.fitmentName == "" && r.value.Valid()
    {
      if decl.path.None? {
        return Failure(PathNotSet);
      }
      var e := new Endpoint(decl);
      return Success(e);
    }

    /** Declares `name`, overwriting an earlier declaration of it. */
    method AddParameter(name: string, p: Parameter)
      modifies this`parameters
      ensures parameters == Put(old(parameters), name, p)
      ensures old(Valid()) ==> Valid()
    {
      if Valid() {
        PutKeepsDistinct(parameters, name, p);
      }
      parameters := Put(parameters, name, p);
    }

    /** The errors of the last validation, as left. */
    function GetErrors(): (e: seq<string>)
      reads this
      ensures e == errors
    {
      errors
    }

    /** `validate`: with the check on, the errors are recomputed from
        scratch and the query passes exactly when there are none; with it
        off, every query passes and the errors are left alone. */
    method Validate(q: Query) returns (r: Result<bool, Fault>)
      modifies this`errors
      ensures decl.validation == Disabled ==> r == Success(true) && errors == old(errors)
      ensures decl.validation == Strict ==> errors == ValidationErrors(parameters, q)
      ensures decl.validation == Strict ==>
        r == if errors == [] then Success(true) else Failure(InvalidArguments(errors))
    {
      if decl.validation == Disabled {
        return Success(true);
      }
      errors := [];
      var keys := Keys(q);
      var unmatched := keys;
      if |parameters| > 0 {
        for i := 0 to |parameters|
          invariant (errors, unmatched) == Scan(parameters[..i], keys)
        {
          var (name, param) := parameters[i];
          assert parameters[..i + 1][..i] == parameters[..i];
          if name in unmatched {
            unmatched := RemoveFirst(unmatched, name);
            errors := errors + (if param.Validate() then [] else [name + " validation failed"]);
          } else if param.IsRequired() {
            errors := errors + [name + " is required"];
          }
        }
      }
      assert parameters[..|parameters|] == parameters;
      var walked := errors;
      for j := 0 to |unmatched|
        invariant errors == walked + Suffixed(unmatched[..j], " is an invalid parameter")
      {
        assert Suffixed(unmatched[..j + 1], " is an invalid parameter")
            == Suffixed(unmatched[..j], " is an invalid parameter") + [unmatched[j] + " is an invalid parameter"];
        errors := errors + [unmatched[j] + " is an invalid parameter"];
      }
      assert unmatched[..|unmatched|] == unmatched;
      if |errors| > 0 {
        return Failure(InvalidArguments(errors));
      }
      return Success(true);
    }

    /** `formatQueryParams`. */
    method FormatQueryParams(q: Query) returns (r: Result<seq<(string, string)>, Fault>)
      ensures r == FormatSpec(parameters, q)
    {
      if q == [] {
        return Success([]);
      }
      var rv := [];
      for i := 0 to |q|
        invariant FormatSpec(parameters, q[..i]) == Success(rv)
      {
        var (name, value) := q[i];
        assert q[..i + 1][..i] == q[..i];
        var p := Lookup(parameters, name);
        if p.None? {
          assert forall j :: 0 <= j < i ==> q[..i][j] == q[j];
          FormatSpecMeaning(parameters, q[..i]);
          FormatSpecMeaning(parameters, q);
          FormatSpecFirstFailure(parameters, q);
          return Failure(UndefinedParameter(name));
        }
        rv := rv + [(name, p.value.Sanitize(value))];
      }
      assert q[..|q|] == q;
      return Success(rv);
    }

    /** `uri`, in the endpoint's style. */
    method Uri(q: Query) returns (r: Result<RelativeUri, Fault>)
      ensures r == UriSpec(decl.uriStyle, path, parameters, fitmentName, q)
    {
      match decl.uriStyle
      case Standard =>
        var values := FormatQueryParams(q);
        if values.Failure? {
          return Failure(values.error);
        }
        return Success(RelativeUri(path, values.value));
      case PathAndFlatQuery =>
        var parts := [path + "/" + fitmentName];
        if q != [] {
          var s := BuildQuery(q);
          parts := parts + [s];
        }
        return Success(RelativeUri(Join(parts, "&"), []));
    }

    /** The headers the endpoint adds of its own. */
    function Headers(): (h: seq<(string, string)>)
      ensures h == decl.headers
    {
      decl.headers
    }

    /** `buildRequest`: the method asked for is ignored and the request is
        always a `GET`; a failed validation builds nothing. */
    method BuildRequest(verb: string, q: Query) returns (r: Result<Request, Fault>)
      modifies this`errors
      ensures decl.validation == Strict ==> errors == ValidationErrors(parameters, q)
      ensures decl.validation == Disabled ==> errors == old(errors)
      ensures r == RequestSpec(decl, path, parameters, fitmentName, q)
    {
      var ok := Validate(q);
      if ok.Failure? {
        return Failure(ok.error);
      }
      var uri := Uri(q);
      if uri.Failure? {
        return Failure(uri.error);
      }
      return Success(Request("GET", uri.value, Headers()));
    }

    /** `get`: the request goes to `send`, standing for the client's
        transport, and the answer is wrapped in a `Response`. */
    method Get(q: Query, send: Request -> RawResponse, jsonDecode: string -> Option<Json>)
      returns (r: Result<Response, Fault>)
      modifies this`errors
      ensures decl.validation == Strict ==> errors == ValidationErrors(parameters, q)
      ensures decl.validation == Disabled ==> errors == old(errors)
      ensures r.Failure? <==> RequestSpec(decl, path, parameters, fitmentName, q).Failure?
      ensures r.Failure? ==> r.error == RequestSpec(decl, path, parameters, fitmentName, q).error
      ensures r.Success? ==> fresh(r.value)
      ensures r.Success? ==>
        var raw := send(RequestSpec(decl, path, parameters, fitmentName, q).value);
        r.value.httpStatus == raw.status && r.value.headers == raw.headers &&
        r.value.body == DecodeBody(raw.body, jsonDecode)
    {
      var request := BuildRequest("GET", q);
      if request.Failure? {
        return Failure(request.error);
      }
      var raw := send(request.value);
      var response := new Response(raw, jsonDecode);
      return Success(response);
    }
  }
}
