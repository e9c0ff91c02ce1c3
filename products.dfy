/** `Products`: the product search endpoint. Its parameters can be any
    facet name, so it switches validation off, and it builds its URI
    itself from the flat query string. */
module Products {
  import opened Results
  import opened QueryValues
  import opened Parameters
  import opened ParameterTable
  import opened FlatQuery
  import opened Base

  /** Path `products`, `page` required, `limit` and `q` optional. */
  const ProductsDecl := Declaration(Some("products"), ["page"], ["limit", "q"], Disabled, PathAndFlatQuery, [])

  /** `new Products($client)`. The class never declares a fitment name,
      so that segment of its URI is empty. */
  method NewProducts() returns (p: Endpoint)
    ensures fresh(p) && p.decl == ProductsDecl && p.path == "products"
    ensures p.parameters == DeclaredTable(["page"], ["limit", "q"])
    ensures p.errors == [] && p.fitmentName == ""
  {
    p := new Endpoint(ProductsDecl);
  }

  /** The declared names are `page` (required), `limit` and `q`
      (optional), and no other. */
  lemma ProductsParameters(n: string)
    ensures Lookup(DeclaredTable(["page"], ["limit", "q"]), n)
         == if n == "limit" || n == "q" then Some(Parameter(false))
            else if n == "page" then Some(Parameter(true))
            else None
  {
    DeclaredLookup(["page"], ["limit", "q"], n);
  }

  /** Every query gives a request, whatever it holds: undeclared facets
      and a missing `page` alike. The request is a `GET` for
      `products/`, then `&` and the flat query string when the query is
      not empty. */
  lemma ProductsNeverRejects(t: Table, q: Query)
    ensures RequestSpec(ProductsDecl, "products", t, "", q).Success?
    ensures var r := RequestSpec(ProductsDecl, "products", t, "", q).value;
      r.verb == "GET" && r.uri.query == [] &&
      r.uri.path == if q == [] then "products/" else "products/&" + QueryString(q)
  {
    UncheckedRequest(ProductsDecl, "products", t, "", q);
    FlatUriForm("products", "", q);
  }

  /** A query holding only `null` values is not empty, but has no leaf:
      the path then ends in a bare `&`. */
  lemma NullOnlyQuery(q: Query)
    requires q == [("page", Scalar(Null))]
    ensures FlatUri("products", "", q) == "products/&"
  {
    FlatUriForm("products", "", q);
    NoLeavesNoQueryString(q);
  }

  /** The filtered search of the product tests: a two-value `Drive` facet,
      which is not declared, and no error; the query gives four pairs. */
  lemma DriveFacetExample(t: Table, q: Query)
    requires q == [("Drive", List([Str("2wd"), Str("4wd")])), ("page", Scalar(Int(1))), ("limit", Scalar(Int(1)))]
    ensures RequestSpec(ProductsDecl, "products", t, "", q).Success?
    ensures |Pairs(q)| == 4
  {
    ProductsNeverRejects(t, q);
    PairsCount(q);
    var q1, q2 := q[..1], q[..2];
    assert q1[..0] == [] && q2[..1] == q1 && q[..2] == q2;
    assert |Leaves(q[0].1)| == 2 && |Leaves(q[1].1)| == 1 && |Leaves(q[2].1)| == 1;
    assert LeafCount(q1) == 2;
    assert LeafCount(q2) == 3;
    assert LeafCount(q) == 4;
  }
}
