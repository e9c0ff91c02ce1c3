/** The "flatten and repeat" query string that `Products` and
    `Fitment\Labels\Values` build themselves, bypassing
    `Parameter::sanitize`: each value is cast to an array, and every leaf
    gives one `urlencode(name)=urlencode(leaf)` pair; the pairs follow the
    query's order and, within an entry, the list's order, and are joined
    by `&`. */
module FlatQuery {
  import opened Strings
  import opened QueryValues
  import opened UrlEncoding

  /** The pair one leaf contributes. */
  function Pair(name: string, x: Scalar): string
  {
    UrlEncode(name) + "=" + UrlEncode(StrVal(x))
  }

  /** The pairs of one query entry, one per leaf, in list order. */
  function EntryPairs(name: string, leaves: seq<Scalar>): (r: seq<string>)
    ensures |r| == |leaves|
    ensures forall i :: 0 <= i < |leaves| ==> r[i] == Pair(name, leaves[i])
  {
    if leaves == [] then []
    else EntryPairs(name, leaves[..|leaves| - 1]) + [Pair(name, leaves[|leaves| - 1])]
  }

  /** The pairs one query entry contributes. */
  function EntryOf(entry: (string, Value)): seq<string>
  {
    EntryPairs(entry.0, Leaves(entry.1))
  }

  /** All pairs of a query, entry after entry. */
  function Pairs(q: Query): seq<string>
  {
    FlatMap(q, EntryOf)
  }

  /** How many leaves a query holds: a list counts its length, `null`
      nothing, any other scalar one. */
  function LeafCount(q: Query): nat
  {
    if q == [] then 0 else LeafCount(q[..|q| - 1]) + |Leaves(q[|q| - 1].1)|
  }

  /** The string `buildQuery` returns. */
  function QueryString(q: Query): string
  {
    Join(Pairs(q), "&")
  }

  /** `buildQuery`: casts each value to an array and walks its leaves,
      collecting pairs in `clean`, then implodes `clean` with `&`. */
  method BuildQuery(q: Query) returns (s: string)
    ensures s == QueryString(q)
  {
    var clean: seq<string> := [];
    for i := 0 to |q|
      invariant clean == Pairs(q[..i])
    {
      clean := WalkLeaves(q[i].0, Leaves(q[i].1), clean);
      assert q[..i + 1][..i] == q[..i];
    }
    assert q[..|q|] == q;
    s := Join(clean, "&");
  }

  /** The `array_walk_recursive` callback applied to every leaf: appends
      that leaf's pair to the caller's `clean`. */
  method WalkLeaves(name: string, leaves: seq<Scalar>, clean0: seq<string>) returns (clean: seq<string>)
    ensures clean == clean0 + EntryPairs(name, leaves)
  {
    clean := clean0;
    for j := 0 to |leaves|
      invariant clean == clean0 + EntryPairs(name, leaves[..j])
    {
      assert leaves[..j + 1][..j] == leaves[..j];
      clean := clean + [UrlEncode(name) + "=" + UrlEncode(StrVal(leaves[j]))];
    }
    assert leaves[..|leaves|] == leaves;
  }

  /** One pair per leaf. */
  lemma {:induction false} PairsCount(q: Query)
    ensures |Pairs(q)| == LeafCount(q)
  {
    if q != [] {
      PairsCount(q[..|q| - 1]);
    }
  }

  /** Entries are emitted in query order: the pairs of a concatenation are
      the pairs of its halves, in turn. */
  lemma PairsAppend(q1: Query, q2: Query)
    ensures Pairs(q1 + q2) == Pairs(q1) + Pairs(q2)
  {
    FlatMapAppend(q1, q2, EntryOf);
  }

  /** A single entry gives one pair per leaf of its value, in list order;
      a list is never `|`-joined into one value. */
  lemma SingleEntryPairs(name: string, v: Value)
    ensures Pairs([(name, v)]) == EntryPairs(name, Leaves(v))
  {
    FlatMapSingle((name, v), EntryOf);
  }

  lemma PairAvoids(name: string, x: Scalar, c: char)
    requires !FormSafe(c) && c != '='
    ensures c !in Pair(name, x)
  {
    UrlEncodeFormSafe(name);
    UrlEncodeFormSafe(StrVal(x));
  }

  /** A pair splits on `=` into the encoded name and the encoded value. */
  lemma PairSplits(name: string, x: Scalar)
    ensures Split(Pair(name, x), '=') == [UrlEncode(name), UrlEncode(StrVal(x))]
  {
    UrlEncodeFormSafe(name);
    UrlEncodeFormSafe(StrVal(x));
    SplitAtDelimiter(UrlEncode(name), '=', UrlEncode(StrVal(x)));
    SplitNoDelimiter(UrlEncode(StrVal(x)), '=');
  }

  /** Splitting the query string on `&` recovers exactly the pairs, one
      per leaf, in order: no encoded name or value contains `&`. */
  lemma QueryStringSplits(q: Query)
    requires LeafCount(q) >= 1
    ensures Split(QueryString(q), '&') == Pairs(q)
    ensures |Split(QueryString(q), '&')| == LeafCount(q)
  {
    PairsCount(q);
    PairsAvoidAmpersand(q);
    SplitJoin(Pairs(q), '&');
  }

  lemma PairsAvoidAmpersand(q: Query)
    ensures forall i :: 0 <= i < |Pairs(q)| ==> '&' !in Pairs(q)[i]
  {
    forall i | 0 <= i < |Pairs(q)|
      ensures '&' !in Pairs(q)[i]
    {
      FlatMapMember(q, EntryOf, i);
      var k :| 0 <= k < |q| && Pairs(q)[i] in EntryOf(q[k]);
      EntryAvoidsAmpersand(q[k]);
    }
  }

  lemma EntryAvoidsAmpersand(entry: (string, Value))
    ensures forall p :: p in EntryOf(entry) ==> '&' !in p
  {
    forall p | p in EntryOf(entry)
      ensures '&' !in p
    {
      var leaves := Leaves(entry.1);
      var j :| 0 <= j < |leaves| && EntryPairs(entry.0, leaves)[j] == p;
      PairAvoids(entry.0, leaves[j], '&');
    }
  }

  /** A query without leaves gives the empty string; in particular the
      empty query does. */
  lemma NoLeavesNoQueryString(q: Query)
    requires LeafCount(q) == 0
    ensures QueryString(q) == ""
  {
    PairsCount(q);
  }

  lemma PlainPair(name: string, x: Scalar)
    requires forall i :: 0 <= i < |name| ==> Unreserved(name[i])
    requires forall i :: 0 <= i < |StrVal(x)| ==> Unreserved(StrVal(x)[i])
    ensures Pair(name, x) == name + "=" + StrVal(x)
  {
    UrlEncodeUnreserved(name);
    UrlEncodeUnreserved(StrVal(x));
  }

  lemma TwoEntryPairs(e1: (string, Value), e2: (string, Value))
    ensures Pairs([e1, e2]) == EntryOf(e1) + EntryOf(e2)
  {
    assert [e1, e2] == [e1] + [e2];
    PairsAppend([e1], [e2]);
    SingleEntryPairs(e1.0, e1.1);
    SingleEntryPairs(e2.0, e2.1);
  }

  /** A query with one non-null scalar gives just that scalar's pair. */
  lemma OneScalar(name: string, x: Scalar)
    requires x != Null
    ensures QueryString([(name, Scalar(x))]) == Pair(name, x)
  {
    SingleEntryPairs(name, Scalar(x));
    var r := EntryPairs(name, [x]);
    assert |r| == 1 && r[0] == Pair(name, x);
  }

  /** With a name that needs no encoding, only the value is encoded. */
  lemma PlainName(name: string, x: Scalar)
    requires x != Null
    requires forall i :: 0 <= i < |name| ==> Unreserved(name[i])
    ensures QueryString([(name, Scalar(x))]) == name + "=" + UrlEncode(StrVal(x))
  {
    OneScalar(name, x);
    UrlEncodeUnreserved(name);
  }

  /** Two non-null scalars give their two pairs, joined by `&`. */
  lemma TwoScalars(n1: string, x1: Scalar, n2: string, x2: Scalar)
    requires x1 != Null && x2 != Null
    ensures QueryString([(n1, Scalar(x1)), (n2, Scalar(x2))]) == Pair(n1, x1) + "&" + Pair(n2, x2)
  {
    TwoEntryPairs((n1, Scalar(x1)), (n2, Scalar(x2)));
    var r1, r2 := EntryPairs(n1, [x1]), EntryPairs(n2, [x2]);
    assert |r1| == 1 && r1[0] == Pair(n1, x1);
    assert |r2| == 1 && r2[0] == Pair(n2, x2);
    assert r1 + r2 == [Pair(n1, x1), Pair(n2, x2)];
    JoinTwo(Pair(n1, x1), Pair(n2, x2), "&");
  }

  /** A two-element list repeats the name once per element, in order. */
  lemma TwoLeaves(name: string, x1: Scalar, x2: Scalar)
    ensures QueryString([(name, List([x1, x2]))]) == Pair(name, x1) + "&" + Pair(name, x2)
  {
    SingleEntryPairs(name, List([x1, x2]));
    var r := EntryPairs(name, [x1, x2]);
    assert |r| == 2 && r[0] == Pair(name, x1) && r[1] == Pair(name, x2);
    assert r == [Pair(name, x1), Pair(name, x2)];
    JoinTwo(Pair(name, x1), Pair(name, x2), "&");
  }

  lemma JoinTwo(a: string, b: string, sep: string)
    ensures Join([a, b], sep) == a + sep + b
  {
    assert [a, b][1..] == [b];
  }

  /** The names and values the examples use need no encoding. */
  lemma ExampleWordsPlain(test: string, foo: string, with: string, space: string)
    requires test == "test" && foo == "foo" && with == "with" && space == "space"
    ensures forall i :: 0 <= i < |test| ==> Unreserved(test[i])
    ensures forall i :: 0 <= i < |foo| ==> Unreserved(foo[i])
    ensures forall i :: 0 <= i < |with| ==> Unreserved(with[i])
    ensures forall i :: 0 <= i < |space| ==> Unreserved(space[i])
  {
  }

  lemma SmallInts()
    ensures StrVal(Int(1)) == "1" && StrVal(Int(2)) == "2"
    ensures forall i :: 0 <= i < |"1"| ==> Unreserved("1"[i])
    ensures forall i :: 0 <= i < |"2"| ==> Unreserved("2"[i])
  {
  }

  /** `{test: 'foo'}` gives `test=foo`. */
  lemma OneParameterExample(q: Query)
    requires q == [("test", Scalar(Str("foo")))]
    ensures QueryString(q) == "test=foo"
  {
    var test, foo := "test", "foo";
    ExampleWordsPlain(test, foo, "with", "space");
    OneScalar(test, Str(foo));
    PlainPair(test, Str(foo));
    OneParameterText(test, foo);
  }

  lemma OneParameterText(name: string, value: string)
    requires name == "test" && value == "foo"
    ensures name + "=" + value == "test=foo"
  {
  }

  /** `{test: 'with space'}` gives `test=with+space`. */
  lemma EncodedParameterExample(q: Query)
    requires q == [("test", Scalar(Str("with space")))]
    ensures QueryString(q) == "test=with+space"
  {
    var name, value := q[0].0, q[0].1.scalar.s;
    assert q == [(name, Scalar(Str(value)))];
    ExampleWordsPlain(name, "foo", "with", "space");
    PlainName(name, Str(value));
    EncodeSpace(value);
    SpaceExampleText(name, UrlEncode(value));
  }

  lemma SpaceExampleText(name: string, encoded: string)
    requires name == "test" && encoded == "with+space"
    ensures name + "=" + encoded == "test=with+space"
  {
  }

  /** `{test: 1, foo: 2}` gives `test=1&foo=2`. */
  lemma TwoParametersExample(q: Query)
    requires q == [("test", Scalar(Int(1))), ("foo", Scalar(Int(2)))]
    ensures QueryString(q) == "test=1&foo=2"
  {
    var test, foo := "test", "foo";
    ExampleWordsPlain(test, foo, "with", "space");
    SmallInts();
    TwoScalars(test, Int(1), foo, Int(2));
    PlainPair(test, Int(1));
    PlainPair(foo, Int(2));
    TwoPairsText(test, StrVal(Int(1)), foo, StrVal(Int(2)), "test=1&foo=2");
  }

  lemma TwoPairsText(n1: string, v1: string, n2: string, v2: string, text: string)
    requires n1 == "test" && v1 == "1" && v2 == "2"
    requires (n2 == "foo" && text == "test=1&foo=2") || (n2 == "test" && text == "test=1&test=2")
    ensures n1 + "=" + v1 + "&" + (n2 + "=" + v2) == text
  {
  }

  /** `{test: [1, 2]}` gives `test=1&test=2`: one pair per list element. */
  lemma ListParameterExample(q: Query)
    requires q == [("test", List([Int(1), Int(2)]))]
    ensures QueryString(q) == "test=1&test=2"
  {
    var test := "test";
    ExampleWordsPlain(test, "foo", "with", "space");
    SmallInts();
    TwoLeaves(test, Int(1), Int(2));
    PlainPair(test, Int(1));
    PlainPair(test, Int(2));
    TwoPairsText(test, StrVal(Int(1)), test, StrVal(Int(2)), "test=1&test=2");
  }
}
