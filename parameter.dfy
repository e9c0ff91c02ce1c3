/** `Parameter`: the rule a search endpoint declares for one query
    argument. It carries a `required` flag fixed at construction, accepts
    every value, and renders a value as the string sent in the query: a
    scalar as its plain string form, a list as its elements joined by `|`
    after each element's own `|` is written `%7C`. */
module Parameters {
  import opened Strings
  import opened QueryValues
  import UrlEncoding

  /** The separator between list elements. */
  const JoinChar: char := '|'

  datatype Parameter = Parameter(required: bool)
  {
    predicate IsRequired()
    {
      required
    }

    /** Every value passes: the check is a placeholder. */
    predicate Validate()
      ensures Validate()
    {
      true
    }

    /** The string sent for `v`; total on every value. */
    function Sanitize(v: Value): string
    {
      match v
      case List(xs) => Join(CleanList(xs), [JoinChar])
      case Scalar(x) => StrVal(x)
    }
  }

  /** `new Parameter($required = false)`. */
  function NewParameter(required: bool := false): (p: Parameter)
    ensures p.IsRequired() == required
  {
    Parameter(required)
  }

  /** One list element: its string form with every `|` replaced by
      `urlencode('|')`. */
  function Escape(x: Scalar): (r: string)
    ensures JoinChar !in r
  {
    UrlEncoding.UrlEncodeFormSafe([JoinChar]);
    ReplaceChar(StrVal(x), JoinChar, UrlEncoding.UrlEncode([JoinChar]))
  }

  /** `cleanList`: every element escaped, in order. */
  function CleanList(xs: seq<Scalar>): (r: seq<string>)
    ensures |r| == |xs|
    ensures forall i :: 0 <= i < |xs| ==> r[i] == Escape(xs[i])
  {
    if xs == [] then [] else [Escape(xs[0])] + CleanList(xs[1..])
  }

  /** A flag given at construction is the flag read back; the default is
      "not required". */
  lemma ConstructorFlag()
    ensures !NewParameter().IsRequired()
    ensures NewParameter(true).IsRequired()
  {
  }

  /** The rendering of a non-empty list splits on `|` into exactly the
      escaped elements, one per entry, in order. */
  lemma SanitizeListSplits(p: Parameter, xs: seq<Scalar>)
    requires |xs| >= 1
    ensures Split(p.Sanitize(List(xs)), JoinChar) == CleanList(xs)
    ensures |Split(p.Sanitize(List(xs)), JoinChar)| == |xs|
  {
    SplitJoin(CleanList(xs), JoinChar);
  }

  /** A scalar is rendered by `strval` and never escaped. */
  lemma SanitizeScalarVerbatim(p: Parameter, s: string)
    ensures p.Sanitize(Scalar(Str(s))) == s
  {
  }

  /** A one-element list whose element holds no `|` renders as that element. */
  lemma SanitizeSingleton(p: Parameter, s: string)
    requires JoinChar !in s
    ensures p.Sanitize(List([Str(s)])) == s
  {
  }

  /** Scalars in the parameter tests: `'string'`, `'a|b'` and `1` render
      as `'string'`, `'a|b'` and `'1'`. */
  lemma SanitizeScalarExamples(p: Parameter)
    ensures p.Sanitize(Scalar(Str("string"))) == "string"
    ensures p.Sanitize(Scalar(Str("a|b"))) == "a|b"
    ensures p.Sanitize(Scalar(Int(1))) == "1"
  {
  }

  /** `['string']` renders as `'string'`. */
  lemma SanitizeOneItemExample(p: Parameter)
    ensures p.Sanitize(List([Str("string")])) == "string"
  {
    SanitizeSingleton(p, "string");
  }

  /** `[1, 2]` renders as `'1|2'`. */
  lemma SanitizeTwoItemsExample(p: Parameter)
    ensures p.Sanitize(List([Int(1), Int(2)])) == "1|2"
  {
    var parts := CleanList([Int(1), Int(2)]);
    assert parts == ["1", "2"];
    assert parts[1..] == ["2"];
    assert Join(parts, [JoinChar]) == "1" + "|" + "2";
  }

  /** `['a|b']` renders as `'a%7Cb'`. */
  lemma SanitizeEscapedExample(p: Parameter)
    ensures p.Sanitize(List([Str("a|b")])) == "a%7Cb"
  {
    UrlEncoding.EncodePipe();
    assert ReplaceChar("a|b", JoinChar, "%7C") == "a%7Cb" by {
      assert ReplaceChar("b", JoinChar, "%7C") == "b";
      assert ReplaceChar("|b", JoinChar, "%7C") == "%7C" + "b";
      assert "a|b"[1..] == "|b";
    }
    assert CleanList([Str("a|b")]) == ["a%7Cb"];
  }
}
