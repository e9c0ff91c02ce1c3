/** What a caller passes as a query: an ordered PHP array from parameter
    names to scalars or lists of scalars. */
module QueryValues {
  import opened Strings

  /** The PHP scalars a query value can hold. */
  datatype Scalar = Str(s: string) | Int(i: int) | Bool(b: bool) | Null

  /** A query value: one scalar, or a list of scalars. */
  datatype Value = Scalar(scalar: Scalar) | List(items: seq<Scalar>)

  /** A query in insertion order. A PHP array holds each key once; the
      operations that rely on that say so with `DistinctKeys`. */
  type Query = seq<(string, Value)>

  /** `strval(x)`. */
  function StrVal(x: Scalar): string
  {
    match x
    case Str(s) => s
    case Int(i) => IntToString(i)
    case Bool(b) => if b then "1" else ""
    case Null => ""
  }

  /** The scalars `array_walk_recursive` visits in `(array) v`: a list gives
      its elements, `null` casts to the empty array, any other scalar to a
      one-element array. */
  function Leaves(v: Value): (r: seq<Scalar>)
    ensures v.List? ==> r == v.items
    ensures v.Scalar? ==> |r| <= 1
  {
    match v
    case Scalar(Null) => []
    case Scalar(x) => [x]
    case List(xs) => xs
  }

  /** `array_keys`: the names of an ordered PHP array with string keys,
      a query or a table of declared parameters alike. */
  function Keys<V>(pairs: seq<(string, V)>): (r: seq<string>)
    ensures |r| == |pairs|
    ensures forall i :: 0 <= i < |pairs| ==> r[i] == pairs[i].0
  {
    seq(|pairs|, i requires 0 <= i < |pairs| => pairs[i].0)
  }

  /** No name occurs twice. */
  predicate Distinct(names: seq<string>)
  {
    forall i, j :: 0 <= i < j < |names| ==> names[i] != names[j]
  }

  predicate DistinctKeys(q: Query)
  {
    Distinct(Keys(q))
  }
}
