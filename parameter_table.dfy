/** The table an endpoint keeps of its declared parameters: a PHP array
    from name to `Parameter`, in insertion order. Writing an existing name
    overwrites its entry in place; a new name goes to the end. */
module ParameterTable {
  import opened Results
  import opened QueryValues
  import opened Parameters

  type Table = seq<(string, Parameter)>

  /** `$parameters[$name]`, or nothing when the name is not declared. */
  function Lookup(t: Table, name: string): (r: Option<Parameter>)
    ensures r.Some? <==> name in Keys(t)
    ensures r.Some? ==> exists i :: 0 <= i < |t| && t[i] == (name, r.value)
  {
    if t == [] then None
    else if t[0].0 == name then Some(t[0].1)
    else
      assert Keys(t) == [t[0].0] + Keys(t[1..]);
      var r := Lookup(t[1..], name);
      if r.Some? then
        var i :| 0 <= i < |t[1..]| && t[1..][i] == (name, r.value);
        assert t[i + 1] == (name, r.value);
        r
      else r
  }

  /** `$parameters[$name] = $param`. */
  function Put(t: Table, name: string, p: Parameter): (r: Table)
    ensures name in Keys(t) ==> Keys(r) == Keys(t)
    ensures name !in Keys(t) ==> Keys(r) == Keys(t) + [name]
  {
    if t == [] then [(name, p)]
    else if t[0].0 == name then
      var r := [(name, p)] + t[1..];
      assert Keys(r) == Keys(t) by {
        assert forall i :: 0 <= i < |r| ==> Keys(r)[i] == Keys(t)[i];
      }
      r
    else
      var rest := Put(t[1..], name, p);
      var r := [t[0]] + rest;
      assert Keys(t) == [t[0].0] + Keys(t[1..]);
      assert Keys(r) == [t[0].0] + Keys(rest);
      r
  }

  /** After the write the name maps to the new parameter and every other
      name to what it mapped to before. */
  lemma {:induction false} PutLookup(t: Table, name: string, p: Parameter, n: string)
    ensures Lookup(Put(t, name, p), n) == if n == name then Some(p) else Lookup(t, n)
  {
    if t != [] && t[0].0 != name {
      PutLookup(t[1..], name, p, n);
    }
  }

  /** Overwriting or adding one name keeps the names distinct. */
  lemma PutKeepsDistinct(t: Table, name: string, p: Parameter)
    requires Distinct(Keys(t))
    ensures Distinct(Keys(Put(t, name, p)))
  {
  }

  /** The constructor's loop over one name list: each name is added in
      list order as a fresh `Parameter(required)`. */
  function Declare(t: Table, names: seq<string>, required: bool): Table
  {
    if names == [] then t
    else Put(Declare(t, names[..|names| - 1], required), names[|names| - 1], NewParameter(required))
  }

  /** The table right after construction: the required names first, then
      the optional ones. */
  function DeclaredTable(required: seq<string>, optional: seq<string>): Table
  {
    Declare(Declare([], required, true), optional, false)
  }

  /** A name in the list ends up with the list's flag; the other names
      keep their entries. */
  lemma {:induction false} DeclareLookup(t: Table, names: seq<string>, required: bool, n: string)
    ensures Lookup(Declare(t, names, required), n)
         == if n in names then Some(NewParameter(required)) else Lookup(t, n)
  {
    if names != [] {
      var init := names[..|names| - 1];
      assert names == init + [names[|names| - 1]];
      DeclareLookup(t, init, required, n);
      PutLookup(Declare(t, init, required), names[|names| - 1], NewParameter(required), n);
    }
  }

  lemma {:induction false} DeclareKeepsDistinct(t: Table, names: seq<string>, required: bool)
    requires Distinct(Keys(t))
    ensures Distinct(Keys(Declare(t, names, required)))
  {
    if names != [] {
      var init := names[..|names| - 1];
      DeclareKeepsDistinct(t, init, required);
      PutKeepsDistinct(Declare(t, init, required), names[|names| - 1], NewParameter(required));
    }
  }

  /** One more name declared: the table of a longer prefix is the
      shorter prefix's table with that name put in. */
  lemma DeclareStep(t: Table, names: seq<string>, i: nat, required: bool)
    requires i < |names|
    ensures Declare(t, names[..i + 1], required) == Put(Declare(t, names[..i], required), names[i], NewParameter(required))
  {
    var prefix := names[..i + 1];
    assert prefix[..i] == names[..i] && prefix[i] == names[i];
  }

  /** After construction an optional name is not required, a name only in
      the required list is required, and no other name is declared: a name
      in both lists ends optional, because optional names are added second.
      Names are never listed twice. */
  lemma DeclaredLookup(required: seq<string>, optional: seq<string>, n: string)
    ensures Lookup(DeclaredTable(required, optional), n)
         == if n in optional then Some(Parameter(false))
            else if n in required then Some(Parameter(true))
            else None
    ensures Distinct(Keys(DeclaredTable(required, optional)))
  {
    DeclareLookup(Declare([], required, true), optional, false, n);
    DeclareLookup([], required, true, n);
    DeclareKeepsDistinct([], required, true);
    DeclareKeepsDistinct(Declare([], required, true), optional, false);
  }
}
