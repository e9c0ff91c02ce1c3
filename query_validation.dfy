/** The allow-list check `Base::validate` runs: a walk over the declared
    parameters that splices each one it finds out of the query's keys and
    notes each missing required one, then one error per key left over. */
module QueryValidation {
  import opened QueryValues
  import opened Parameters
  import opened ParameterTable

  /** `array_splice($keys, array_search($x, $keys), 1)`: drop the first
      occurrence of `x`. */
  function RemoveFirst(s: seq<string>, x: string): seq<string>
  {
    if s == [] then []
    else if s[0] == x then s[1..]
    else [s[0]] + RemoveFirst(s[1..], x)
  }

  /** One step of the walk: the entry's name is looked for among the
      keys not yet spliced out. */
  function Visit(state: (seq<string>, seq<string>), entry: (string, Parameter)): (seq<string>, seq<string>)
  {
    var (errs, rest) := state;
    var (name, param) := entry;
    if name in rest then
      (errs + (if param.Validate() then [] else [name + " validation failed"]), RemoveFirst(rest, name))
    else if param.IsRequired() then
      (errs + [name + " is required"], rest)
    else
      (errs, rest)
  }

  /** The walk over the table: the errors it pushes and the query keys it
      leaves unmatched. */
  function Scan(t: Table, keys: seq<string>): (seq<string>, seq<string>)
  {
    if t == [] then ([], keys)
    else Visit(Scan(t[..|t| - 1], keys), t[|t| - 1])
  }

  /** Each name followed by a fixed message. */
  function Suffixed(names: seq<string>, message: string): (r: seq<string>)
    ensures |r| == |names|
    ensures forall i :: 0 <= i < |names| ==> r[i] == names[i] + message
  {
    seq(|names|, i requires 0 <= i < |names| => names[i] + message)
  }

  /** Every error the check reports, in order: the walk's, then one per
      unmatched key. */
  function ValidationErrors(t: Table, q: Query): seq<string>
  {
    var (errs, rest) := Scan(t, Keys(q));
    errs + Suffixed(rest, " is an invalid parameter")
  }

  // Independent description of the same errors.

  /** The required declared names that are not query keys, in declaration
      order. */
  function MissingNames(t: Table, keys: seq<string>): (r: seq<string>)
    ensures forall n :: n in r <==>
      n !in keys && exists i :: 0 <= i < |t| && t[i].0 == n && t[i].1.IsRequired()
  {
    if t == [] then []
    else
      var init := MissingNames(t[..|t| - 1], keys);
      var (name, param) := t[|t| - 1];
      assert forall i :: 0 <= i < |t| - 1 ==> t[..|t| - 1][i] == t[i];
      init + (if name !in keys && param.IsRequired() then [name] else [])
  }

  /** The query keys that are not declared names, in query order. */
  function Undeclared(keys: seq<string>, names: seq<string>): (r: seq<string>)
    ensures forall k :: k in r <==> k in keys && k !in names
  {
    if keys == [] then []
    else (if keys[0] in names then [] else [keys[0]]) + Undeclared(keys[1..], names)
  }

  /** `s` without any occurrence of `x`. */
  function Without(s: seq<string>, x: string): seq<string>
  {
    if s == [] then []
    else (if s[0] == x then [] else [s[0]]) + Without(s[1..], x)
  }

  lemma {:induction false} RemoveFirstOfDistinct(s: seq<string>, x: string)
    requires Distinct(s)
    ensures RemoveFirst(s, x) == Without(s, x)
  {
    if s != [] {
      assert Distinct(s[1..]) by {
        forall i, j | 0 <= i < j < |s[1..]| ensures s[1..][i] != s[1..][j] {
          assert s[1..][i] == s[i + 1] && s[1..][j] == s[j + 1];
        }
      }
      RemoveFirstOfDistinct(s[1..], x);
      if s[0] == x {
        assert x !in s[1..] by {
          forall j | 0 <= j < |s[1..]| ensures s[1..][j] != x {
            assert s[1..][j] == s[j + 1];
          }
        }
        WithoutNotIn(s[1..], x);
      }
    }
  }

  lemma {:induction false} UndeclaredExtend(keys: seq<string>, names: seq<string>, x: string)
    ensures Undeclared(keys, names + [x]) == Without(Undeclared(keys, names), x)
  {
    if keys != [] {
      UndeclaredExtend(keys[1..], names, x);
      WithoutAppend(if keys[0] in names then [] else [keys[0]], Undeclared(keys[1..], names), x);
    }
  }

  lemma {:induction false} WithoutAppend(a: seq<string>, b: seq<string>, x: string)
    ensures Without(a + b, x) == Without(a, x) + Without(b, x)
  {
    if a != [] {
      assert (a + b)[0] == a[0] && (a + b)[1..] == a[1..] + b;
      WithoutAppend(a[1..], b, x);
    } else {
      assert a + b == b;
    }
  }

  lemma {:induction false} UndeclaredDistinct(keys: seq<string>, names: seq<string>)
    requires Distinct(keys)
    ensures Distinct(Undeclared(keys, names))
  {
    if keys != [] {
      assert Distinct(keys[1..]) by {
        forall i, j | 0 <= i < j < |keys[1..]| ensures keys[1..][i] != keys[1..][j] {
          assert keys[1..][i] == keys[i + 1] && keys[1..][j] == keys[j + 1];
        }
      }
      UndeclaredDistinct(keys[1..], names);
      var tail := Undeclared(keys[1..], names);
      assert keys[0] !in keys[1..] by {
        forall j | 0 <= j < |keys[1..]| ensures keys[1..][j] != keys[0] {
          assert keys[1..][j] == keys[j + 1];
        }
      }
      assert keys[0] !in tail;
    }
  }

  /** One step keeps the description: the new name is added to the
      missing ones when required and absent, and is removed from the
      unmatched keys. */
  lemma VisitMeaning(errs: seq<string>, keys: seq<string>, names: seq<string>, name: string, param: Parameter)
    requires Distinct(keys) && name !in names
    ensures
      var added := if name !in keys && param.IsRequired() then [name] else [];
      Visit((errs, Undeclared(keys, names)), (name, param))
        == (errs + Suffixed(added, " is required"), Undeclared(keys, names + [name]))
  {
    var rest := Undeclared(keys, names);
    UndeclaredDistinct(keys, names);
    RemoveFirstOfDistinct(rest, name);
    UndeclaredExtend(keys, names, name);
    assert Suffixed([], " is required") == [];
    assert Suffixed([name], " is required") == [name + " is required"];
    if name in keys {
      assert name in rest;
      assert param.Validate();
    } else {
      assert name !in rest;
      assert errs + [] == errs;
      WithoutNotIn(rest, name);
    }
  }

  /** With declared names and query keys each distinct, the walk pushes
      exactly one "<name> is required" per missing required name, in
      declaration order, and leaves exactly the undeclared keys, in query
      order. */
  lemma {:induction false} ScanMeaning(t: Table, keys: seq<string>)
    requires Distinct(Keys(t)) && Distinct(keys)
    ensures Scan(t, keys) == (Suffixed(MissingNames(t, keys), " is required"), Undeclared(keys, Keys(t)))
  {
    if t != [] {
      var init := t[..|t| - 1];
      var (name, param) := t[|t| - 1];
      assert Keys(t) == Keys(init) + [name];
      assert Distinct(Keys(init)) by {
        forall i, j | 0 <= i < j < |Keys(init)| ensures Keys(init)[i] != Keys(init)[j] {
          assert Keys(init)[i] == Keys(t)[i] && Keys(init)[j] == Keys(t)[j];
        }
      }
      assert name !in Keys(init) by {
        forall j | 0 <= j < |Keys(init)| ensures Keys(init)[j] != name {
          assert Keys(init)[j] == Keys(t)[j];
        }
      }
      ScanMeaning(init, keys);
      VisitMeaning(Suffixed(MissingNames(init, keys), " is required"), keys, Keys(init), name, param);
      var missing := MissingNames(init, keys);
      var added := if name !in keys && param.IsRequired() then [name] else [];
      assert t[..|t| - 1] == init;
      assert MissingNames(t, keys) == missing + added;
      assert Scan(t, keys) == Visit(Scan(init, keys), (name, param));
      assert Suffixed(missing + added, " is required")
          == Suffixed(missing, " is required") + Suffixed(added, " is required");
    } else {
      UndeclaredOfNone(keys);
      assert Keys(t) == [];
      assert Suffixed([], " is required") == [];
    }
  }

  lemma {:induction false} UndeclaredOfNone(keys: seq<string>)
    ensures Undeclared(keys, []) == keys
  {
    if keys != [] {
      UndeclaredOfNone(keys[1..]);
    }
  }

  lemma {:induction false} WithoutNotIn(s: seq<string>, x: string)
    requires x !in s
    ensures Without(s, x) == s
  {
    if s != [] {
      WithoutNotIn(s[1..], x);
    }
  }

  /** The errors, described independently: "<n> is required" for each
      missing required name in declaration order, then "<k> is an invalid
      parameter" for each undeclared key in query order. No "validation
      failed" ever appears, since a parameter always validates. */
  lemma ErrorsMeaning(t: Table, q: Query)
    requires Distinct(Keys(t)) && DistinctKeys(q)
    ensures ValidationErrors(t, q)
         == Suffixed(MissingNames(t, Keys(q)), " is required")
          + Suffixed(Undeclared(Keys(q), Keys(t)), " is an invalid parameter")
  {
    ScanMeaning(t, Keys(q));
  }

  /** The check passes exactly when every required name is a query key and
      every query key is declared. */
  lemma PassesIff(t: Table, q: Query)
    requires Distinct(Keys(t)) && DistinctKeys(q)
    ensures ValidationErrors(t, q) == [] <==>
      (forall i :: 0 <= i < |t| && t[i].1.IsRequired() ==> t[i].0 in Keys(q)) &&
      (forall k :: k in Keys(q) ==> k in Keys(t))
  {
    ErrorsMeaning(t, q);
    var missing := MissingNames(t, Keys(q));
    var undeclared := Undeclared(Keys(q), Keys(t));
    if ValidationErrors(t, q) == [] {
      assert |missing| == 0 && |undeclared| == 0;
      forall i | 0 <= i < |t| && t[i].1.IsRequired() ensures t[i].0 in Keys(q) {
        assert t[i].0 !in missing;
      }
      forall k | k in Keys(q) ensures k in Keys(t) {
        assert k !in undeclared;
      }
    } else {
      if missing != [] {
        assert missing[0] in missing;
      } else {
        assert undeclared[0] in undeclared;
      }
    }
  }

  /** Each undeclared query key is reported as an invalid parameter. */
  lemma UndeclaredKeyReported(t: Table, q: Query, k: string)
    requires Distinct(Keys(t)) && DistinctKeys(q)
    requires k in Keys(q) && k !in Keys(t)
    ensures k + " is an invalid parameter" in ValidationErrors(t, q)
  {
    ErrorsMeaning(t, q);
    var undeclared := Undeclared(Keys(q), Keys(t));
    var i :| 0 <= i < |undeclared| && undeclared[i] == k;
    var invalid := Suffixed(undeclared, " is an invalid parameter");
    var missing := Suffixed(MissingNames(t, Keys(q)), " is required");
    assert (missing + invalid)[|missing| + i] == invalid[i];
  }

  /** Each required declared name missing from the query is reported. */
  lemma MissingNameReported(t: Table, q: Query, n: string)
    requires Distinct(Keys(t)) && DistinctKeys(q)
    requires n !in Keys(q)
    requires exists i :: 0 <= i < |t| && t[i] == (n, Parameter(true))
    ensures n + " is required" in ValidationErrors(t, q)
  {
    ErrorsMeaning(t, q);
    var missingNames := MissingNames(t, Keys(q));
    var i :| 0 <= i < |missingNames| && missingNames[i] == n;
    var missing := Suffixed(missingNames, " is required");
    var invalid := Suffixed(Undeclared(Keys(q), Keys(t)), " is an invalid parameter");
    assert (missing + invalid)[i] == missing[i];
  }
}
