/** The configuration of the test suite: four settings with defaults, each
    of which an environment variable `PARTSLOGIC_<NAME>` can override. The
    variable's upper-case, underscore-separated name, without the prefix,
    is camel-cased into the property name (`PARTSLOGIC_API_KEY` sets
    `apiKey`). */
module TestConfig {
  import opened Results
  import opened Strings

  const EnvPrefix := "PARTSLOGIC"

  /** What a variable name must start with: the prefix, then `_`. */
  const EnvMarker := EnvPrefix + "_"

  // `str_replace` with a needle of several characters.

  /** `str_replace(pat, '', s)`: every occurrence of `pat`, found left to
      right without overlap, removed. */
  function RemoveAll(s: string, pat: string): (r: string)
    requires pat != []
    ensures |r| <= |s|
    decreases |s|
  {
    if |s| < |pat| then s
    else if s[..|pat|] == pat then RemoveAll(s[|pat|..], pat)
    else [s[0]] + RemoveAll(s[1..], pat)
  }

  /** `pat` occurs in `s`: at its start, or further on. */
  predicate Occurs(s: string, pat: string)
    decreases |s|
  {
    |pat| <= |s| && (s[..|pat|] == pat || Occurs(s[1..], pat))
  }

  /** Without an occurrence there is nothing to remove. */
  lemma {:induction false} RemoveAllAbsent(s: string, pat: string)
    requires pat != [] && !Occurs(s, pat)
    ensures RemoveAll(s, pat) == s
    decreases |s|
  {
    if |s| >= |pat| {
      RemoveAllAbsent(s[1..], pat);
      assert [s[0]] + s[1..] == s;
    }
  }

  /** A string lacking one of the needle's characters holds no occurrence. */
  lemma {:induction false} MissingCharNoOccurrence(s: string, pat: string, c: char)
    requires c in pat && c !in s
    ensures !Occurs(s, pat)
    decreases |s|
  {
    if |pat| <= |s| {
      var k :| 0 <= k < |pat| && pat[k] == c;
      assert s[..|pat|][k] == s[k];
      assert c !in s[1..] by {
        forall j | 0 <= j < |s[1..]| ensures s[1..][j] != c {
          assert s[1..][j] == s[j + 1];
        }
      }
      MissingCharNoOccurrence(s[1..], pat, c);
    }
  }

  /** A leading occurrence is removed, and the scan goes on after it. */
  lemma RemoveLeading(pat: string, rest: string)
    requires pat != []
    ensures RemoveAll(pat + rest, pat) == RemoveAll(rest, pat)
  {
    assert (pat + rest)[..|pat|] == pat;
    assert (pat + rest)[|pat|..] == rest;
  }

  // `strtolower`, `ucwords` with `_` as the only delimiter, `lcfirst`.

  function LowerAll(s: string): (r: string)
    ensures |r| == |s| && forall i :: 0 <= i < |s| ==> r[i] == Lower(s[i])
  {
    seq(|s|, i requires 0 <= i < |s| => Lower(s[i]))
  }

  /** `ucwords(s, '_')`, continuing after a character that was (`start`)
      or was not a delimiter: a character is upper-cased when it comes
      first or right after a `_`. */
  function UcWordsFrom(s: string, start: bool): (r: string)
    ensures |r| == |s| && forall i :: 0 <= i < |s| ==> (r[i] == '_' <==> s[i] == '_')
  {
    if s == [] then [] else [if start then Upper(s[0]) else s[0]] + UcWordsFrom(s[1..], s[0] == '_')
  }

  function UcWords(s: string): string
  {
    UcWordsFrom(s, true)
  }

  function LcFirst(s: string): string
  {
    if s == [] then [] else [Lower(s[0])] + s[1..]
  }

  /** The property name the rest of a variable name gives: lower-cased,
      each word after a `_` capitalised, the first letter lower-cased, and
      the underscores dropped. */
  function Camelize(s: string): (r: string)
    ensures '_' !in r
  {
    ReplaceChar(LcFirst(UcWords(LowerAll(s))), '_', "")
  }

  /** `getPropertyFromEnvName`: nothing unless the name starts with
      `PARTSLOGIC_`; otherwise every `PARTSLOGIC_` in it is removed and the
      rest camel-cased, and an empty result is nothing too. */
  function PropertyFromEnvName(name: string): (r: Option<string>)
    ensures !StartsWith(name, EnvMarker) ==> r == None
    ensures r.Some? ==> r.value != "" && '_' !in r.value
  {
    if !StartsWith(name, EnvMarker) then None
    else
      var property := Camelize(RemoveAll(name, EnvMarker));
      if |property| == 0 then None else Some(property)
  }

  // Independent description of the property name, word by word.

  function Capitalize(w: string): string
  {
    if w == [] then [] else [Upper(w[0])] + w[1..]
  }

  function CapitalizedWords(ws: seq<string>): string
  {
    if ws == [] then "" else Capitalize(LowerAll(ws[0])) + CapitalizedWords(ws[1..])
  }

  /** The first word in lower case, each following word in lower case with
      a capital first letter, with nothing between them. */
  function CamelCase(words: seq<string>): string
    requires |words| >= 1
  {
    LowerAll(words[0]) + CapitalizedWords(words[1..])
  }

  lemma LowerAllAppend(a: string, b: string)
    ensures LowerAll(a + b) == LowerAll(a) + LowerAll(b)
  {
    assert forall i :: 0 <= i < |a + b| ==> LowerAll(a + b)[i] == (LowerAll(a) + LowerAll(b))[i];
  }

  lemma {:induction false} UcWordsSplit(a: string, b: string, start: bool)
    requires '_' !in a
    ensures UcWordsFrom(a + "_" + b, start) == UcWordsFrom(a, start) + "_" + UcWordsFrom(b, true)
  {
    var s := a + "_" + b;
    if a == [] {
      assert s == "_" + b;
      assert s[1..] == b;
    } else {
      assert s[0] == a[0] && s[1..] == a[1..] + "_" + b;
      assert '_' !in a[1..] by {
        forall j | 0 <= j < |a[1..]| ensures a[1..][j] != '_' {
          assert a[1..][j] == a[j + 1];
        }
      }
      UcWordsSplit(a[1..], b, false);
    }
  }

  lemma {:induction false} UcWordsWord(w: string, start: bool)
    requires '_' !in w
    ensures UcWordsFrom(w, start) == if start then Capitalize(w) else w
  {
    if w != [] {
      assert '_' !in w[1..] by {
        forall j | 0 <= j < |w[1..]| ensures w[1..][j] != '_' {
          assert w[1..][j] == w[j + 1];
        }
      }
      UcWordsWord(w[1..], false);
      assert [w[0]] + w[1..] == w;
    }
  }

  lemma {:induction false} ReplaceAppend(a: string, b: string, c: char, rep: string)
    ensures ReplaceChar(a + b, c, rep) == ReplaceChar(a, c, rep) + ReplaceChar(b, c, rep)
  {
    if a == [] {
      assert a + b == b;
    } else {
      var head := if a[0] == c then rep else [a[0]];
      var x, y, z := ReplaceChar(a[1..], c, rep), ReplaceChar(b, c, rep), ReplaceChar(a[1..] + b, c, rep);
      assert (a + b)[0] == a[0] && (a + b)[1..] == a[1..] + b;
      ReplaceAppend(a[1..], b, c, rep);
      assert z == x + y;
      assert head + (x + y) == (head + x) + y;
    }
  }

  lemma LowerAllWord(w: string)
    requires '_' !in w
    ensures '_' !in LowerAll(w)
  {
    forall i | 0 <= i < |w| ensures LowerAll(w)[i] != '_' {
      assert w[i] != '_';
    }
  }

  /** Camel-casing without the final `lcfirst`, over joined words. */
  lemma {:induction false} CamelWords(ws: seq<string>, start: bool)
    requires |ws| >= 1
    requires forall i :: 0 <= i < |ws| ==> '_' !in ws[i]
    ensures ReplaceChar(UcWordsFrom(LowerAll(Join(ws, "_")), start), '_', "")
         == (if start then Capitalize(LowerAll(ws[0])) else LowerAll(ws[0])) + CapitalizedWords(ws[1..])
  {
    var w := LowerAll(ws[0]);
    LowerAllWord(ws[0]);
    UcWordsWord(w, start);
    var u := UcWordsFrom(w, start);
    assert '_' !in u by {
      forall j | 0 <= j < |u| ensures u[j] != '_' {
        assert w[j] != '_';
      }
    }
    if |ws| == 1 {
      assert CapitalizedWords(ws[1..]) == "";
      assert u + "" == u;
    } else {
      var rest := Join(ws[1..], "_");
      assert Join(ws, "_") == ws[0] + "_" + rest;
      LowerAllAppend(ws[0] + "_", rest);
      LowerAllAppend(ws[0], "_");
      assert LowerAll("_") == "_";
      UcWordsSplit(w, LowerAll(rest), start);
      ReplaceAppend(u + "_", UcWordsFrom(LowerAll(rest), true), '_', "");
      ReplaceAppend(u, "_", '_', "");
      assert ReplaceChar("_", '_', "") == "";
      CamelWords(ws[1..], true);
      assert ws[1..][1..] == ws[2..];
    }
  }

  /** `lcfirst` undoes the capital `ucwords` gives the lower-cased first
      letter. */
  lemma LcFirstUcWords(s: string)
    ensures LcFirst(UcWordsFrom(LowerAll(s), true)) == UcWordsFrom(LowerAll(s), false)
  {
  }

  /** Camel-casing joined words gives the word-by-word description. */
  lemma CamelizeWords(ws: seq<string>)
    requires |ws| >= 1
    requires forall i :: 0 <= i < |ws| ==> '_' !in ws[i]
    ensures Camelize(Join(ws, "_")) == CamelCase(ws)
  {
    LcFirstUcWords(Join(ws, "_"));
    CamelWords(ws, false);
  }

  /** A character put in front of the first piece comes out in front of
      the joined text. */
  lemma JoinFrontChar(c: char, rest: seq<string>, sep: string)
    requires |rest| >= 1
    ensures Join([[c] + rest[0]] + rest[1..], sep) == [c] + Join(rest, sep)
  {
    var parts := [[c] + rest[0]] + rest[1..];
    if |rest| > 1 {
      assert parts[1..] == rest[1..];
      assert Join(parts, sep) == [c] + rest[0] + sep + Join(rest[1..], sep);
    }
  }

  lemma {:induction false} JoinSplit(s: string, d: char)
    ensures Join(Split(s, d), [d]) == s
  {
    if s != [] {
      JoinSplit(s[1..], d);
      var rest := Split(s[1..], d);
      if s[0] == d {
        assert ([""] + rest)[1..] == rest;
        assert Join([""] + rest, [d]) == "" + [d] + Join(rest, [d]);
      } else {
        JoinFrontChar(s[0], rest, [d]);
      }
      assert [s[0]] + s[1..] == s;
    }
  }

  lemma {:induction false} SplitAvoids(s: string, d: char)
    ensures forall i :: 0 <= i < |Split(s, d)| ==> d !in Split(s, d)[i]
  {
    if s != [] {
      SplitAvoids(s[1..], d);
      var rest := Split(s[1..], d);
      if s[0] != d {
        var parts := [[s[0]] + rest[0]] + rest[1..];
        forall i | 0 <= i < |parts| ensures d !in parts[i] {
          if i > 0 {
            assert parts[i] == rest[i];
          }
        }
      }
    }
  }

  /** Every string camel-cases to the word-by-word description of its
      `_`-separated words. */
  lemma CamelizeSplit(s: string)
    ensures Camelize(s) == CamelCase(Split(s, '_'))
  {
    JoinSplit(s, '_');
    SplitAvoids(s, '_');
    CamelizeWords(Split(s, '_'));
  }

  lemma {:induction false} ReplaceEmpty(s: string)
    ensures ReplaceChar(s, '_', "") == "" <==> forall i :: 0 <= i < |s| ==> s[i] == '_'
  {
    if s != [] {
      ReplaceEmpty(s[1..]);
      if s[0] == '_' {
        assert ReplaceChar(s, '_', "") == ReplaceChar(s[1..], '_', "");
        assert (forall i :: 0 <= i < |s| ==> s[i] == '_') <==> (forall i :: 0 <= i < |s[1..]| ==> s[1..][i] == '_') by {
          forall i | 0 <= i < |s[1..]| ensures s[1..][i] == s[i + 1] { }
        }
      }
    }
  }

  /** The camel case is empty exactly when the input is nothing but
      underscores. */
  lemma CamelizeEmpty(s: string)
    ensures Camelize(s) == "" <==> forall i :: 0 <= i < |s| ==> s[i] == '_'
  {
    var x := LcFirst(UcWords(LowerAll(s)));
    assert |x| == |s| && forall i :: 0 <= i < |s| ==> (x[i] == '_' <==> s[i] == '_');
    ReplaceEmpty(x);
  }

  /** A name made of the marker and a rest that holds no second marker
      gives the camel case of the rest, or nothing when that is empty. */
  lemma MarkedNameCamelized(rest: string)
    requires !Occurs(rest, EnvMarker)
    ensures PropertyFromEnvName(EnvMarker + rest) == if Camelize(rest) == "" then None else Some(Camelize(rest))
  {
    assert (EnvMarker + rest)[..|EnvMarker|] == EnvMarker;
    RemoveLeading(EnvMarker, rest);
    RemoveAllAbsent(rest, EnvMarker);
  }

  /** A name made of the marker and a rest that holds no second marker
      gives no property when the rest is only underscores (or empty), and
      otherwise the camel case of the rest's `_`-separated words. */
  lemma MarkedName(rest: string)
    requires !Occurs(rest, EnvMarker)
    ensures PropertyFromEnvName(EnvMarker + rest)
         == if forall i :: 0 <= i < |rest| ==> rest[i] == '_' then None else Some(CamelCase(Split(rest, '_')))
  {
    MarkedNameCamelized(rest);
    CamelizeEmpty(rest);
    CamelizeSplit(rest);
  }

  /** A rest without a `G` holds no second marker. */
  lemma MarkedNameWithoutG(rest: string)
    requires 'G' !in rest
    ensures PropertyFromEnvName(EnvMarker + rest) == if Camelize(rest) == "" then None else Some(Camelize(rest))
  {
    assert 'G' in EnvMarker by { assert EnvMarker[7] == 'G'; }
    MissingCharNoOccurrence(rest, EnvMarker, 'G');
    MarkedNameCamelized(rest);
  }

  /** A marked name whose rest has no `G` and a non-empty camel case. */
  lemma MarkedNameIs(name: string, rest: string, property: string)
    requires name == EnvMarker + rest
    requires 'G' !in rest && Camelize(rest) == property && property != ""
    ensures PropertyFromEnvName(name) == Some(property)
  {
    MarkedNameWithoutG(rest);
  }

  lemma JoinThree(a: string, b: string, c: string, sep: string)
    ensures Join([a, b, c], sep) == a + sep + b + sep + c
  {
    var ws := [a, b, c];
    assert ws[1..] == [b, c] && [b, c][1..] == [c];
    assert Join([b, c], sep) == b + sep + c;
    assert Join(ws, sep) == a + sep + (b + sep + c);
  }

  lemma CapitalizedTwo(b: string, c: string)
    ensures CapitalizedWords([b, c]) == Capitalize(LowerAll(b)) + Capitalize(LowerAll(c))
  {
    assert [b, c][1..] == [c] && [c][1..] == [];
    assert CapitalizedWords([c]) == Capitalize(LowerAll(c)) + "";
  }

  /** Two words joined by `_`. */
  lemma CamelizeTwo(a: string, b: string)
    requires '_' !in a && '_' !in b
    ensures Camelize(a + "_" + b) == LowerAll(a) + Capitalize(LowerAll(b))
  {
    var ws := [a, b];
    assert ws[1..] == [b];
    assert Join(ws, "_") == a + "_" + b;
    assert forall i :: 0 <= i < |ws| ==> '_' !in ws[i];
    CamelizeWords(ws);
    assert CapitalizedWords([b]) == Capitalize(LowerAll(b)) + "";
  }

  /** Three words joined by `_`. */
  lemma CamelizeThree(a: string, b: string, c: string)
    requires '_' !in a && '_' !in b && '_' !in c
    ensures Camelize(a + "_" + b + "_" + c) == LowerAll(a) + Capitalize(LowerAll(b)) + Capitalize(LowerAll(c))
  {
    var ws := [a, b, c];
    JoinThree(a, b, c, "_");
    assert forall i :: 0 <= i < |ws| ==> '_' !in ws[i];
    CamelizeWords(ws);
    assert ws[1..] == [b, c];
    CapitalizedTwo(b, c);
    var x, y, z := LowerAll(a), Capitalize(LowerAll(b)), Capitalize(LowerAll(c));
    assert CamelCase(ws) == x + (y + z);
  }

  /** The marker, then two words. */
  lemma TwoWordName(name: string, a: string, b: string, property: string)
    requires '_' !in a && '_' !in b && 'G' !in a + "_" + b
    requires name == EnvMarker + (a + "_" + b)
    requires property == LowerAll(a) + Capitalize(LowerAll(b)) && property != ""
    ensures PropertyFromEnvName(name) == Some(property)
  {
    CamelizeTwo(a, b);
    MarkedNameIs(name, a + "_" + b, property);
  }

  /** The marker, then three words. */
  lemma ThreeWordName(name: string, a: string, b: string, c: string, property: string)
    requires '_' !in a && '_' !in b && '_' !in c && 'G' !in a + "_" + b + "_" + c
    requires name == EnvMarker + (a + "_" + b + "_" + c)
    requires property == LowerAll(a) + Capitalize(LowerAll(b)) + Capitalize(LowerAll(c)) && property != ""
    ensures PropertyFromEnvName(name) == Some(property)
  {
    CamelizeThree(a, b, c);
    MarkedNameIs(name, a + "_" + b + "_" + c, property);
  }

  /** With no needle character first in `x`, no occurrence starts in `x`. */
  lemma {:induction false} RemoveAllSkips(x: string, y: string, pat: string)
    requires pat != [] && pat[0] !in x
    ensures RemoveAll(x + y, pat) == x + RemoveAll(y, pat)
  {
    if x == [] {
      assert x + y == y;
    } else {
      var s := x + y;
      assert s[0] == x[0] && s[1..] == x[1..] + y;
      assert pat[0] !in x[1..];
      RemoveAllSkips(x[1..], y, pat);
      if |s| < |pat| {
        assert RemoveAll(y, pat) == y;
        assert RemoveAll(s, pat) == s;
      } else {
        assert s[..|pat|][0] == x[0];
        assert RemoveAll(s, pat) == [x[0]] + RemoveAll(x[1..] + y, pat);
        assert [x[0]] + (x[1..] + RemoveAll(y, pat)) == x + RemoveAll(y, pat);
      }
    }
  }

  /** No occurrence of such a needle starts inside a non-empty text that
      holds none and runs on into the needle right after it. */
  lemma NoStraddle(x: string, y: string, pat: string)
    requires pat != [] && pat[|pat| - 1] !in pat[..|pat| - 1]
    requires x != [] && !Occurs(x, pat)
    ensures (x + pat + y)[..|pat|] != pat
  {
    var s, n := x + pat + y, |pat|;
    if |x| >= n {
      assert s[..n] == x[..n];
    } else {
      assert s[n - 1] == pat[n - 1 - |x|] == pat[..n - 1][n - 1 - |x|];
      assert s[..n][n - 1] == s[n - 1];
    }
  }

  /** A needle whose last character appears nowhere else in it, following
      a text that holds no occurrence, is removed and the text before it is
      kept: an occurrence starting inside the text would have to end at a
      character that only the needle's own last one supplies. */
  lemma {:induction false} InnerOccurrenceRemoved(x: string, y: string, pat: string)
    requires pat != [] && pat[|pat| - 1] !in pat[..|pat| - 1]
    requires !Occurs(x, pat)
    ensures RemoveAll(x + pat + y, pat) == x + RemoveAll(y, pat)
    decreases |x|
  {
    var s := x + pat + y;
    if x == [] {
      assert s == pat + y;
      RemoveLeading(pat, y);
    } else {
      NoStraddle(x, y, pat);
      assert s[0] == x[0] && s[1..] == x[1..] + pat + y;
      assert RemoveAll(s, pat) == [x[0]] + RemoveAll(x[1..] + pat + y, pat);
      assert !Occurs(x[1..], pat);
      InnerOccurrenceRemoved(x[1..], y, pat);
      assert [x[0]] + (x[1..] + RemoveAll(y, pat)) == x + RemoveAll(y, pat);
    }
  }

  /** The marker's `_` is its last character and its only one. */
  lemma InnerMarkerRemoved(x: string, y: string)
    requires !Occurs(x, EnvMarker)
    ensures RemoveAll(x + EnvMarker + y, EnvMarker) == x + RemoveAll(y, EnvMarker)
  {
    var n := |EnvMarker|;
    assert EnvMarker[n - 1] == '_' && '_' !in EnvMarker[..n - 1];
    InnerOccurrenceRemoved(x, y, EnvMarker);
  }

  /** Pieces holding no marker, joined by markers: every marker is
      removed and the pieces are left, one after another. */
  lemma {:induction false} MarkersRemoved(pieces: seq<string>)
    requires |pieces| >= 1
    requires forall i :: 0 <= i < |pieces| ==> !Occurs(pieces[i], EnvMarker)
    ensures RemoveAll(Join(pieces, EnvMarker), EnvMarker) == Join(pieces, "")
  {
    if |pieces| == 1 {
      RemoveAllAbsent(pieces[0], EnvMarker);
    } else {
      var rest := pieces[1..];
      assert forall i :: 0 <= i < |rest| ==> rest[i] == pieces[i + 1];
      MarkersRemoved(rest);
      InnerMarkerRemoved(pieces[0], Join(rest, EnvMarker));
      assert Join(pieces, "") == pieces[0] + "" + Join(rest, "");
    }
  }

  /** A name made of the marker and marker-free pieces joined by further
      markers gives the camel case of the pieces put together, or nothing
      when that is empty: every marker is dropped, wherever it stands. */
  lemma InnerMarkersDropped(pieces: seq<string>)
    requires |pieces| >= 1
    requires forall i :: 0 <= i < |pieces| ==> !Occurs(pieces[i], EnvMarker)
    ensures var rest := Join(pieces, "");
      PropertyFromEnvName(EnvMarker + Join(pieces, EnvMarker))
        == if Camelize(rest) == "" then None else Some(Camelize(rest))
  {
    var joined := Join(pieces, EnvMarker);
    assert (EnvMarker + joined)[..|EnvMarker|] == EnvMarker;
    RemoveLeading(EnvMarker, joined);
    MarkersRemoved(pieces);
  }

  // The settings.

  /** A setting's value: the defaults are strings and booleans, the
      environment gives strings (or, in the tests, integers), and `null`
      leaves a setting unset. */
  datatype Setting = Text(text: string) | Number(number: int) | Flag(flag: bool) | Unset

  /** The environment: variable names and their values, in order. */
  type Env = seq<(string, Setting)>

  const Defaults: map<string, Setting> := map[
    "apiKey" := Text("test-api-key"),
    "apiEndpoint" := Text("https://api.sunhammer.io"),
    "useMockResponses" := Flag(true),
    "enableDebug" := Flag(false)]

  /** One variable of the environment: its value is stored under the
      property its name gives, if any. */
  function Assign(props: map<string, Setting>, entry: (string, Setting)): map<string, Setting>
  {
    var property := PropertyFromEnvName(entry.0);
    if property.Some? then props[property.value := entry.1] else props
  }

  /** The settings after the environment is applied in order. */
  function Applied(props: map<string, Setting>, env: Env): map<string, Setting>
  {
    if env == [] then props else Assign(Applied(props, env[..|env| - 1]), env[|env| - 1])
  }

  /** A property is set by the last variable whose name gives it. */
  lemma {:induction false} AppliedLastWins(props: map<string, Setting>, env: Env, i: nat, p: string)
    requires i < |env| && PropertyFromEnvName(env[i].0) == Some(p)
    requires forall j :: i < j < |env| ==> PropertyFromEnvName(env[j].0) != Some(p)
    ensures p in Applied(props, env) && Applied(props, env)[p] == env[i].1
  {
    var init := env[..|env| - 1];
    if i < |env| - 1 {
      AppliedLastWins(props, init, i, p);
    }
  }

  /** A property no variable names keeps its value, or stays absent. */
  lemma {:induction false} AppliedUntouched(props: map<string, Setting>, env: Env, p: string)
    requires forall i :: 0 <= i < |env| ==> PropertyFromEnvName(env[i].0) != Some(p)
    ensures p in Applied(props, env) <==> p in props
    ensures p in props ==> Applied(props, env)[p] == props[p]
  {
    if env != [] {
      var init := env[..|env| - 1];
      assert forall i :: 0 <= i < |init| ==> init[i] == env[i];
      AppliedUntouched(props, init, p);
    }
  }

  /** Applying the environment never removes a property. */
  lemma {:induction false} AppliedKeepsNames(props: map<string, Setting>, env: Env)
    ensures props.Keys <= Applied(props, env).Keys
  {
    if env != [] {
      AppliedKeepsNames(props, env[..|env| - 1]);
    }
  }

  /** What reading a setting can fail with. */
  datatype ConfigFault = NotSet(message: string) | DoesNotExist(message: string)

  /** `Tests\Config`: the settings of one test run. */
  class Config {
    var props: map<string, Setting>

    /** `new Config($env)`: the defaults, then the environment. */
    constructor(env: Env)
      ensures props == Applied(Defaults, env)
    {
      props := Defaults;
      new;
      SetConfigFromEnvironment(env);
    }

    /** `setConfigFromEnvironment`: each variable in turn stores its value
        under the property its name gives. */
    method SetConfigFromEnvironment(env: Env)
      modifies this`props
      ensures props == Applied(old(props), env)
    {
      var i := 0;
      while i < |env|
        invariant 0 <= i <= |env|
        invariant props == Applied(old(props), env[..i])
      {
        var (name, value) := env[i];
        var property := PropertyFromEnvName(name);
        if property != None {
          props := props[property.value := value];
        }
        assert env[..i + 1][..i] == env[..i];
        i := i + 1;
      }
      assert env[..|env|] == env;
    }

    /** `__get`: the value of a property that is set; a property that does
        not exist, or holds `null`, is an error. */
    function Get(property: string): (r: Result<Setting, ConfigFault>)
      reads this
      ensures r.Success? <==> property in props && props[property] != Unset
      ensures r.Success? ==> r.value == props[property]
      ensures property !in props ==> r == Failure(DoesNotExist("'" + property + "' does not exist."))
      ensures property in props && props[property] == Unset
              ==> r == Failure(NotSet("'" + property + "' has not been set for client"))
    {
      if property in props then
        if props[property] != Unset then Success(props[property])
        else Failure(NotSet("'" + property + "' has not been set for client"))
      else Failure(DoesNotExist("'" + property + "' does not exist."))
    }
  }

  /** One overriding variable whose name gives a property: that property
      reads back the variable's value, and every default the name does
      not give reads back unchanged. */
  method EnvOverride(name: string, value: Setting, other: string) returns (overridden: Result<Setting, ConfigFault>,
                                                                           untouched: Result<Setting, ConfigFault>)
    requires PropertyFromEnvName(name).Some? && value != Unset
    requires other in Defaults && PropertyFromEnvName(name) != Some(other)
    ensures overridden == Success(value)
    ensures untouched == Success(Defaults[other])
  {
    var env: Env := [(name, value)];
    var c := new Config(env);
    AppliedLastWins(Defaults, env, 0, PropertyFromEnvName(name).value);
    AppliedUntouched(Defaults, env, other);
    overridden := c.Get(PropertyFromEnvName(name).value);
    untouched := c.Get(other);
  }
}
