/** `LexFile::expand_macros` (src/file.rs): every `{name}` of a defined
    name is replaced by its value, pass after pass over the definitions in
    key order, until a pass changes nothing; the hundredth pass is an
    error. */
module Macros {
  import opened Base
  import opened Text

  /** The passes `expand_macros` allows before it gives up. */
  const MaxIterations: nat := 100

  /** `format!("{{{}}}", name)`: the reference to a macro. */
  function MacroRef(name: string): (r: string)
    ensures |r| == |name| + 2 && r[0] == '{' && r[|r| - 1] == '}' && r[1..|r| - 1] == name
  {
    "{" + name + "}"
  }

  /** The definitions in the iteration order of a `BTreeMap`: ascending
      names, each with its value. */
  function Listing(defs: map<string, string>): (r: seq<(string, string)>)
    ensures |r| == |defs.Keys|
    ensures forall i :: 0 <= i < |r| ==> r[i].0 in defs && defs[r[i].0] == r[i].1
  {
    var names := SortedStrings(defs.Keys);
    seq(|names|, i requires 0 <= i < |names| => (names[i], defs[names[i]]))
  }

  /** Every definition is listed. */
  lemma ListingCovers(defs: map<string, string>, name: string)
    requires name in defs
    ensures exists i :: 0 <= i < |Listing(defs)| && Listing(defs)[i].0 == name
  {
    var names := SortedStrings(defs.Keys);
    var i :| 0 <= i < |names| && names[i] == name;
    assert Listing(defs)[i].0 == name;
  }

  /** One pass of the `for (name, value) in definitions` loop: the rewritten
      text, and whether some reference was found. */
  function Pass(s: string, ds: seq<(string, string)>): (r: (string, bool))
    decreases |ds|
  {
    if ds == [] then (s, false)
    else
      var found := Contains(s, MacroRef(ds[0].0));
      var s' := if found then ReplaceAll(s, MacroRef(ds[0].0), ds[0].1) else s;
      var rest := Pass(s', ds[1..]);
      (rest.0, found || rest.1)
  }

  /** The error `expand_macros` gives up with: it ends with the pattern. */
  function CircularError(pattern: string): (e: string)
    ensures |e| > |pattern| && e[|e| - |pattern|..] == pattern
  {
    "Potential circular reference in macro definitions for pattern: " + pattern
  }

  /** The `while changed && iteration < max_iterations` loop, after
      `iteration` passes that all changed the text into `s`: the text once
      a pass changes nothing, or `None` when the hundredth pass is reached
      first. */
  function Expand(s: string, ds: seq<(string, string)>, iteration: nat): Option<string>
    requires iteration < MaxIterations
    decreases MaxIterations - iteration
  {
    var next := Pass(s, ds);
    if iteration + 1 >= MaxIterations then None
    else if !next.1 then Some(next.0)
    else Expand(next.0, ds, iteration + 1)
  }

  /** `expand_macros(pattern, definitions)`. */
  function ExpandOf(pattern: string, defs: map<string, string>): (r: Result<string>)
    ensures r.Err? ==> r.error == CircularError(pattern)
  {
    match Expand(pattern, Listing(defs), 0)
    case None => Err(CircularError(pattern))
    case Some(v) => Ok(v)
  }

  /** One round of the loop. */
  lemma ExpandRound(s: string, ds: seq<(string, string)>, iteration: nat)
    requires iteration < MaxIterations
    ensures var next := Pass(s, ds);
      Expand(s, ds, iteration) ==
        if iteration + 1 >= MaxIterations then None
        else if !next.1 then Some(next.0)
        else Expand(next.0, ds, iteration + 1)
  {
  }

  // ---------------------------------------------------------------------
  // The loops
  // ---------------------------------------------------------------------

  /** The inner loop over the definitions. */
  method ExpandPass(s: string, ds: seq<(string, string)>) returns (result: string, changed: bool)
    ensures (result, changed) == Pass(s, ds)
  {
    result, changed := s, false;
    for k := 0 to |ds|
      invariant Pass(result, ds[k..]).0 == Pass(s, ds).0
      invariant (changed || Pass(result, ds[k..]).1) == Pass(s, ds).1
    {
      assert ds[k..][1..] == ds[k + 1..];
      var macroRef := MacroRef(ds[k].0);
      if Contains(result, macroRef) {
        result := ReplaceAll(result, macroRef, ds[k].1);
        changed := true;
      }
    }
  }

  /** The `while` loop over the listed definitions: the text and the
      passes made. */
  method ExpandPasses(pattern: string, ds: seq<(string, string)>) returns (result: string, iteration: nat)
    ensures iteration >= MaxIterations <==> Expand(pattern, ds, 0).None?
    ensures iteration < MaxIterations ==> Expand(pattern, ds, 0) == Some(result)
  {
    result := pattern;
    var changed := true;
    iteration := 0;
    ghost var goal := Expand(pattern, ds, 0);
    while changed && iteration < MaxIterations
      invariant iteration <= MaxIterations
      invariant changed && iteration < MaxIterations ==> Expand(result, ds, iteration) == goal
      invariant !changed && iteration < MaxIterations ==> goal == Some(result)
      invariant iteration >= MaxIterations ==> goal == None
      decreases MaxIterations - iteration
    {
      ghost var before, round := result, iteration;
      result, changed := ExpandPass(result, ds);
      iteration := iteration + 1;
      ExpandRound(before, ds, round);
    }
  }

  /** `expand_macros`: passes until nothing changes, at most a hundred. */
  method ExpandMacros(pattern: string, definitions: map<string, string>) returns (r: Result<string>)
    ensures r == ExpandOf(pattern, definitions)
  {
    var result, iteration := ExpandPasses(pattern, Listing(definitions));
    if iteration >= MaxIterations {
      return Err(CircularError(pattern));
    }
    r := Ok(result);
  }

  // ---------------------------------------------------------------------
  // What expansion promises
  // ---------------------------------------------------------------------

  /** A pass that finds nothing leaves the text alone, and it finds nothing
      exactly when no listed name is referenced. */
  lemma {:induction false} PassUnchanged(s: string, ds: seq<(string, string)>)
    ensures !Pass(s, ds).1 <==> forall i :: 0 <= i < |ds| ==> !Contains(s, MacroRef(ds[i].0))
    ensures !Pass(s, ds).1 ==> Pass(s, ds).0 == s
    decreases |ds|
  {
    if ds != [] {
      PassUnchanged(s, ds[1..]);
      if !Contains(s, MacroRef(ds[0].0)) {
        forall i | 1 <= i < |ds| ensures ds[i] == ds[1..][i - 1] { }
      }
    }
  }

  /** Text without a reference to any defined name comes back unchanged. */
  lemma NoReferences(pattern: string, defs: map<string, string>)
    requires forall name :: name in defs ==> !Contains(pattern, MacroRef(name))
    ensures ExpandOf(pattern, defs) == Ok(pattern)
  {
    PassUnchanged(pattern, Listing(defs));
  }

  /** A successful expansion leaves no reference to a listed name. */
  lemma {:induction false} ExpandedFully(s: string, ds: seq<(string, string)>, iteration: nat)
    requires iteration < MaxIterations
    requires Expand(s, ds, iteration).Some?
    ensures forall i :: 0 <= i < |ds| ==>
      !Contains(Expand(s, ds, iteration).value, MacroRef(ds[i].0))
    decreases MaxIterations - iteration
  {
    var next := Pass(s, ds);
    if next.1 {
      ExpandedFully(next.0, ds, iteration + 1);
    } else {
      PassUnchanged(s, ds);
    }
  }

  /** `expand_macros` succeeds only with every reference resolved. */
  lemma ExpandOfResolves(pattern: string, defs: map<string, string>)
    requires ExpandOf(pattern, defs).Ok?
    ensures forall name :: name in defs ==> !Contains(ExpandOf(pattern, defs).value, MacroRef(name))
  {
    var ds := Listing(defs);
    ExpandedFully(pattern, ds, 0);
    forall name | name in defs ensures !Contains(ExpandOf(pattern, defs).value, MacroRef(name)) {
      ListingCovers(defs, name);
    }
  }

  /** The listing of a single definition. */
  lemma ListingOne(name: string, value: string)
    ensures Listing(map[name := value]) == [(name, value)]
  {
    var r := Listing(map[name := value]);
    assert |r| == 1;
    assert r[0].0 in map[name := value];
  }

  /** A self-referencing macro never resolves: every pass still finds the
      reference, until the iteration bound. */
  lemma {:induction false} SelfReferenceLoops(s: string, name: string, value: string, iteration: nat)
    requires iteration < MaxIterations
    requires Contains(s, MacroRef(name)) && Contains(value, MacroRef(name))
    ensures Expand(s, [(name, value)], iteration) == None
    decreases MaxIterations - iteration
  {
    var ds := [(name, value)];
    var next := Pass(s, ds);
    var s' := ReplaceAll(s, MacroRef(name), value);
    assert ds[0].0 == name && ds[0].1 == value && ds[1..] == [];
    assert Pass(s', ds[1..]) == (s', false);
    assert next == (s', true);
    ReplaceKeepsSelfReference(s, MacroRef(name), value);
    if iteration + 1 < MaxIterations {
      SelfReferenceLoops(next.0, name, value, iteration + 1);
    }
  }

  /** `expand_macros` fails on a pattern that uses the only macro, when
      that macro is defined in terms of itself. */
  lemma SelfReference(pattern: string, name: string, value: string)
    requires Contains(pattern, MacroRef(name)) && Contains(value, MacroRef(name))
    ensures ExpandOf(pattern, map[name := value]) == Err(CircularError(pattern))
  {
    ListingOne(name, value);
    SelfReferenceLoops(pattern, name, value, 0);
  }

  /** A macro used once is replaced by its value. */
  lemma ExpandExample()
    ensures ExpandOf("{D}+", map["D" := "[0-9]"]) == Ok("[0-9]+")
  {
    ListingOne("D", "[0-9]");
    var ref := MacroRef("D");
    var ds := [("D", "[0-9]")];
    assert ds[1..] == [];
    assert "{D}+"[..3] == ref;
    assert "{D}+"[3..] == "+";
    assert ReplaceAll("+", ref, "[0-9]") == "+";
    assert ReplaceAll("{D}+", ref, "[0-9]") == "[0-9]+";
    assert StartsWith("{D}+", ref);
    assert Pass("{D}+", ds) == ("[0-9]+", true);
    assert !Contains("[0-9]+", ref) by {
      assert !StartsWith("[0-9]+", ref);
      assert !StartsWith("0-9]+", ref);
      assert !StartsWith("-9]+", ref);
      assert !StartsWith("9]+", ref);
      assert !StartsWith("]+", ref);
      assert !StartsWith("+", ref);
      assert "[0-9]+"[1..] == "0-9]+";
      assert "0-9]+"[1..] == "-9]+";
      assert "-9]+"[1..] == "9]+";
      assert "9]+"[1..] == "]+";
      assert "]+"[1..] == "+";
      assert "+"[1..] == "";
    }
    assert Pass("[0-9]+", ds) == ("[0-9]+", false);
  }
}
