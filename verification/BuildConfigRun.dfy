/** The resolvers as the source runs them: loops over fact slices and ordered maps. */
module BuildConfigRun {
  import opened Collections
  import opened Ordering
  import opened BuildConfig
  import opened BuildConfigResolver
  import opened BuildConfigEquivalence
  import opened BuildConfigSuccess

  method CollectSourceFacts(facts: seq<Fact>) returns (r: Result<Facts>)
    ensures r == CollectSource(map[], facts)
  {
    var byName: Facts := map[];
    for i := 0 to |facts|
      invariant CollectSource(map[], facts) == CollectSource(byName, facts[i..])
    {
      var fact := facts[i];
      assert facts[i..][1..] == facts[i + 1..];
      if fact.name in byName {
        var reason := ConflictReason(byName[fact.name], fact, true);
        if reason.Some? {
          return Err(SourceContractConflict(byName[fact.name], fact, reason.value));
        }
      } else {
        byName := byName[fact.name := fact];
      }
    }
    r := Ok(byName);
  }

  method CollectProjectFacts(facts: seq<Fact>) returns (r: Result<Facts>)
    ensures r == CollectProject(map[], facts)
  {
    var byName: Facts := map[];
    for i := 0 to |facts|
      invariant CollectProject(map[], facts) == CollectProject(byName, facts[i..])
    {
      var fact := facts[i];
      assert facts[i..][1..] == facts[i + 1..];
      if fact.name in byName {
        var reason := ConflictReason(byName[fact.name], fact, true);
        return Err(DuplicateProjectContract(byName[fact.name], fact, if reason.Some? then reason.value else Default));
      }
      byName := byName[fact.name := fact];
    }
    r := Ok(byName);
  }

  method CollectTransientFacts(canonical: Facts, facts: seq<Fact>) returns (r: Result<Facts>)
    ensures r == CollectTransient(canonical, map[], facts)
  {
    var byName: Facts := map[];
    for i := 0 to |facts|
      invariant CollectTransient(canonical, map[], facts) == CollectTransient(canonical, byName, facts[i..])
    {
      var fact := facts[i];
      assert facts[i..][1..] == facts[i + 1..];
      var first := if fact.name in canonical then Some(canonical[fact.name]) else Get(byName, fact.name);
      if first.Some? {
        var reason := ConflictReason(first.value, fact, true);
        if reason.Some? {
          return Err(SourceContractConflict(first.value, fact, reason.value));
        }
      } else {
        byName := byName[fact.name := fact];
      }
    }
    r := Ok(byName);
  }

  method FirstFactsByName(facts: seq<Fact>) returns (byName: Facts)
    ensures byName == FirstFacts(map[], facts)
  {
    byName := map[];
    for i := 0 to |facts|
      invariant FirstFacts(map[], facts) == FirstFacts(byName, facts[i..])
    {
      assert facts[i..][1..] == facts[i + 1..];
      if facts[i].name !in byName {
        byName := byName[facts[i].name := facts[i]];
      }
    }
  }

  method ValidateFactDefaults(facts: Facts) returns (e: Option<Error>)
    ensures e == FirstIn(facts.Keys, DefaultCheck(facts))
  {
    var names := SortedNames(facts.Keys);
    for i := 0 to |names|
      invariant FirstError(names, DefaultCheck(facts)) == FirstError(names[i..], DefaultCheck(facts))
    {
      assert names[i..][1..] == names[i + 1..];
      e := DefaultCheck(facts)(names[i]);
      if e.Some? {
        return;
      }
    }
    e := None;
  }

  method ValidateProjectSourceCompatibility(facts: seq<Fact>, source: Facts, fixed: Facts, direct: Facts)
      returns (e: Option<Error>)
    ensures e == Compatibility(facts, {}, source, fixed, direct)
  {
    var seen: set<Text> := {};
    for i := 0 to |facts|
      invariant Compatibility(facts, {}, source, fixed, direct) ==
                Compatibility(facts[i..], seen, source, fixed, direct)
    {
      assert facts[i..][1..] == facts[i + 1..];
      var n := facts[i].name;
      if n in seen {
        continue;
      }
      seen := seen + {n};
      e := CompatibilityError(if n in source then source[n] else facts[i], fixed, direct);
      if e.Some? {
        return;
      }
    }
    e := None;
  }

  method ValidateTransientCompatibility(facts: seq<Fact>, ix: Index) returns (e: Option<Error>)
    ensures e == TransientCompatibility(facts, ix.source, ix.fixed, ix.direct)
  {
    for i := 0 to |facts|
      invariant TransientCompatibility(facts, ix.source, ix.fixed, ix.direct) ==
                TransientCompatibility(facts[i..], ix.source, ix.fixed, ix.direct)
    {
      assert facts[i..][1..] == facts[i + 1..];
      if facts[i].name !in ix.source {
        e := CompatibilityError(facts[i], ix.fixed, ix.direct);
        if e.Some? {
          return;
        }
      }
    }
    e := None;
  }

  function NameSet(names: seq<Text>): set<Text> {
    set n | n in names
  }

  /** Resolve names in key order into a growing map. */
  method ResolveEach(base: Values, names: set<Text>, at: Text -> Result<Resolved>) returns (r: Result<Values>)
    ensures ErrorOf(r) == FirstIn(names, Errors(at))
    ensures r.Ok? ==> r.value == base + ValuesAt(names, at)
  {
    var order := SortedNames(names);
    SortedNamesCorrect(names);
    var resolved := base;
    for i := 0 to |order|
      invariant FirstError(order, Errors(at)) == FirstError(order[i..], Errors(at))
      invariant resolved == base + ValuesAt(NameSet(order[..i]), at)
    {
      assert order[i..][1..] == order[i + 1..];
      var value := at(order[i]);
      assert Errors(at)(order[i]) == ErrorOf(value);
      if value.Err? {
        return Err(value.error);
      }
      AddResolved(base, order, i, at);
      resolved := resolved[order[i] := value.value];
    }
    assert order[..|order|] == order && NameSet(order) == names;
    r := Ok(resolved);
  }

  /** The first explicit input no resolved name knows. */
  method FirstUnknown(inputs: Inputs, known: set<Text>) returns (e: Option<Error>)
    ensures e == FirstIn(inputs.Keys, UnknownCheck(inputs, known))
  {
    var names := SortedNames(inputs.Keys);
    for i := 0 to |names|
      invariant FirstError(names, UnknownCheck(inputs, known)) == FirstError(names[i..], UnknownCheck(inputs, known))
    {
      assert names[i..][1..] == names[i + 1..];
      e := UnknownCheck(inputs, known)(names[i]);
      if e.Some? {
        return;
      }
    }
    e := None;
  }

  method ResolveNames(base: Values, names: set<Text>, at: Text -> Result<Resolved>, inputs: Inputs)
      returns (r: Result<Values>)
    ensures r == SelectOver(base, names, at, inputs)
  {
    r := ResolveEach(base, names, at);
    if r.Ok? {
      var unknown := FirstUnknown(inputs, r.value.Keys);
      if unknown.Some? {
        r := Err(unknown.value);
      }
    }
  }

  lemma AddResolved(base: Values, order: seq<Text>, i: nat, at: Text -> Result<Resolved>)
    requires i < |order| && at(order[i]).Ok?
    ensures (base + ValuesAt(NameSet(order[..i]), at))[order[i] := at(order[i]).value] ==
            base + ValuesAt(NameSet(order[..i + 1]), at)
  {
    var before, after := NameSet(order[..i]), NameSet(order[..i + 1]);
    assert order[..i + 1] == order[..i] + [order[i]];
    assert after == before + {order[i]};
  }

  method ResolveBuildConfigValues(source: seq<Fact>, fixed: seq<Fact>, direct: seq<Fact>, inputs: Inputs,
                                  services: Services)
    returns (r: Result<Values>)
    ensures r == FullResolve(source, fixed, direct, inputs, services)
    ensures var l := Lanes(source, fixed, direct, inputs, services);
            if r.Ok? then Consistent(l) else !Consistent(l) && Describes(r.error, l)
  {
    ResolvesIffConsistent(Lanes(source, fixed, direct, inputs, services));
    var s := CollectSourceFacts(source);
    if s.Err? {
      return Err(s.error);
    }
    var f := CollectProjectFacts(fixed);
    if f.Err? {
      return Err(f.error);
    }
    var d := CollectProjectFacts(direct);
    if d.Err? {
      return Err(d.error);
    }
    var e := ValidateFactDefaults(s.value);
    if e.Some? {
      return Err(e.value);
    }
    e := ValidateFactDefaults(f.value);
    if e.Some? {
      return Err(e.value);
    }
    e := ValidateFactDefaults(d.value);
    if e.Some? {
      return Err(e.value);
    }
    e := ValidateProjectSourceCompatibility(source, s.value, f.value, d.value);
    if e.Some? {
      return Err(e.value);
    }
    var b := Boundary(s.value, f.value, d.value, inputs, services);
    r := ResolveNames(map[], b.Names(), b.Lookup(), inputs);
  }

  method FromValidated(values: Values, source: seq<Fact>, fixed: seq<Fact>, direct: seq<Fact>) returns (ix: Index)
    ensures ix == IndexOf(values, source, fixed, direct)
  {
    var s := FirstFactsByName(source);
    var f := FirstFactsByName(fixed);
    var d := FirstFactsByName(direct);
    ix := Index(values, s, f, d);
  }

  method ResolveWithTransientSourceFacts(ix: Index, facts: seq<Fact>, inputs: Inputs, services: Services)
      returns (r: Result<Values>)
    ensures r == IncrementalResolve(ix, facts, inputs, services)
  {
    var t := CollectTransientFacts(ix.source, facts);
    if t.Err? {
      return Err(t.error);
    }
    var e := ValidateFactDefaults(t.value);
    if e.Some? {
      return Err(e.value);
    }
    e := ValidateTransientCompatibility(facts, ix);
    if e.Some? {
      return Err(e.value);
    }
    r := ResolveNames(ix.values, Introduced(ix, t.value), IntroducedLookup(ix, t.value, inputs, services), inputs);
  }

  method FilterInputsToKnownFacts(ix: Index, inputs: Inputs, facts: seq<Fact>) returns (kept: Inputs)
    ensures kept == FilterToKnown(ix, inputs, facts)
  {
    var transientNames := FactNames(facts);
    var names := SortedNames(inputs.Keys);
    SortedNamesCorrect(inputs.Keys);
    kept := map[];
    for i := 0 to |names|
      invariant kept == KeepKnown(names[..i], inputs, ix, facts)
    {
      KeepNext(names, i, inputs, ix, facts);
      var n := names[i];
      if n in ix.source || n in ix.direct || n in transientNames {
        kept := kept[n := inputs[n]];
      }
    }
    assert names[..|names|] == names;
  }

  lemma KeepNext(names: seq<Text>, i: nat, inputs: Inputs, ix: Index, facts: seq<Fact>)
    requires i < |names| && names[i] in inputs
    ensures var before := KeepKnown(names[..i], inputs, ix, facts);
            KeepKnown(names[..i + 1], inputs, ix, facts) ==
            if Known(ix, facts, names[i]) then before[names[i] := inputs[names[i]]] else before
  {
    assert names[..i + 1] == names[..i] + [names[i]];
  }

  function FactNames(facts: seq<Fact>): (names: set<Text>)
    ensures forall n :: n in names <==> NamedIn(facts, n)
  {
    set i | 0 <= i < |facts| :: facts[i].name
  }

  ghost function KeepKnown(names: seq<Text>, inputs: Inputs, ix: Index, facts: seq<Fact>): Inputs {
    map n | n in inputs && n in names && Known(ix, facts, n) :: inputs[n]
  }
}
