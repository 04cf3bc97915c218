/** When build-config resolution succeeds, and what its errors mean, told on the raw facts. */
module BuildConfigSuccess {
  import opened Collections
  import opened Ordering
  import opened BuildConfig
  import opened BuildConfigResolver
  import opened BuildConfigEquivalence
  import opened BuildConfigProperties

  /** Everything one boundary is resolved from. */
  datatype Lanes = Lanes(source: seq<Fact>, fixed: seq<Fact>, direct: seq<Fact>, inputs: Inputs, services: Services)

  // ----- what consistent facts are

  ghost predicate NamesakesAgree(source: seq<Fact>) {
    forall f, g | f in source && g in source && f.name == g.name ::
      f.contract == g.contract && f.required == g.required && f.default_ == g.default_
  }

  ghost predicate NamesDistinct(facts: seq<Fact>) {
    forall i, j | 0 <= i < j < |facts| :: facts[i].name != facts[j].name
  }

  ghost predicate DefaultsTyped(facts: seq<Fact>) {
    forall f | f in facts && f.default_.Some? :: HasType(f.default_.value, f.contract.primitive)
  }

  ghost predicate AllDefaultsTyped(l: Lanes) {
    DefaultsTyped(l.source) && DefaultsTyped(l.fixed) && DefaultsTyped(l.direct)
  }

  /** Project lanes describe the inputs their source namesakes describe; a fixed field only shares the type. */
  ghost predicate LanesAgree(l: Lanes) {
    && (forall f, s | f in l.fixed && s in l.source && f.name == s.name :: f.contract == s.contract)
    && (forall d, s | d in l.direct && s in l.source && d.name == s.name ::
          d.contract == s.contract && d.required == s.required && d.default_ == s.default_)
  }

  /** A declaration-owned contract has its value already, unless a fixed field takes the name over. */
  ghost predicate DirectProvided(l: Lanes) {
    forall d | d in l.direct && d.provider.None? :: NamedIn(l.source, d.name) && NamedIn(l.fixed, d.name)
  }

  ghost predicate SourceOnly(l: Lanes, f: Fact) {
    f in l.source && !NamedIn(l.fixed, f.name) && !NamedIn(l.direct, f.name)
  }

  /** A source-only contract gets a fitting input, or else a fitting global, or else a default, or may stay absent. */
  ghost predicate Supplied(l: Lanes, f: Fact) {
    if f.name in l.inputs then exists v :: Becomes(l.inputs[f.name].value, f.contract.primitive, v)
    else if f.name in l.services.globals then HasType(l.services.globals[f.name], f.contract.primitive)
    else f.default_.Some? || !f.required
  }

  ghost predicate InputsKnown(l: Lanes) {
    forall n | n in l.inputs :: NamedIn(l.source, n) || NamedIn(l.direct, n)
  }

  /** Every contract has a value it may have. */
  ghost predicate AllSupplied(l: Lanes) {
    DirectProvided(l) && forall f | SourceOnly(l, f) :: Supplied(l, f)
  }

  ghost predicate Consistent(l: Lanes) {
    && NamesakesAgree(l.source) && NamesDistinct(l.fixed) && NamesDistinct(l.direct)
    && AllDefaultsTyped(l) && LanesAgree(l) && AllSupplied(l) && InputsKnown(l)
  }

  // ----- what an error claims

  ghost predicate Repeats(facts: seq<Fact>, first: Fact, second: Fact) {
    exists i, j :: 0 <= i < j < |facts| && facts[i] == first && facts[j] == second && first.name == second.name
  }

  /** The error describes a defect the facts really have. */
  ghost predicate Describes(e: Error, l: Lanes) {
    match e
    case SourceContractConflict(first, second, reason) =>
      Repeats(l.source, first, second) && Differ(first, second, reason)
    case DuplicateProjectContract(first, second, reason) =>
      (Repeats(l.fixed, first, second) || Repeats(l.direct, first, second)) &&
      (Differ(first, second, reason) || (SameContract(first, second) && reason == Default))
    case ProjectSourceContractConflict(project, source, reason) =>
      project in l.direct && source in l.source && project.name == source.name && Differ(project, source, reason) &&
      forall f | f in l.fixed && f.name == source.name :: f.contract == source.contract
    case FixedProjectSourceTypeMismatch(fixed, source, reason) =>
      fixed in l.fixed && source in l.source && fixed.name == source.name && Differ(fixed, source, reason) &&
      fixed.contract != source.contract
    case DefaultTypeMismatch(contract, provided) =>
      (contract in l.source || contract in l.fixed || contract in l.direct) && contract.default_.Some? &&
      HasType(contract.default_.value, provided) && provided != contract.contract.primitive
    case ValueTypeMismatch(contract, provided, location) =>
      SourceOnly(l, contract) && Misfit(l, contract, TypeMismatch(provided), location)
    case NumericLiteralOutOfRange(contract, text, location) =>
      SourceOnly(l, contract) && Misfit(l, contract, LiteralOutOfRange(text), location)
    case MissingRequiredValue(contract) =>
      SourceOnly(l, contract) && contract.name !in l.inputs && contract.name !in l.services.globals &&
      contract.default_.None? && contract.required
    case DirectProjectProviderMissing(contract) =>
      contract in l.direct && contract.provider.None? &&
      !(NamedIn(l.source, contract.name) && NamedIn(l.fixed, contract.name))
    case UnknownExplicitInput(input) =>
      exists n :: n in l.inputs && l.inputs[n] == input && !NamedIn(l.source, n) && !NamedIn(l.direct, n)
  }

  /** The value that reaches the contract, an input before a global, is refused for that reason. */
  ghost predicate Misfit(l: Lanes, f: Fact, refusal: Refusal, location: Option<Location>) {
    if f.name in l.inputs then
      location == Some(l.inputs[f.name].location) &&
      RefusedFor(l.inputs[f.name].value, f.contract.primitive, refusal) &&
      forall v :: !Becomes(l.inputs[f.name].value, f.contract.primitive, v)
    else
      f.name in l.services.globals && location == None &&
      RefusedFor(Typed(l.services.globals[f.name]), f.contract.primitive, refusal)
  }

  /** Either nothing is wrong and `good` holds, or the error describes a defect. */
  ghost predicate Judged(e: Option<Error>, good: bool, l: Lanes) {
    (e.None? && good) || (e.Some? && Describes(e.value, l))
  }

  lemma DescribedIsInconsistent(e: Error, l: Lanes)
    ensures Describes(e, l) ==> !Consistent(l)
  {
    if Describes(e, l) && e.DefaultTypeMismatch? {
      assert !HasType(e.contract.default_.value, e.contract.contract.primitive);
    }
  }

  // ----- collecting

  /** The map holds a first fact for every name listed, and every listed fact shares its contract. */
  ghost predicate Represents(m: Facts, facts: seq<Fact>) {
    m in Representing(facts)
  }

  ghost function Representing(facts: seq<Fact>): iset<Facts> {
    iset m: Facts | Keyed(m) && (forall n | n in m :: m[n] in facts) &&
                    forall f | f in facts :: f.name in m && SameContract(m[f.name], f)
  }

  lemma NamedKeys(m: Facts, facts: seq<Fact>)
    requires Represents(m, facts)
    ensures forall n :: n in m <==> NamedIn(facts, n)
  {
    forall n | NamedIn(facts, n) ensures n in m {
      var i :| 0 <= i < |facts| && facts[i].name == n;
      assert facts[i] in facts;
    }
  }

  lemma SourceRepresents(source: seq<Fact>, m: Facts)
    requires CollectSource(map[], source) == Ok(m)
    ensures Represents(m, source) && NamesakesAgree(source)
  {
    CollectsIffCoherent(map[], source);
    CollectKeys(map[], source);
    forall f | f in source ensures f.name in m && SameContract(m[f.name], f) {
      var i :| 0 <= i < |source| && source[i] == f;
      assert NamedIn(source, f.name);
      assert m[f.name] in source;
    }
  }

  lemma {:induction false} ProjectDistinct(seen: Facts, facts: seq<Fact>)
    requires CollectProject(seen, facts).Ok?
    ensures NamesDistinct(facts) && forall f | f in facts :: f.name !in seen
    decreases |facts|
  {
    if facts != [] {
      ProjectDistinct(seen[facts[0].name := facts[0]], facts[1..]);
      forall j | 0 < j < |facts| ensures facts[0].name != facts[j].name {
        assert facts[j] in facts[1..];
      }
      assert facts == [facts[0]] + facts[1..];
    }
  }

  lemma ProjectRepresents(facts: seq<Fact>, m: Facts)
    requires CollectProject(map[], facts) == Ok(m)
    ensures Represents(m, facts) && NamesDistinct(facts) && forall f | f in facts :: m[f.name] == f
  {
    ProjectDistinct(map[], facts);
    ProjectKeys(map[], facts);
    ProjectFacts(map[], facts);
    forall f | f in facts ensures f.name in m && m[f.name] == f {
      var i :| 0 <= i < |facts| && facts[i] == f;
      assert NamedIn(facts, f.name);
      var j :| 0 <= j < |facts| && facts[j] == m[f.name];
      assert facts[j].name == f.name;
    }
  }

  /** Every collected fact comes from the facts already read. */
  ghost predicate Read(seen: Facts, done: seq<Fact>) {
    Keyed(seen) && forall n | n in seen :: seen[n] in done
  }

  lemma RepeatsHere(done: seq<Fact>, first: Fact, second: Fact, rest: seq<Fact>)
    requires first in done && first.name == second.name
    ensures Repeats(done + [second] + rest, first, second)
  {
    var i :| 0 <= i < |done| && done[i] == first;
    var all := done + [second] + rest;
    assert all[i] == first && all[|done|] == second;
  }

  lemma {:induction false} SourceConflictIsReal(seen: Facts, done: seq<Fact>, facts: seq<Fact>, l: Lanes)
    requires Read(seen, done) && l.source == done + facts
    ensures Judged(ErrorOf(CollectSource(seen, facts)), true, l)
    decreases |facts|
  {
    if facts == [] {
      return;
    }
    var f := facts[0];
    assert done + facts == done + [f] + facts[1..];
    if f.name in seen && ConflictReason(seen[f.name], f, true).Some? {
      ConflictIsDifference(seen[f.name], f);
      RepeatsHere(done, seen[f.name], f, facts[1..]);
    } else {
      SourceConflictIsReal(if f.name in seen then seen else seen[f.name := f], done + [f], facts[1..], l);
    }
  }

  lemma {:induction false} ProjectConflictIsReal(seen: Facts, done: seq<Fact>, facts: seq<Fact>, l: Lanes)
    requires Read(seen, done) && (l.fixed == done + facts || l.direct == done + facts)
    ensures Judged(ErrorOf(CollectProject(seen, facts)), true, l)
    decreases |facts|
  {
    if facts == [] {
      return;
    }
    var f := facts[0];
    assert done + facts == done + [f] + facts[1..];
    if f.name in seen {
      ConflictIsDifference(seen[f.name], f);
      RepeatsHere(done, seen[f.name], f, facts[1..]);
    } else {
      ProjectConflictIsReal(seen[f.name := f], done + [f], facts[1..], l);
    }
  }

  // ----- checks

  /** The failure is that of position `i`, and no earlier one fails. */
  ghost predicate FailsFirstAt(names: seq<Text>, check: Text -> Option<Error>, failure: Option<Error>, i: nat) {
    i < |names| && check(names[i]) == failure && forall j | 0 <= j < i :: check(names[j]).None?
  }

  lemma {:induction false} FirstErrorIsSome(names: seq<Text>, check: Text -> Option<Error>)
    ensures FirstError(names, check).None? || exists i: nat :: FailsFirstAt(names, check, FirstError(names, check), i)
  {
    if names != [] {
      if check(names[0]).Some? {
        assert FailsFirstAt(names, check, check(names[0]), 0);
      } else {
        FirstErrorIsSome(names[1..], check);
        if i: nat :| FailsFirstAt(names[1..], check, FirstError(names, check), i) {
          assert FailsFirstAt(names, check, FirstError(names, check), i + 1);
        }
      }
    }
  }

  ghost predicate LeastFailure(names: set<Text>, check: Text -> Option<Error>, failure: Option<Error>, n: Text) {
    n in names && check(n) == failure && forall m | m in names && LexLeq(m, n) && m != n :: check(m).None?
  }

  /** The reported failure is that of the least failing name. */
  lemma FirstInIsSome(names: set<Text>, check: Text -> Option<Error>)
    ensures FirstIn(names, check).None? || exists n :: LeastFailure(names, check, FirstIn(names, check), n)
  {
    var list := SortedNames(names);
    SortedNamesCorrect(names);
    FirstErrorIsSome(list, check);
    if i: nat :| FailsFirstAt(list, check, FirstIn(names, check), i) {
      forall m | m in names && LexLeq(m, list[i]) && m != list[i] ensures check(m).None? {
        var j :| 0 <= j < |list| && list[j] == m;
        if i < j {
          LexAntisym(m, list[i]);
        }
      }
      assert LeastFailure(names, check, FirstIn(names, check), list[i]);
    }
  }

  lemma DefaultsChecked(m: Facts, facts: seq<Fact>, l: Lanes)
    requires Represents(m, facts) && (facts == l.source || facts == l.fixed || facts == l.direct)
    ensures Judged(FirstIn(m.Keys, DefaultCheck(m)), DefaultsTyped(facts), l)
  {
    if FirstIn(m.Keys, DefaultCheck(m)).None? {
      FirstInNone(m.Keys, DefaultCheck(m));
      forall f | f in facts && f.default_.Some? ensures HasType(f.default_.value, f.contract.primitive) {
        assert DefaultCheck(m)(f.name).None?;
      }
    } else {
      FirstInIsSome(m.Keys, DefaultCheck(m));
      var n :| LeastFailure(m.Keys, DefaultCheck(m), FirstIn(m.Keys, DefaultCheck(m)), n);
      assert m[n] in facts;
    }
  }

  /** The three lanes of a boundary are the collected facts. */
  ghost predicate Collected(l: Lanes, b: Boundary) {
    && Represents(b.source, l.source) && Represents(b.fixed, l.fixed) && Represents(b.direct, l.direct)
    && (forall f | f in l.fixed :: b.fixed[f.name] == f) && (forall f | f in l.direct :: b.direct[f.name] == f)
    && b.inputs == l.inputs && b.services == l.services
  }

  lemma CompatibleFacts(source: Fact, fixed: Facts, direct: Facts)
    ensures CompatibilityError(source, fixed, direct).None? <==>
            && (source.name in fixed ==> fixed[source.name].contract == source.contract)
            && (source.name in direct ==> SameContract(direct[source.name], source))
  {
    if source.name in fixed {
      ConflictIsDifference(fixed[source.name], source);
    }
    if source.name in direct {
      ConflictIsDifference(direct[source.name], source);
    }
  }

  lemma LanesChecked(l: Lanes, b: Boundary)
    requires Collected(l, b) && Compatibility(l.source, {}, b.source, b.fixed, b.direct).None?
    ensures LanesAgree(l)
  {
    NamedKeys(b.source, l.source);
    CompatibleEverywhere(l.source, {}, b.source, b.fixed, b.direct);
    forall s | s in l.source
      ensures s.name in b.fixed ==> b.fixed[s.name].contract == s.contract
      ensures s.name in b.direct ==> SameContract(b.direct[s.name], s)
    {
      assert NamedIn(l.source, s.name);
      CompatibleFacts(b.source[s.name], b.fixed, b.direct);
    }
  }

  lemma {:induction false} LaneConflictIsReal(facts: seq<Fact>, seen: set<Text>, l: Lanes, b: Boundary)
    requires Collected(l, b) && (forall f | f in facts :: f in l.source)
    ensures Judged(Compatibility(facts, seen, b.source, b.fixed, b.direct), true, l)
    decreases |facts|
  {
    if facts == [] {
      return;
    }
    var n := facts[0].name;
    assert facts[0] in l.source;
    var s := b.source[n];
    if n !in seen && CompatibilityError(s, b.fixed, b.direct).Some? {
      ConflictDescribed(s, l, b);
    } else {
      LaneConflictIsReal(facts[1..], if n in seen then seen else seen + {n}, l, b);
    }
  }

  lemma ConflictDescribed(s: Fact, l: Lanes, b: Boundary)
    requires Collected(l, b) && s in l.source
    ensures Judged(CompatibilityError(s, b.fixed, b.direct), true, l)
  {
    if s.name in b.fixed {
      ConflictIsDifference(b.fixed[s.name], s);
    }
    if s.name in b.direct {
      ConflictIsDifference(b.direct[s.name], s);
    }
  }

  // ----- selection

  /** What one name needs. */
  ghost predicate NameServed(l: Lanes, b: Boundary, n: Text)
    requires n in b.Names()
  {
    if n in b.source && n in b.fixed then true
    else if n in b.direct then b.direct[n].provider.Some?
    else Supplied(l, b.source[n])
  }

  lemma SourceServed(l: Lanes, f: Fact)
    ensures var r := ResolveSource(f, Get(l.inputs, f.name), Get(l.services.globals, f.name), l.services);
            SourceOnly(l, f) ==> Judged(ErrorOf(r), Supplied(l, f), l)
  {
  }

  lemma SourceOnlyResolves(l: Lanes, b: Boundary, n: Text)
    requires Collected(l, b) && n in b.source && n !in b.direct && n !in b.fixed
    ensures Judged(ErrorOf(b.At(n)), Supplied(l, b.source[n]), l)
  {
    NamedKeys(b.fixed, l.fixed);
    NamedKeys(b.direct, l.direct);
    assert SourceOnly(l, b.source[n]);
    SourceServed(l, b.source[n]);
  }

  lemma ProviderMissing(l: Lanes, b: Boundary, n: Text)
    requires Collected(l, b) && n in b.direct && !(n in b.source && n in b.fixed) && b.direct[n].provider.None?
    ensures Describes(DirectProjectProviderMissing(b.direct[n]), l)
  {
    NamedKeys(b.source, l.source);
    NamedKeys(b.fixed, l.fixed);
  }

  lemma NameResolves(l: Lanes, b: Boundary, n: Text)
    requires Collected(l, b) && n in b.Names()
    ensures Judged(ErrorOf(b.At(n)), NameServed(l, b, n), l)
  {
    if n in b.source && n in b.fixed {
    } else if n !in b.direct {
      SourceOnlyResolves(l, b, n);
    } else if b.direct[n].provider.None? {
      ProviderMissing(l, b, n);
    }
  }

  lemma AllServed(l: Lanes, b: Boundary)
    requires Collected(l, b) && forall n | n in b.Names() :: NameServed(l, b, n)
    ensures AllSupplied(l)
  {
    NamedKeys(b.source, l.source);
    NamedKeys(b.fixed, l.fixed);
    NamedKeys(b.direct, l.direct);
    forall d | d in l.direct && d.provider.None? ensures NamedIn(l.source, d.name) && NamedIn(l.fixed, d.name) {
      assert d.name in b.Names();
    }
    forall f | SourceOnly(l, f) ensures Supplied(l, f) {
      assert f.name in b.Names() && NameServed(l, b, f.name);
    }
  }

  lemma NamesChecked(l: Lanes, b: Boundary)
    requires Collected(l, b)
    ensures Judged(FirstIn(b.Names(), Errors(b.Lookup())), AllSupplied(l), l)
  {
    if FirstIn(b.Names(), Errors(b.Lookup())).Some? {
      FirstInIsSome(b.Names(), Errors(b.Lookup()));
      var n :| LeastFailure(b.Names(), Errors(b.Lookup()), FirstIn(b.Names(), Errors(b.Lookup())), n);
      NameResolves(l, b, n);
    } else {
      FirstInNone(b.Names(), Errors(b.Lookup()));
      forall n | n in b.Names() ensures NameServed(l, b, n) {
        assert Errors(b.Lookup())(n).None?;
        NameResolves(l, b, n);
      }
      AllServed(l, b);
    }
  }

  lemma InputsChecked(l: Lanes, b: Boundary)
    requires Collected(l, b)
    ensures Judged(FirstIn(b.inputs.Keys, UnknownCheck(b.inputs, b.Names())), InputsKnown(l), l)
  {
    NamedKeys(b.source, l.source);
    NamedKeys(b.direct, l.direct);
    var check := UnknownCheck(b.inputs, b.Names());
    if FirstIn(b.inputs.Keys, check).Some? {
      FirstInIsSome(b.inputs.Keys, check);
      var n :| LeastFailure(b.inputs.Keys, check, FirstIn(b.inputs.Keys, check), n);
      assert Describes(UnknownExplicitInput(l.inputs[n]), l);
    } else {
      FirstInNone(b.inputs.Keys, check);
      forall n | n in l.inputs ensures NamedIn(l.source, n) || NamedIn(l.direct, n) {
        assert check(n).None?;
      }
    }
  }

  lemma SelectionDecides(l: Lanes, b: Boundary)
    requires Collected(l, b)
    ensures Judged(ErrorOf(Select(b)), AllSupplied(l) && InputsKnown(l), l)
  {
    var none: Values := map[];
    SelectOverError(none, b.Names(), b.Lookup(), b.inputs);
    assert none.Keys + b.Names() == b.Names();
    NamesChecked(l, b);
    InputsChecked(l, b);
  }

  /** The first of two failures, in that order. */
  ghost function OrElse(first: Option<Error>, second: Option<Error>): Option<Error> {
    if first.Some? then first else second
  }

  lemma AllDefaultsChecked(l: Lanes, b: Boundary)
    requires Collected(l, b)
    ensures Judged(OrElse(FirstIn(b.source.Keys, DefaultCheck(b.source)),
                          OrElse(FirstIn(b.fixed.Keys, DefaultCheck(b.fixed)),
                                 FirstIn(b.direct.Keys, DefaultCheck(b.direct)))), AllDefaultsTyped(l), l)
  {
    DefaultsChecked(b.source, l.source, l);
    DefaultsChecked(b.fixed, l.fixed, l);
    DefaultsChecked(b.direct, l.direct, l);
  }

  lemma LanesDecide(l: Lanes, b: Boundary)
    requires Collected(l, b)
    ensures Judged(Compatibility(l.source, {}, b.source, b.fixed, b.direct), LanesAgree(l), l)
  {
    LaneConflictIsReal(l.source, {}, l, b);
    if Compatibility(l.source, {}, b.source, b.fixed, b.direct).None? {
      LanesChecked(l, b);
    }
  }

  lemma SettlingDecides(l: Lanes, b: Boundary)
    requires Collected(l, b)
    ensures Judged(ErrorOf(Settle(l.source, b)),
                   AllDefaultsTyped(l) && LanesAgree(l) && AllSupplied(l) && InputsKnown(l), l)
  {
    AllDefaultsChecked(l, b);
    LanesDecide(l, b);
    SelectionDecides(l, b);
  }

  // ----- the whole resolution

  ghost function Resolve(l: Lanes): Result<Values> {
    FullResolve(l.source, l.fixed, l.direct, l.inputs, l.services)
  }

  /** Resolution succeeds exactly on consistent facts, and every error describes a defect the facts really have. */
  lemma ResolvesIffConsistent(l: Lanes)
    ensures Resolve(l).Ok? <==> Consistent(l)
    ensures Resolve(l).Ok? || Describes(Resolve(l).error, l)
  {
    var source, fixed, direct :=
      CollectSource(map[], l.source), CollectProject(map[], l.fixed), CollectProject(map[], l.direct);
    SourceConflictIsReal(map[], [], l.source, l);
    ProjectConflictIsReal(map[], [], l.fixed, l);
    ProjectConflictIsReal(map[], [], l.direct, l);
    if source.Ok? && fixed.Ok? && direct.Ok? {
      SourceRepresents(l.source, source.value);
      ProjectRepresents(l.fixed, fixed.value);
      ProjectRepresents(l.direct, direct.value);
      SettlingDecides(l, Boundary(source.value, fixed.value, direct.value, l.inputs, l.services));
    }
    if Resolve(l).Err? {
      DescribedIsInconsistent(Resolve(l).error, l);
    }
  }

  /** The incremental path succeeds on exactly the same facts, and its errors mean the same. */
  lemma IncrementalIffConsistent(l: Lanes, transient: seq<Fact>, canonicalInputs: Inputs, values: Values)
    requires Canonical(l.source, l.fixed, l.direct, canonicalInputs, l.services, values)
    requires InputsAgree(l.source, canonicalInputs, l.inputs)
    ensures var all := l.(source := l.source + transient);
            var r := IncrementalResolve(IndexOf(values, l.source, l.fixed, l.direct), transient, l.inputs, l.services);
            (r.Ok? <==> Consistent(all)) && (r.Ok? || Describes(r.error, all))
  {
    IncrementalMatchesFull(l.source, transient, l.fixed, l.direct, canonicalInputs, l.inputs, l.services, values);
    ResolvesIffConsistent(l.(source := l.source + transient));
  }

  // ----- the doubly claimed name

  const CLAIMED: Fact := Fact([0x61], Plain(BoolType), false, None, None, None)
  const FIXED_CLAIM: Fact := CLAIMED.(default_ := Some(BoolValue(true)))
  const DIRECT_CLAIM: Fact := CLAIMED.(provider := Some(Provider(Some(BoolValue(false)), DeclarationDefault, 0, None)))

  lemma ClaimsResolve(source: seq<Fact>, services: Services)
    requires source == [] || source == [CLAIMED]
    ensures FullResolve(source, [FIXED_CLAIM], [DIRECT_CLAIM], map[], services).Ok?
  {
    var l := Lanes(source, [FIXED_CLAIM], [DIRECT_CLAIM], map[], services);
    assert l.fixed[0].name == l.direct[0].name == CLAIMED.name;
    assert NamedIn(l.fixed, CLAIMED.name) && NamedIn(l.direct, CLAIMED.name);
    ResolvesIffConsistent(l);
  }

  /** A name that is fixed, declaration-owned and newly declared by the transient unit resolves differently. */
  lemma {:induction false} DoubleClaimDiffers(services: Services)
    ensures exists values, full, inc ::
              && Canonical([], [FIXED_CLAIM], [DIRECT_CLAIM], map[], services, values)
              && FullResolve([CLAIMED], [FIXED_CLAIM], [DIRECT_CLAIM], map[], services) == Ok(full)
              && IncrementalResolve(IndexOf(values, [], [FIXED_CLAIM], [DIRECT_CLAIM]), [CLAIMED], map[], services) ==
                 Ok(inc) && full != inc
  {
    ClaimsResolve([], services);
    ClaimsResolve([CLAIMED], services);
    var values := FullResolve([], [FIXED_CLAIM], [DIRECT_CLAIM], map[], services).value;
    var n := CLAIMED.name;
    assert [CLAIMED][0].name == n && [FIXED_CLAIM][0].name == n && [DIRECT_CLAIM][0].name == n;
    assert DoublyClaimed([], [CLAIMED], [FIXED_CLAIM], [DIRECT_CLAIM]) by {
      assert NamedIn([CLAIMED], n) && NamedIn([FIXED_CLAIM], n) && NamedIn([DIRECT_CLAIM], n) && !NamedIn([], n);
    }
    IncrementalMatchesFull([], [CLAIMED], [FIXED_CLAIM], [DIRECT_CLAIM], map[], map[], services, values);
    assert [] + [CLAIMED] == [CLAIMED];
    var inc := IncrementalResolve(IndexOf(values, [], [FIXED_CLAIM], [DIRECT_CLAIM]), [CLAIMED], map[], services);
    assert inc.Ok? && inc == Ok(inc.value);
  }
}
