/** The full boundary resolver and the incremental resolver over a validated canonical index. */
module BuildConfigResolver {
  import opened Collections
  import opened Ordering
  import opened BuildConfig

  // ----- first failure in key order

  function FirstError(names: seq<Text>, check: Text -> Option<Error>): Option<Error> {
    if names == [] then None
    else if check(names[0]).Some? then check(names[0])
    else FirstError(names[1..], check)
  }

  function FirstIn(names: set<Text>, check: Text -> Option<Error>): Option<Error> {
    FirstError(SortedNames(names), check)
  }

  lemma {:induction false} FirstErrorNone(names: seq<Text>, check: Text -> Option<Error>)
    ensures FirstError(names, check).None? <==> forall n | n in names :: check(n).None?
  {
    if names != [] {
      FirstErrorNone(names[1..], check);
      assert names == [names[0]] + names[1..];
    }
  }

  lemma FirstInNone(names: set<Text>, check: Text -> Option<Error>)
    ensures FirstIn(names, check).None? <==> forall n | n in names :: check(n).None?
  {
    FirstErrorNone(SortedNames(names), check);
    SortedNamesCorrect(names);
  }

  /** Names that cannot fail do not change which failure is first. */
  lemma {:induction false} FirstInSubset(all: set<Text>, some: set<Text>, f: Text -> Option<Error>,
                                         h: Text -> Option<Error>)
    requires some <= all && (forall n | n in some :: f(n) == h(n)) && (forall n | n in all && n !in some :: f(n).None?)
    ensures FirstIn(all, f) == FirstIn(some, h)
    decreases all
  {
    if all != {} {
      var names := SortedNames(all);
      var m := names[0];
      assert IsFirst(all, m) && names[1..] == SortedNames(all - {m});
      if m in some {
        assert IsFirst(some, m);
        FirstUnique(some);
        assert SortedNames(some)[0] == m && SortedNames(some)[1..] == SortedNames(some - {m});
        FirstInSubset(all - {m}, some - {m}, f, h);
      } else {
        FirstInSubset(all - {m}, some, f, h);
      }
    }
  }

  // ----- collecting facts

  /** Deduplicate source facts in authored order; the first conflicting declaration is reported. */
  function CollectSource(seen: Facts, facts: seq<Fact>): Result<Facts>
    decreases |facts|
  {
    if facts == [] then Ok(seen)
    else
      var f := facts[0];
      if f.name !in seen then CollectSource(seen[f.name := f], facts[1..])
      else if ConflictReason(seen[f.name], f, true).Some? then
        Err(SourceContractConflict(seen[f.name], f, ConflictReason(seen[f.name], f, true).value))
      else CollectSource(seen, facts[1..])
  }

  function CollectProject(seen: Facts, facts: seq<Fact>): Result<Facts>
    decreases |facts|
  {
    if facts == [] then Ok(seen)
    else
      var f := facts[0];
      if f.name in seen then
        var reason := ConflictReason(seen[f.name], f, true);
        Err(DuplicateProjectContract(seen[f.name], f, if reason.Some? then reason.value else Default))
      else CollectProject(seen[f.name := f], facts[1..])
  }

  /** Collect only the names a transient unit introduces, comparing every fact with its first namesake. */
  function CollectTransient(canonical: Facts, seen: Facts, facts: seq<Fact>): Result<Facts>
    decreases |facts|
  {
    if facts == [] then Ok(seen)
    else
      var f := facts[0];
      var first := if f.name in canonical then Some(canonical[f.name]) else Get(seen, f.name);
      if first.Some? && ConflictReason(first.value, f, true).Some? then
        Err(SourceContractConflict(first.value, f, ConflictReason(first.value, f, true).value))
      else CollectTransient(canonical, if first.None? then seen[f.name := f] else seen, facts[1..])
  }

  /** Keep the first fact of each name, without validation. */
  function FirstFacts(seen: Facts, facts: seq<Fact>): Facts
    decreases |facts|
  {
    if facts == [] then seen
    else FirstFacts(if facts[0].name in seen then seen else seen[facts[0].name := facts[0]], facts[1..])
  }

  // ----- checks

  function DefaultCheck(m: Facts): Text -> Option<Error> {
    n => if n in m then DefaultError(m[n]) else None
  }

  /** Project/source conflicts in collected source order, once per name. */
  function Compatibility(facts: seq<Fact>, seen: set<Text>, source: Facts, fixed: Facts, direct: Facts): Option<Error>
    decreases |facts|
  {
    if facts == [] then None
    else
      var n := facts[0].name;
      if n in seen then Compatibility(facts[1..], seen, source, fixed, direct)
      else
        var e := CompatibilityError(if n in source then source[n] else facts[0], fixed, direct);
        if e.Some? then e else Compatibility(facts[1..], seen + {n}, source, fixed, direct)
  }

  function TransientCompatibility(facts: seq<Fact>, canonical: Facts, fixed: Facts, direct: Facts): Option<Error>
    decreases |facts|
  {
    if facts == [] then None
    else
      var e := if facts[0].name in canonical then None else CompatibilityError(facts[0], fixed, direct);
      if e.Some? then e else TransientCompatibility(facts[1..], canonical, fixed, direct)
  }

  // ----- selecting one value

  function FromContract(services: Services, contract: Fact, value: Option<Value>, origin: Origin,
                        location: Option<Location>): Resolved {
    Resolved(contract.name, contract.contract, contract.required, contract.default_, value, origin,
             services.fingerprint(contract.name, contract.contract, value), contract.span, location)
  }

  function FromProvider(contract: Fact, provider: Provider): Resolved {
    Resolved(contract.name, contract.contract, contract.required, contract.default_, provider.value, provider.origin,
             provider.fingerprint, contract.span, provider.location)
  }

  function SpanLocation(span: Option<Span>): Option<Location> {
    match span case None => None case Some(s) => Some(Source(s))
  }

  function FixedResolved(services: Services, source: Fact, fixed: Fact): Resolved {
    FromContract(services, source, fixed.default_, FixedProjectField, SpanLocation(fixed.span))
  }

  /** A source-only contract: explicit input, then builder global, then default, then permitted absence. */
  function ResolveSource(contract: Fact, input: Option<Input>, global: Option<Value>,
                         services: Services): Result<Resolved> {
    if input.Some? then
      match MaterialiseFor(input.value.value, contract.contract)
      case Accept(v) => Ok(FromContract(services, contract, Some(v), ExplicitInput, Some(input.value.location)))
      case Refuse(refusal) => Err(Failure(refusal, contract, Some(input.value.location)))
    else if global.Some? then
      match AcceptFor(global.value, contract.contract)
      case Accept(v) => Ok(FromContract(services, contract, Some(v), BuilderGlobal, None))
      case Refuse(refusal) => Err(Failure(refusal, contract, None))
    else if contract.default_.Some? then
      Ok(FromContract(services, contract, contract.default_, DeclarationDefault, SpanLocation(contract.span)))
    else if contract.required then Err(MissingRequiredValue(contract))
    else Ok(FromContract(services, contract, None, DeclarationDefault, None))
  }

  function ResolveOne(n: Text, fixed: Option<Fact>, direct: Option<Fact>, source: Option<Fact>,
                      input: Option<Input>, services: Services): Result<Resolved> {
    if fixed.Some? && source.Some? then Ok(FixedResolved(services, source.value, fixed.value))
    else if direct.Some? then
      (if direct.value.provider.Some? then Ok(FromProvider(direct.value, direct.value.provider.value))
       else Err(DirectProjectProviderMissing(direct.value)))
    else if source.Some? then ResolveSource(source.value, input, Get(services.globals, n), services)
    else Err(MissingRequiredValue(Fact(n, Plain(StringType), true, None, None, None)))
  }

  datatype Boundary = Boundary(source: Facts, fixed: Facts, direct: Facts, inputs: Inputs, services: Services) {
    function Names(): set<Text> { source.Keys + direct.Keys }

    /** A fixed field is consulted only when a source contract has the same name. */
    function At(n: Text): Result<Resolved> {
      var fixedField := if n in source then Get(fixed, n) else None;
      ResolveOne(n, fixedField, Get(direct, n), Get(source, n), Get(inputs, n), services)
    }

    function Lookup(): Text -> Result<Resolved> {
      n => At(n)
    }
  }

  function ErrorOf<T>(r: Result<T>): Option<Error> {
    match r case Ok(_) => None case Err(e) => Some(e)
  }

  function Errors(at: Text -> Result<Resolved>): Text -> Option<Error> {
    n => ErrorOf(at(n))
  }

  function ValuesAt(names: set<Text>, at: Text -> Result<Resolved>): Values {
    map n | n in names && at(n).Ok? :: at(n).value
  }

  function UnknownCheck(inputs: Inputs, known: set<Text>): Text -> Option<Error> {
    n => if n in inputs && n !in known then Some(UnknownExplicitInput(inputs[n])) else None
  }

  // ----- the two resolvers

  /** Validation and selection once every lane is collected. */
  function Settle(facts: seq<Fact>, b: Boundary): Result<Values> {
    var defaults := FirstIn(b.source.Keys, DefaultCheck(b.source));
    if defaults.Some? then Err(defaults.value)
    else
      var fixedDefaults := FirstIn(b.fixed.Keys, DefaultCheck(b.fixed));
      if fixedDefaults.Some? then Err(fixedDefaults.value)
      else
        var directDefaults := FirstIn(b.direct.Keys, DefaultCheck(b.direct));
        if directDefaults.Some? then Err(directDefaults.value)
        else
          var conflict := Compatibility(facts, {}, b.source, b.fixed, b.direct);
          if conflict.Some? then Err(conflict.value) else Select(b)
  }

  /** Resolve `names` in key order on top of `base`, then reject inputs that no resolved name knows. */
  function SelectOver(base: Values, names: set<Text>, at: Text -> Result<Resolved>, inputs: Inputs): Result<Values> {
    var failure := FirstIn(names, Errors(at));
    if failure.Some? then Err(failure.value)
    else
      var resolved := base + ValuesAt(names, at);
      var unknown := FirstIn(inputs.Keys, UnknownCheck(inputs, resolved.Keys));
      if unknown.Some? then Err(unknown.value) else Ok(resolved)
  }

  function Select(b: Boundary): Result<Values> {
    SelectOver(map[], b.Names(), b.Lookup(), b.inputs)
  }

  function FullResolve(source: seq<Fact>, fixed: seq<Fact>, direct: seq<Fact>, inputs: Inputs,
                       services: Services): Result<Values> {
    match CollectSource(map[], source)
    case Err(e) => Err(e)
    case Ok(s) =>
      match CollectProject(map[], fixed)
      case Err(e) => Err(e)
      case Ok(f) =>
        match CollectProject(map[], direct)
        case Err(e) => Err(e)
        case Ok(d) => Settle(source, Boundary(s, f, d, inputs, services))
  }

  /** A validated canonical boundary, borrowed by every transient unit. */
  datatype Index = Index(values: Values, source: Facts, fixed: Facts, direct: Facts)

  function IndexOf(values: Values, source: seq<Fact>, fixed: seq<Fact>, direct: seq<Fact>): Index {
    Index(values, FirstFacts(map[], source), FirstFacts(map[], fixed), FirstFacts(map[], direct))
  }

  /** Names only the transient unit introduces; canonical and declaration-owned names keep their values. */
  function Introduced(ix: Index, transient: Facts): set<Text> {
    set n | n in transient && n !in ix.source && n !in ix.direct
  }

  function IntroducedAt(ix: Index, transient: Facts, inputs: Inputs, services: Services, n: Text): Result<Resolved> {
    ResolveOne(n, Get(ix.fixed, n), None, Get(transient, n), Get(inputs, n), services)
  }

  function IntroducedLookup(ix: Index, transient: Facts, inputs: Inputs, services: Services): Text -> Result<Resolved> {
    n => IntroducedAt(ix, transient, inputs, services, n)
  }

  function IncrementalResolve(ix: Index, facts: seq<Fact>, inputs: Inputs, services: Services): Result<Values> {
    match CollectTransient(ix.source, map[], facts)
    case Err(e) => Err(e)
    case Ok(t) =>
      var defaults := FirstIn(t.Keys, DefaultCheck(t));
      if defaults.Some? then Err(defaults.value)
      else
        var conflict := TransientCompatibility(facts, ix.source, ix.fixed, ix.direct);
        if conflict.Some? then Err(conflict.value) else SelectIntroduced(ix, t, inputs, services)
  }

  function SelectIntroduced(ix: Index, t: Facts, inputs: Inputs, services: Services): Result<Values> {
    SelectOver(ix.values, Introduced(ix, t), IntroducedLookup(ix, t, inputs, services), inputs)
  }
}
