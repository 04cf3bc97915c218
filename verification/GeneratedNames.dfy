/** Execution owners per boundary, and generated symbol names that no registration order can change. */
module GeneratedNames {
  import opened Collections
  import opened Ordering
  import opened LinkFacts
  import opened ProjectReachability

  // ----- execution owner maps

  /** One executable identity found while viewing the compiled modules in order. */
  datatype Entry = Entry(m: ModuleRef, id: Identity, f: FunctionId)

  datatype Boundary = ProjectBoundary | PackageBoundary(package: PackageId)

  function BoundaryOf(m: ModuleRef): Boundary {
    match m
    case Project(_) => ProjectBoundary
    case GeneratedProject(_) => ProjectBoundary
    case SourcePackage(package, _) => PackageBoundary(package)
    case GeneratedSourcePackage(package, _) => PackageBoundary(package)
  }

  predicate IsSidecar(m: ModuleRef) {
    m.GeneratedProject? || m.GeneratedSourcePackage?
  }

  /** Two entries claim the same owner slot; generated slots are per boundary. */
  predicate Clash(a: Entry, b: Entry) {
    a.id == b.id && (a.id.Generated? ==> BoundaryOf(a.m) == BoundaryOf(b.m))
  }

  ghost predicate WellOwned(entries: seq<Entry>) {
    && (forall i | 0 <= i < |entries| && entries[i].id.Generated? ::
          entries[i].m.GeneratedProject? || entries[i].m.GeneratedSourcePackage?)
    && (forall i, j | 0 <= i < j < |entries| :: !Clash(entries[i], entries[j]))
  }

  /** The maps answer exactly from the entries, to callers that may see them. */
  ghost predicate OwnsExactly(o: OwnerMaps, entries: seq<Entry>) {
    forall caller: ModuleRef, id: Identity, n: Node ::
      OwnerOf(o, caller, id) == Some(n) <==>
      exists i :: 0 <= i < |entries| && Answers(entries[i], caller, id, n)
  }

  predicate Answers(e: Entry, caller: ModuleRef, id: Identity, n: Node) {
    e.id == id && n == Node(e.m, e.f) && (id.Generated? ==> BoundaryOf(caller) == BoundaryOf(e.m))
  }

  function Insert(o: OwnerMaps, e: Entry): OwnerMaps {
    var owner := Node(e.m, e.f);
    match e.id
    case Origin(i) => o.(byOrigin := o.byOrigin[i := owner])
    case ModulePrivate(i) => o.(byPrivate := o.byPrivate[i := owner])
    case Generated(i) =>
      match BoundaryOf(e.m)
      case ProjectBoundary => o.(projectGenerated := o.projectGenerated[i := owner])
      case PackageBoundary(k) =>
        var owners := if k in o.packageGenerated then o.packageGenerated[k] else map[];
        o.(packageGenerated := o.packageGenerated[k := owners[i := owner]])
  }

  lemma InsertOwner(o: OwnerMaps, e: Entry, caller: ModuleRef, id: Identity)
    ensures OwnerOf(Insert(o, e), caller, id) ==
            if e.id == id && (id.Generated? ==> BoundaryOf(caller) == BoundaryOf(e.m)) then Some(Node(e.m, e.f))
            else OwnerOf(o, caller, id)
  {
  }

  method BuildExecutionOwnerMaps(entries: seq<Entry>) returns (r: Result<OwnerMaps>)
    ensures r.Ok? <==> WellOwned(entries)
    ensures r.Ok? ==> OwnsExactly(r.value, entries)
  {
    var o := OwnerMaps(map[], map[], map[], map[]);
    for i := 0 to |entries|
      invariant WellOwned(entries[..i]) && OwnsExactly(o, entries[..i])
    {
      var e := entries[i];
      if e.id.Generated? && !IsSidecar(e.m) {
        return Err;
      }
      var taken := OwnerOf(o, e.m, e.id);
      if taken.Some? {
        ghost var j :| 0 <= j < i && Answers(entries[..i][j], e.m, e.id, taken.value);
        assert Clash(entries[j], entries[i]);
        return Err;
      }
      ExtendOwners(o, entries[..i], e);
      assert entries[..i + 1] == entries[..i] + [e];
      o := Insert(o, e);
    }
    assert entries[..|entries|] == entries;
    r := Ok(o);
  }

  lemma ExtendOwners(o: OwnerMaps, entries: seq<Entry>, e: Entry)
    requires WellOwned(entries) && OwnsExactly(o, entries) && OwnerOf(o, e.m, e.id).None?
    requires e.id.Generated? ==> e.m.GeneratedProject? || e.m.GeneratedSourcePackage?
    ensures WellOwned(entries + [e]) && OwnsExactly(Insert(o, e), entries + [e])
  {
    var after := entries + [e];
    forall i | 0 <= i < |entries| ensures !Clash(entries[i], e) {
      var n := Node(entries[i].m, entries[i].f);
      assert OwnerOf(o, e.m, e.id) == Some(n) <==> exists j :: 0 <= j < |entries| && Answers(entries[j], e.m, e.id, n);
      assert Clash(entries[i], e) ==> Answers(entries[i], e.m, e.id, n);
    }
    forall caller: ModuleRef, id: Identity, n: Node
      ensures OwnerOf(Insert(o, e), caller, id) == Some(n) <==>
              exists i :: 0 <= i < |after| && Answers(after[i], caller, id, n)
    {
      InsertOwner(o, e, caller, id);
      assert after[|entries|] == e;
      if i :| 0 <= i < |entries| && Answers(entries[i], caller, id, n) {
        assert after[i] == entries[i] && !Clash(entries[i], e);
      }
    }
  }

  /** A generated target resolved during a walk always belongs to the caller's own boundary. */
  lemma GeneratedTargetsStayInBoundary(o: OwnerMaps, entries: seq<Entry>, caller: ModuleRef, i: nat, n: Node)
    requires WellOwned(entries) && OwnsExactly(o, entries) && OwnerOf(o, caller, Generated(i)) == Some(n)
    ensures BoundaryOf(n.m) == BoundaryOf(caller) && (n.m.GeneratedProject? || n.m.GeneratedSourcePackage?)
  {
    var k :| 0 <= k < |entries| && Answers(entries[k], caller, Generated(i), n);
  }

  // ----- names

  function Decimal(n: nat): (r: string)
    ensures |r| > 0 && (n >= 10 ==> |r| > 1)
  {
    if n < 10 then [Digit(n)] else Decimal(n / 10) + [Digit(n % 10)]
  }

  function Digit(d: nat): char
    requires d < 10
  {
    "0123456789"[d]
  }

  lemma {:induction false} DecimalInjective(a: nat, b: nat)
    requires Decimal(a) == Decimal(b)
    ensures a == b
  {
    var s, t := Decimal(a), Decimal(b);
    assert s[|s| - 1] == Digit(a % 10) && t[|t| - 1] == Digit(b % 10);
    if a >= 10 && b >= 10 {
      assert s[..|s| - 1] == Decimal(a / 10) && t[..|t| - 1] == Decimal(b / 10);
      DecimalInjective(a / 10, b / 10);
    }
  }

  function DigitValue(c: char): nat {
    if '0' <= c <= '9' then c as int - '0' as int else 0
  }

  /** The number a run of decimal digits denotes. */
  ghost function Denotes(s: string): nat {
    if s == [] then 0 else 10 * Denotes(s[..|s| - 1]) + DigitValue(s[|s| - 1])
  }

  lemma DigitDenotes(d: nat)
    requires d < 10
    ensures '0' <= Digit(d) <= '9' && DigitValue(Digit(d)) == d && (d > 0 ==> Digit(d) != '0')
  {
  }

  /** The suffix is the index in decimal, without leading zeros. */
  lemma {:induction false} DecimalDenotes(n: nat)
    ensures (forall c | c in Decimal(n) :: '0' <= c <= '9') && Denotes(Decimal(n)) == n
    ensures n > 0 ==> Decimal(n)[0] != '0'
  {
    DigitDenotes(n % 10);
    if n >= 10 {
      DecimalDenotes(n / 10);
      assert Decimal(n)[..|Decimal(n)| - 1] == Decimal(n / 10);
    } else {
      assert Decimal(n)[..0] == [];
    }
  }

  function NameOf(index: nat): string {
    "__moth_generated_fn_" + Decimal(index)
  }

  lemma NameInjective(a: nat, b: nat)
    requires NameOf(a) == NameOf(b)
    ensures a == b
  {
    var prefix := "__moth_generated_fn_";
    assert Decimal(a) == NameOf(a)[|prefix|..] && Decimal(b) == NameOf(b)[|prefix|..];
    DecimalInjective(a, b);
  }

  /** A registered source package: its stable prefix and the generated identities it owns. */
  datatype Package = Package(prefix: Text, generated: set<nat>)

  predicate Before(a: Package, b: Package) {
    LexLeq(a.prefix, b.prefix) && a.prefix != b.prefix
  }

  ghost predicate StrictlySorted(ps: seq<Package>) {
    forall i, j | 0 <= i < j < |ps| :: LexLeq(ps[i].prefix, ps[j].prefix) && ps[i].prefix != ps[j].prefix
  }

  ghost predicate UniquePrefixes(ps: seq<Package>) {
    forall i, j | 0 <= i < j < |ps| :: ps[i].prefix != ps[j].prefix
  }

  ghost predicate SameElements<T(!new)>(a: seq<T>, b: seq<T>) {
    forall x :: x in a <==> x in b
  }

  /** One name slot: a boundary, the project or a package by its prefix, and an identity inside it. */
  datatype Slot = Slot(boundary: Option<Text>, id: nat)

  predicate IsLeast(s: set<nat>, m: nat) {
    m in s && forall x | x in s :: m <= x
  }

  function Minimum(s: set<nat>): (m: nat)
    requires s != {}
    ensures IsLeast(s, m)
  {
    LeastExists(s);
    var m :| IsLeast(s, m);
    m
  }

  lemma {:induction false} LeastExists(s: set<nat>)
    requires s != {}
    ensures exists m :: IsLeast(s, m)
  {
    var y :| y in s;
    var rest := s - {y};
    if rest == {} {
      assert s == {y};
      assert IsLeast(s, y);
    } else {
      LeastExists(rest);
      var m :| IsLeast(rest, m);
      assert s == rest + {y};
      assert IsLeast(s, if y < m then y else m);
    }
  }

  function SortedIds(s: set<nat>): seq<nat> {
    if s == {} then [] else var m := Minimum(s); [m] + SortedIds(s - {m})
  }

  function BoundarySlots(boundary: Option<Text>, owners: set<nat>): seq<Slot> {
    var ids := SortedIds(owners);
    seq(|ids|, i requires 0 <= i < |ids| => Slot(boundary, ids[i]))
  }

  function OnePackage(p: Package): seq<Slot> {
    BoundarySlots(Some(p.prefix), p.generated)
  }

  /** Every slot in naming order: the project first, then packages by prefix; identities ascend within each. */
  function Slots(project: set<nat>, ps: seq<Package>): seq<Slot> {
    if ps == [] then BoundarySlots(None, project) else Slots(project, ps[..|ps| - 1]) + OnePackage(ps[|ps| - 1])
  }

  /** Strictly sorted listings of the same packages are the same listing. */
  lemma {:induction false} SortedListingUnique(a: seq<Package>, b: seq<Package>)
    requires StrictlySorted(a) && StrictlySorted(b) && SameElements(a, b)
    ensures a == b
  {
    assert a == [] || a[0] in a;
    assert b == [] || b[0] in b;
    if a != [] {
      assert a[0] in b && b[0] in a;
      if a[0] != b[0] {
        var i :| 0 <= i < |b| && b[i] == a[0];
        var j :| 0 <= j < |a| && a[j] == b[0];
        assert Before(b[0], b[i]) && Before(a[0], a[j]);
        LexAntisym(a[0].prefix, b[0].prefix);
      }
      TailElements(a, b);
      SortedListingUnique(a[1..], b[1..]);
      assert a == [a[0]] + a[1..] && b == [b[0]] + b[1..];
    }
  }

  lemma TailElements(a: seq<Package>, b: seq<Package>)
    requires a != [] && b != [] && a[0] == b[0] && StrictlySorted(a) && StrictlySorted(b) && SameElements(a, b)
    ensures SameElements(a[1..], b[1..])
  {
    forall x ensures x in a[1..] <==> x in a && x != a[0] {
      if x in a && x != a[0] {
        var i :| 0 <= i < |a| && a[i] == x;
        assert a[1..][i - 1] == x;
      }
      if x in a[1..] {
        var i :| 1 <= i < |a| && a[i] == x;
        assert Before(a[0], a[i]);
      }
    }
    forall x ensures x in b[1..] <==> x in b && x != b[0] {
      if x in b && x != b[0] {
        var i :| 0 <= i < |b| && b[i] == x;
        assert b[1..][i - 1] == x;
      }
      if x in b[1..] {
        var i :| 1 <= i < |b| && b[i] == x;
        assert Before(b[0], b[i]);
      }
    }
  }

  // ----- slots are distinct and complete

  ghost predicate Ascending(s: seq<nat>) {
    forall i, j | 0 <= i < j < |s| :: s[i] < s[j]
  }

  lemma {:induction false} SortedIdsCorrect(s: set<nat>)
    ensures Ascending(SortedIds(s)) && forall x :: x in SortedIds(s) <==> x in s
  {
    if s != {} {
      var m := Minimum(s);
      var rest := SortedIds(s - {m});
      SortedIdsCorrect(s - {m});
      forall i | 0 <= i < |rest| ensures m < rest[i] {
        assert rest[i] in s - {m};
      }
    }
  }

  ghost predicate Owns(project: set<nat>, ps: seq<Package>, slot: Slot) {
    match slot.boundary
    case None => slot.id in project
    case Some(prefix) => exists k :: 0 <= k < |ps| && ps[k].prefix == prefix && slot.id in ps[k].generated
  }

  lemma BoundarySlotsCorrect(boundary: Option<Text>, owners: set<nat>)
    ensures NoDup(BoundarySlots(boundary, owners))
    ensures forall slot :: slot in BoundarySlots(boundary, owners) <==> slot.boundary == boundary && slot.id in owners
  {
    var ids, slots := SortedIds(owners), BoundarySlots(boundary, owners);
    SortedIdsCorrect(owners);
    forall slot: Slot | slot.boundary == boundary && slot.id in owners ensures slot in slots {
      var i :| 0 <= i < |ids| && ids[i] == slot.id;
      assert slots[i] == slot;
    }
  }

  /** How many owned identities come before `id`. */
  ghost function Rank(owners: set<nat>, id: nat): nat {
    |Smaller(owners, id)|
  }

  ghost function Smaller(owners: set<nat>, id: nat): set<nat> {
    set x | x in owners && x < id
  }

  lemma {:induction false} DistinctCount(s: seq<nat>)
    requires Ascending(s)
    ensures |SeqSet(s)| == |s|
  {
    if s != [] {
      var n := |s| - 1;
      DistinctCount(s[..n]);
      assert s == s[..n] + [s[n]];
      assert SeqSet(s) == SeqSet(s[..n]) + {s[n]} && s[n] !in SeqSet(s[..n]);
    }
  }

  lemma SmallerIsFront(owners: set<nat>, ids: seq<nat>, i: nat)
    requires Ascending(ids) && i < |ids| && forall x :: x in ids <==> x in owners
    ensures Smaller(owners, ids[i]) == SeqSet(ids[..i])
  {
    forall x | x in Smaller(owners, ids[i]) ensures x in SeqSet(ids[..i]) {
      assert x in ids;
      var j :| 0 <= j < |ids| && ids[j] == x;
      assert j < i;
    }
  }

  /** An identity's place in the sorted listing is its rank. */
  lemma SortedByRank(owners: set<nat>, i: nat)
    requires i < |SortedIds(owners)|
    ensures Rank(owners, SortedIds(owners)[i]) == i
  {
    SortedIdsCorrect(owners);
    SmallerIsFront(owners, SortedIds(owners), i);
    DistinctCount(SortedIds(owners)[..i]);
  }

  /** No slot is named twice, and exactly the owned slots are named. */
  lemma {:induction false} SlotsCorrect(project: set<nat>, ps: seq<Package>)
    requires UniquePrefixes(ps)
    ensures NoDup(Slots(project, ps)) && forall slot :: slot in Slots(project, ps) <==> Owns(project, ps, slot)
  {
    if ps == [] {
      BoundarySlotsCorrect(None, project);
    } else {
      var n := |ps| - 1;
      SlotsCorrect(project, ps[..n]);
      BoundarySlotsCorrect(Some(ps[n].prefix), ps[n].generated);
      var front, last := Slots(project, ps[..n]), OnePackage(ps[n]);
      forall slot ensures slot in front + last <==> Owns(project, ps, slot) {
      }
      forall i, j | 0 <= i < |front| && 0 <= j < |last| ensures front[i] != last[j] {
        assert front[i] in front && last[j] in last;
      }
    }
  }

  /** Two different slots never share a name. */
  lemma NamesAreDistinct(names: map<Slot, string>, slots: seq<Slot>, a: Slot, b: Slot)
    requires Named(slots, names) && a in names && b in names && a != b
    ensures names[a] != names[b]
  {
    var i :| 0 <= i < |slots| && slots[i] == a;
    var j :| 0 <= j < |slots| && slots[j] == b;
    if names[a] == names[b] {
      NameInjective(i, j);
    }
  }

  /** Reordering package registration never changes a name. */
  lemma NamesIgnoreRegistrationOrder(project: set<nat>, a: seq<Package>, b: seq<Package>, sortedA: seq<Package>,
                                     sortedB: seq<Package>,
                                     namesA: map<Slot, string>, namesB: map<Slot, string>)
    requires SameElements(a, b) && SameElements(a, sortedA) && SameElements(b, sortedB)
    requires StrictlySorted(sortedA) && StrictlySorted(sortedB)
    requires Named(Slots(project, sortedA), namesA) && Named(Slots(project, sortedB), namesB)
    ensures namesA == namesB
  {
    SortedListingUnique(sortedA, sortedB);
    var slots := Slots(project, sortedA);
    forall slot ensures slot in namesA <==> slot in namesB {
      if slot in slots {
        var i :| 0 <= i < |slots| && slots[i] == slot;
      }
    }
    forall slot | slot in namesA ensures namesA[slot] == namesB[slot] {
      var i :| 0 <= i < |slots| && slots[i] == slot;
    }
  }

  // ----- name assignment as the source runs it

  method SortPackages(ps: seq<Package>) returns (sorted: seq<Package>)
    requires UniquePrefixes(ps)
    ensures StrictlySorted(sorted) && SameElements(ps, sorted)
  {
    sorted := [];
    for n := 0 to |ps|
      invariant StrictlySorted(sorted) && SameElements(ps[..n], sorted)
    {
      var p := ps[n];
      var at := 0;
      while at < |sorted| && Before(sorted[at], p)
        invariant 0 <= at <= |sorted|
        invariant forall i | 0 <= i < at :: Before(sorted[i], p)
      {
        at := at + 1;
      }
      InsertAt(ps, n, sorted, at);
      sorted := sorted[..at] + [p] + sorted[at..];
      assert ps[..n + 1] == ps[..n] + [p];
    }
    assert ps[..|ps|] == ps;
  }

  lemma InsertAt(ps: seq<Package>, n: nat, sorted: seq<Package>, at: nat)
    requires UniquePrefixes(ps) && n < |ps| && StrictlySorted(sorted) && SameElements(ps[..n], sorted) && at <= |sorted|
    requires forall i | 0 <= i < at :: Before(sorted[i], ps[n])
    requires at < |sorted| ==> !Before(sorted[at], ps[n])
    ensures StrictlySorted(sorted[..at] + [ps[n]] + sorted[at..])
    ensures SameElements(ps[..n] + [ps[n]], sorted[..at] + [ps[n]] + sorted[at..])
  {
    var p, r := ps[n], sorted[..at] + [ps[n]] + sorted[at..];
    assert SameElements(ps[..n] + [p], r) by {
      assert sorted == sorted[..at] + sorted[at..];
    }
    forall i | at <= i < |sorted| ensures Before(p, sorted[i]) {
      assert sorted[at] in ps[..n];
      LexTotal(sorted[at].prefix, p.prefix);
      if i > at {
        assert Before(sorted[at], sorted[i]);
        LexTrans(p.prefix, sorted[at].prefix, sorted[i].prefix);
        assert sorted[i] in ps[..n];
      }
    }
    forall i, j | 0 <= i < j < |r| ensures Before(r[i], r[j]) {
      assert i != at ==> r[i] == sorted[if i < at then i else i - 1];
      assert j != at ==> r[j] == sorted[if j < at then j else j - 1];
    }
  }

  /** Each listed slot is named by its position, and nothing else is named. */
  ghost predicate Named(slots: seq<Slot>, names: map<Slot, string>) {
    && (forall i | 0 <= i < |slots| :: slots[i] in names && names[slots[i]] == NameOf(i))
    && (forall slot | slot in names :: slot in slots)
  }

  /** Sort one boundary's identities and name them in ascending order, continuing the shared index. */
  method AssignBoundary(ghost done: seq<Slot>, boundary: Option<Text>, owners: set<nat>, before: map<Slot, string>,
                        start: nat)
    returns (names: map<Slot, string>, next: nat)
    requires Named(done, before) && start == |done| && NoDup(done + BoundarySlots(boundary, owners))
    ensures Named(done + BoundarySlots(boundary, owners), names) && next == |done + BoundarySlots(boundary, owners)|
    ensures forall id | id in owners ::
              Slot(boundary, id) in names && names[Slot(boundary, id)] == NameOf(start + Rank(owners, id))
  {
    var slots := BoundarySlots(boundary, owners);
    names, next := before, start;
    for i := 0 to |slots|
      invariant next == start + i && Named(done + slots[..i], names)
    {
      NameOne(done, slots, i, names);
      names := names[slots[i] := NameOf(next)];
      next := next + 1;
    }
    assert slots[..|slots|] == slots;
    forall id | id in owners
      ensures Slot(boundary, id) in names && names[Slot(boundary, id)] == NameOf(start + Rank(owners, id))
    {
      NamedByRank(done, boundary, owners, names, id);
    }
  }

  lemma NamedByRank(done: seq<Slot>, boundary: Option<Text>, owners: set<nat>, names: map<Slot, string>, id: nat)
    requires Named(done + BoundarySlots(boundary, owners), names) && id in owners
    ensures Slot(boundary, id) in names && names[Slot(boundary, id)] == NameOf(|done| + Rank(owners, id))
  {
    var ids, slots := SortedIds(owners), BoundarySlots(boundary, owners);
    SortedIdsCorrect(owners);
    assert id in ids;
    var i :| 0 <= i < |ids| && ids[i] == id;
    SortedByRank(owners, i);
    assert (done + slots)[|done| + i] == Slot(boundary, id);
  }

  lemma NameOne(done: seq<Slot>, boundary: seq<Slot>, i: nat, names: map<Slot, string>)
    requires i < |boundary| && Named(done + boundary[..i], names) && NoDup(done + boundary)
    ensures Named(done + boundary[..i + 1], names[boundary[i] := NameOf(|done| + i)])
  {
    var all, before, after := done + boundary, done + boundary[..i], done + boundary[..i + 1];
    assert after == before + [boundary[i]] && before <= all && all[|before|] == boundary[i];
    forall k | 0 <= k < |before| ensures before[k] != boundary[i] {
      assert all[k] == before[k];
    }
  }

  /** Name the packages' identities one package after another. */
  method AssignPackages(project: set<nat>, order: seq<Package>, first: map<Slot, string>, start: nat)
    returns (names: map<Slot, string>)
    requires UniquePrefixes(order) && Named(Slots(project, []), first) && start == |Slots(project, [])|
    ensures Named(Slots(project, order), names)
  {
    names := first;
    var next := start;
    for k := 0 to |order|
      invariant Named(Slots(project, order[..k]), names) && next == |Slots(project, order[..k])|
    {
      SlotsNext(project, order, k);
      names, next := AssignBoundary(Slots(project, order[..k]), Some(order[k].prefix), order[k].generated, names, next);
    }
    assert order[..|order|] == order;
  }

  lemma SlotsNext(project: set<nat>, order: seq<Package>, k: nat)
    requires UniquePrefixes(order) && k < |order|
    ensures var front, last := Slots(project, order[..k]), BoundarySlots(Some(order[k].prefix), order[k].generated);
            NoDup(front + last) && Slots(project, order[..k + 1]) == front + last
  {
    assert order[..k + 1][..k] == order[..k];
    SlotsCorrect(project, order[..k + 1]);
  }

  /** Every owned slot gets the name of its position in the naming order, whatever the registration order. */
  method AssignGeneratedNames(project: set<nat>, packages: seq<Package>)
    returns (names: map<Slot, string>, ghost sorted: seq<Package>)
    requires UniquePrefixes(packages)
    ensures StrictlySorted(sorted) && SameElements(packages, sorted)
    ensures Named(Slots(project, sorted), names)
    ensures forall slot :: slot in names <==> Owns(project, packages, slot)
  {
    var order := SortPackages(packages);
    sorted := order;
    BoundarySlotsCorrect(None, project);
    assert [] + BoundarySlots(None, project) == BoundarySlots(None, project);
    var first, next := AssignBoundary([], None, project, map[], 0);
    names := AssignPackages(project, order, first, next);
    NamedIsOwned(project, packages, order, names);
  }

  lemma NamedIsOwned(project: set<nat>, packages: seq<Package>, order: seq<Package>, names: map<Slot, string>)
    requires StrictlySorted(order) && SameElements(packages, order) && Named(Slots(project, order), names)
    ensures forall slot :: slot in names <==> Owns(project, packages, slot)
  {
    SlotsCorrect(project, order);
    forall slot ensures slot in names <==> Owns(project, packages, slot) {
      OwnsSame(project, packages, order, slot);
      if slot in Slots(project, order) {
        var i :| 0 <= i < |Slots(project, order)| && Slots(project, order)[i] == slot;
      }
    }
  }

  lemma OwnsSame(project: set<nat>, a: seq<Package>, b: seq<Package>, slot: Slot)
    requires SameElements(a, b)
    ensures Owns(project, a, slot) <==> Owns(project, b, slot)
  {
    if slot.boundary.Some? {
      if k :| 0 <= k < |a| && a[k].prefix == slot.boundary.value && slot.id in a[k].generated {
        assert a[k] in b;
      }
      if k :| 0 <= k < |b| && b[k].prefix == slot.boundary.value && slot.id in b[k].generated {
        assert b[k] in a;
      }
    }
  }
}
