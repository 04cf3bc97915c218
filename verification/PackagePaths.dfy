/** Package paths: one overlap rule, so that no import path ever has two owners. */
module PackagePaths {
  import opened Ordering

  const HASH: byte := 0x23
  const AT: byte := 0x40
  const PROJECT: Text := [0x70, 0x72, 0x6F, 0x6A, 0x65, 0x63, 0x74]
  const CORE: Text := [0x63, 0x6F, 0x72, 0x65]

  datatype Origin = Core | Builder | ProjectLocal | Dependency

  datatype Refusal = Malformed | ReservedForProject | ReservedForCore

  // ----- case folding and components

  function FoldByte(b: byte): byte {
    if 0x41 <= b <= 0x5A then b + 0x20 else b
  }

  function FoldText(t: Text): Text {
    seq(|t|, i requires 0 <= i < |t| => FoldByte(t[i]))
  }

  predicate EqualIgnoringCase(a: Text, b: Text) {
    FoldText(a) == FoldText(b)
  }

  function Split(t: Text): (r: seq<Text>)
    ensures r != []
  {
    if t == [] then [[]]
    else
      var rest := Split(t[1..]);
      if t[0] == SLASH then [[]] + rest else [[t[0]] + rest[0]] + rest[1..]
  }

  /** Path components with ASCII case folded away. */
  function FoldedParts(t: Text): seq<Text> {
    FoldAll(Split(t))
  }

  function FoldAll(parts: seq<Text>): seq<Text> {
    seq(|parts|, i requires 0 <= i < |parts| => FoldText(parts[i]))
  }

  /** The reserved roots and the marks, as they are written. */
  lemma ReservedSpellings()
    ensures PROJECT == Ascii("project") && CORE == Ascii("core")
    ensures [SLASH] == Ascii("/") && [HASH] == Ascii("#") && [AT] == Ascii("@")
  {
  }

  /** Folding identifies exactly the upper and lower case of one ASCII letter. */
  lemma FoldIdentifiesCases(a: byte, b: byte)
    ensures FoldByte(a) == FoldByte(b) <==>
              a == b || ('A' as int <= a <= 'Z' as int && b == a + 32) || ('A' as int <= b <= 'Z' as int && a == b + 32)
  {
  }

  // ----- the rules as the source states them

  function ValidatePackagePath(path: Text, origin: Origin): (r: Verdict)
    ensures r == Accepted <==>
              && (forall part | part in Split(path) :: part != [] && HASH !in part)
              && !EqualIgnoringCase(Split(path)[0], PROJECT)
              && (EqualIgnoringCase(Split(path)[0], CORE) ==> origin == Core)
    ensures r == Refused(Malformed) <==> exists part :: part in Split(path) && (part == [] || HASH in part)
    ensures r == Refused(ReservedForProject) ==> EqualIgnoringCase(Split(path)[0], PROJECT)
    ensures r == Refused(ReservedForCore) ==> EqualIgnoringCase(Split(path)[0], CORE) && origin != Core
  {
    var parts := Split(path);
    if exists part | part in parts :: part == [] || HASH in part then Refused(Malformed)
    else if EqualIgnoringCase(parts[0], PROJECT) then Refused(ReservedForProject)
    else if EqualIgnoringCase(parts[0], CORE) && origin != Core then Refused(ReservedForCore)
    else Accepted
  }

  datatype Verdict = Accepted | Refused(reason: Refusal)

  predicate PackagePathsOverlap(left: Text, right: Text) {
    var shorter, longer := if |left| <= |right| then left else right, if |left| <= |right| then right else left;
    EqualIgnoringCase(longer[..|shorter|], shorter) && (|longer| == |shorter| || longer[|shorter|] == SLASH)
  }

  // ----- overlap is component-prefix comparability

  ghost predicate Comparable(a: seq<Text>, b: seq<Text>) {
    a <= b || b <= a
  }

  /** Folding commutes with putting one byte before the first component. */
  lemma FoldHead(b: byte, parts: seq<Text>)
    ensures parts != [] ==>
              FoldAll([[b] + parts[0]] + parts[1..]) == [[FoldByte(b)] + FoldAll(parts)[0]] + FoldAll(parts)[1..]
  {
    if parts != [] {
      assert FoldText([b] + parts[0]) == [FoldByte(b)] + FoldText(parts[0]);
    }
  }

  lemma FoldCons(rest: seq<Text>)
    ensures FoldAll([[]] + rest) == [[]] + FoldAll(rest)
  {
    assert FoldText([]) == [];
  }

  lemma SplitCons(b: byte, t: Text)
    ensures Split([b] + t) == if b == SLASH then [[]] + Split(t) else [[b] + Split(t)[0]] + Split(t)[1..]
  {
    assert ([b] + t)[1..] == t;
  }

  lemma {:induction false} SplitFolds(t: Text)
    ensures Split(FoldText(t)) == FoldedParts(t)
  {
    if t != [] {
      SplitFolds(t[1..]);
      var b, rest := t[0], Split(t[1..]);
      assert FoldText(t) == [FoldByte(b)] + FoldText(t[1..]);
      SplitCons(FoldByte(b), FoldText(t[1..]));
      FoldCons(rest);
      FoldHead(b, rest);
    }
  }

  lemma JoinCons(part: Text, rest: seq<Text>)
    ensures rest != [] ==> Join([part] + rest) == part + [SLASH] + Join(rest)
  {
    assert ([part] + rest)[1..] == rest;
  }

  lemma {:induction false} JoinSplit(t: Text)
    ensures Join(Split(t)) == t
  {
    if t != [] {
      JoinSplit(t[1..]);
      var rest := Split(t[1..]);
      var b, head, tail := t[0], rest[0], rest[1..];
      assert t == [b] + Join(rest) && rest == [head] + tail;
      if b == SLASH {
        JoinCons([], rest);
        assert [] + [SLASH] + Join(rest) == t;
      } else {
        JoinCons(head, tail);
        JoinCons([b] + head, tail);
        assert [b] + head + [SLASH] + Join(tail) == [b] + (head + [SLASH] + Join(tail));
      }
    }
  }

  lemma {:induction false} SplitConcat(a: Text, b: Text)
    ensures Split(a + [SLASH] + b) == Split(a) + Split(b)
  {
    var all := a + [SLASH] + b;
    if a == [] {
      assert all[1..] == b;
    } else {
      assert all[1..] == a[1..] + [SLASH] + b;
      SplitConcat(a[1..], b);
    }
  }

  lemma {:induction false} JoinConcat(a: seq<Text>, b: seq<Text>)
    requires a != [] && b != []
    ensures Join(a + b) == Join(a) + [SLASH] + Join(b)
  {
    if |a| == 1 {
      assert (a + b)[1..] == b;
    } else {
      assert (a + b)[1..] == a[1..] + b;
      JoinConcat(a[1..], b);
    }
  }

  /** A shorter or equal text is a prefix ending at a component boundary exactly when its components are a prefix. */
  lemma {:induction false} BoundaryPrefix(s: Text, l: Text)
    ensures Split(s) <= Split(l) <==> s == l || (|s| < |l| && l[..|s|] == s && l[|s|] == SLASH)
  {
    if |s| < |l| && l[..|s|] == s && l[|s|] == SLASH {
      assert l == s + [SLASH] + l[|s| + 1..];
      SplitConcat(s, l[|s| + 1..]);
    }
    if Split(s) <= Split(l) {
      JoinSplit(s);
      JoinSplit(l);
      var more := Split(l)[|Split(s)|..];
      assert Split(l) == Split(s) + more;
      if more == [] {
        assert Split(l) == Split(s);
      } else {
        JoinConcat(Split(s), more);
        assert l == s + [SLASH] + Join(more);
      }
    }
  }

  /** Overlap is ASCII-case-insensitive component-prefix comparability, on every pair of paths. */
  lemma OverlapIsComparability(left: Text, right: Text)
    ensures PackagePathsOverlap(left, right) <==> Comparable(FoldedParts(left), FoldedParts(right))
  {
    var s, l := if |left| <= |right| then left else right, if |left| <= |right| then right else left;
    SplitFolds(left);
    SplitFolds(right);
    BoundaryPrefix(FoldText(s), FoldText(l));
    BoundaryPrefix(FoldText(l), FoldText(s));
    assert FoldText(l)[..|s|] == FoldText(l[..|s|]);
    assert |s| < |l| ==> (FoldText(l)[|s|] == SLASH <==> l[|s|] == SLASH);
    assert |s| == |l| ==> l[..|s|] == l;
  }

  lemma SamePartsFold(a: Text, b: Text)
    requires FoldText(a) == FoldText(b)
    ensures |a| == |b| && (HASH in a <==> HASH in b)
  {
    assert |a| == |FoldText(a)| && |b| == |FoldText(b)|;
    forall i | 0 <= i < |a| ensures a[i] == HASH <==> b[i] == HASH {
      assert FoldText(a)[i] == FoldText(b)[i];
    }
    if HASH in a {
      var i :| 0 <= i < |a| && a[i] == HASH;
      assert b[i] == HASH;
    }
    if HASH in b {
      var i :| 0 <= i < |b| && b[i] == HASH;
      assert a[i] == HASH;
    }
  }

  lemma PartsFoldAlike(p: Text, q: Text)
    requires EqualIgnoringCase(p, q)
    ensures |Split(p)| == |Split(q)| && forall i | 0 <= i < |Split(p)| :: FoldText(Split(p)[i]) == FoldText(Split(q)[i])
  {
    SplitFolds(p);
    SplitFolds(q);
    assert FoldedParts(p) == FoldedParts(q);
    forall i | 0 <= i < |Split(p)| ensures FoldText(Split(p)[i]) == FoldText(Split(q)[i]) {
      assert FoldedParts(p)[i] == FoldedParts(q)[i];
    }
  }

  ghost predicate SomePartBad(path: Text) {
    exists part | part in Split(path) :: part == [] || HASH in part
  }

  lemma BadPartsAlike(p: Text, q: Text)
    requires EqualIgnoringCase(p, q) && SomePartBad(p)
    ensures SomePartBad(q)
  {
    PartsFoldAlike(p, q);
    var part :| part in Split(p) && (part == [] || HASH in part);
    var i :| 0 <= i < |Split(p)| && Split(p)[i] == part;
    SamePartsFold(Split(p)[i], Split(q)[i]);
    assert Split(q)[i] in Split(q);
  }

  /** No reserved name can be claimed, and no valid path refused, by changing ASCII case. */
  lemma ValidationIgnoresCase(p: Text, q: Text, origin: Origin)
    requires EqualIgnoringCase(p, q)
    ensures ValidatePackagePath(p, origin) == ValidatePackagePath(q, origin)
  {
    PartsFoldAlike(p, q);
    if SomePartBad(p) {
      BadPartsAlike(p, q);
    }
    if SomePartBad(q) {
      BadPartsAlike(q, p);
    }
    assert SomePartBad(p) <==> SomePartBad(q);
  }

  // ----- ownership

  /** An import path belongs to a package when the package's components lead it. */
  ghost predicate OwnsImport(prefix: Text, path: Text) {
    FoldedParts(prefix) <= FoldedParts(path)
  }

  ghost predicate NoOverlaps(prefixes: set<Text>) {
    forall p, q | p in prefixes && q in prefixes && p != q :: !PackagePathsOverlap(p, q)
  }

  lemma TwoOwnersOverlap(p: Text, q: Text, path: Text)
    requires OwnsImport(p, path) && OwnsImport(q, path)
    ensures PackagePathsOverlap(p, q)
  {
    OverlapIsComparability(p, q);
    var a, b, c := FoldedParts(p), FoldedParts(q), FoldedParts(path);
    assert a == c[..|a|] && b == c[..|b|];
    assert |a| <= |b| ==> a == b[..|a|];
    assert |b| <= |a| ==> b == a[..|b|];
  }

  /** No import path has two source-package owners. */
  lemma UniqueOwner(prefixes: set<Text>, path: Text, p: Text, q: Text)
    requires NoOverlaps(prefixes) && p in prefixes && q in prefixes && OwnsImport(p, path) && OwnsImport(q, path)
    ensures p == q
  {
    TwoOwnersOverlap(p, q, path);
  }

  datatype Root = Root(location: Text, origin: Origin)

  datatype Registration = Registered | InvalidPath(reason: Refusal) | OverlapsRegistered(existing: Text)

  class SourcePackageRegistry {
    var roots: map<Text, Root>

    constructor ()
      ensures Valid() && roots == map[]
    {
      roots := map[];
    }

    /** What every run of registrations keeps: well-formed prefixes, pairwise without overlap. */
    ghost predicate Valid()
      reads this
    {
      NoOverlaps(roots.Keys) && forall p | p in roots :: ValidatePackagePath(p, roots[p].origin) == Accepted
    }

    /** Register a prefix, or leave the registry untouched and say what stands in the way. */
    method RegisterFilesystemRoot(prefix: Text, location: Text, origin: Origin) returns (r: Registration)
      requires Valid()
      modifies this
      ensures Valid()
      ensures r == Registered <==>
                && ValidatePackagePath(prefix, origin) == Accepted
                && forall p | p in old(roots) :: !PackagePathsOverlap(p, prefix)
      ensures roots == if r == Registered then old(roots)[prefix := Root(location, origin)] else old(roots)
      ensures r.OverlapsRegistered? ==> r.existing in roots && PackagePathsOverlap(r.existing, prefix)
    {
      var check := ValidatePackagePath(prefix, origin);
      if check.Refused? {
        return InvalidPath(check.reason);
      }
      var keys := SortedNames(roots.Keys);
      SortedNamesCorrect(roots.Keys);
      for i := 0 to |keys|
        invariant forall j | 0 <= j < i :: !PackagePathsOverlap(keys[j], prefix)
      {
        if PackagePathsOverlap(keys[i], prefix) {
          return OverlapsRegistered(keys[i]);
        }
      }
      forall p | p in roots ensures !PackagePathsOverlap(p, prefix) && !PackagePathsOverlap(prefix, p) {
        assert p in keys;
        OverlapIsComparability(p, prefix);
        OverlapIsComparability(prefix, p);
      }
      roots := roots[prefix := Root(location, origin)];
      r := Registered;
    }
  }

  // ----- the builder surface

  function StripIntroducer(path: Text): Text {
    if path != [] && path[0] == AT then path[1..] else path
  }

  /** One leading introducer is dropped, and nothing else. */
  lemma StripsOneIntroducer(path: Text)
    ensures StripIntroducer([AT] + path) == path
    ensures path == [] || path[0] != AT ==> StripIntroducer(path) == path
  {
  }

  /** No binding package overlaps the source package `p`. */
  ghost predicate ClearOf(p: Text, bindings: set<Text>) {
    forall b | b in bindings :: !PackagePathsOverlap(p, StripIntroducer(b))
  }

  ghost predicate LanesDisjoint(sources: set<Text>, bindings: set<Text>) {
    forall p | p in sources :: ClearOf(p, bindings)
  }

  method CheckSource(p: Text, bindings: set<Text>) returns (clear: bool)
    ensures clear <==> ClearOf(p, bindings)
  {
    var paths := SortedNames(bindings);
    SortedNamesCorrect(bindings);
    for j := 0 to |paths|
      invariant forall k | 0 <= k < j :: !PackagePathsOverlap(p, StripIntroducer(paths[k]))
    {
      if PackagePathsOverlap(p, StripIntroducer(paths[j])) {
        assert paths[j] in bindings;
        return false;
      }
    }
    forall b | b in bindings ensures !PackagePathsOverlap(p, StripIntroducer(b)) {
      assert b in paths;
    }
    clear := true;
  }

  /** Reject a surface in which a source package and a binding package overlap. */
  method ValidateSurface(sources: set<Text>, bindings: set<Text>) returns (ok: bool)
    ensures ok <==> LanesDisjoint(sources, bindings)
  {
    var paths := SortedNames(sources);
    SortedNamesCorrect(sources);
    for i := 0 to |paths|
      invariant forall k | 0 <= k < i :: ClearOf(paths[k], bindings)
    {
      var clear := CheckSource(paths[i], bindings);
      if !clear {
        assert paths[i] in sources;
        return false;
      }
    }
    forall p | p in sources ensures ClearOf(p, bindings) {
      assert p in paths;
    }
    ok := true;
  }

  /** After surface validation no import path belongs to both a source and a binding package. */
  lemma NoSharedOwner(sources: set<Text>, bindings: set<Text>, p: Text, b: Text, path: Text)
    requires LanesDisjoint(sources, bindings)
    requires p in sources && b in bindings && OwnsImport(p, path)
    ensures !OwnsImport(StripIntroducer(b), path)
  {
    assert ClearOf(p, bindings);
    if OwnsImport(StripIntroducer(b), path) {
      TwoOwnersOverlap(p, StripIntroducer(b), path);
    }
  }
}
