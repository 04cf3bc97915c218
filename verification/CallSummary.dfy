/** The finite widening order that keeps call-summary convergence from running forever. */
module CallSummary {
  import opened Collections

  datatype Access = Shared | Mutable
  datatype Mutation = NoWrite | Writes
  datatype Transfer = MayConsume | AlwaysConsumes
  datatype Parameter = Parameter(access: Access, mutation: Mutation, transfer: Transfer)
  datatype ReturnAlias = Fresh | AliasParams(indices: seq<nat>) | Unknown
  datatype Summary = Summary(parameters: seq<Parameter>, returnAlias: ReturnAlias, escapes: bool)

  datatype Failure =
    | ParameterCount
    | ParameterAccess(index: int)
    | ParameterEffects(index: int)
    | EmptyAlias
    | AliasOutOfRange(index: int)
    | AliasNotIncreasing
    | NarrowedEscape
    | ChangedAccess(index: int)
    | ChangedTransfer(index: int)
    | NarrowedMutation(index: int)
    | NarrowedAlias

  datatype Result<+T> = Ok(value: T) | Err(error: Failure)

  datatype Transition = Unchanged | Widened

  // ----- valid summaries

  predicate Increasing(s: seq<nat>) {
    forall i, j | 0 <= i < j < |s| :: s[i] < s[j]
  }

  predicate ValidParameter(declared: Access, p: Parameter) {
    p.access == declared && p.transfer == MayConsume && (declared == Shared ==> p.mutation == NoWrite)
  }

  predicate ValidAlias(count: nat, alias: ReturnAlias) {
    alias.AliasParams? ==>
      && alias.indices != [] && Increasing(alias.indices)
      && forall i | 0 <= i < |alias.indices| :: alias.indices[i] < count
  }

  predicate ValidFor(declared: seq<Access>, s: Summary) {
    && |s.parameters| == |declared|
    && (forall i | 0 <= i < |declared| :: ValidParameter(declared[i], s.parameters[i]))
    && ValidAlias(|declared|, s.returnAlias)
  }

  function Accesses(s: Summary): seq<Access> {
    seq(|s.parameters|, i requires 0 <= i < |s.parameters| => s.parameters[i].access)
  }

  method ValidateReturnAlias(count: nat, alias: ReturnAlias) returns (r: Result<()>)
    ensures r.Ok? <==> ValidAlias(count, alias)
  {
    if !alias.AliasParams? {
      return Ok(());
    }
    var indices := alias.indices;
    if indices == [] {
      return Err(EmptyAlias);
    }
    var previous: int := -1;
    for i := 0 to |indices|
      invariant forall j | 0 <= j < i :: indices[j] < count && indices[j] <= previous
      invariant Increasing(indices[..i])
      invariant i == 0 ==> previous == -1
      invariant i > 0 ==> previous == indices[i - 1]
    {
      if indices[i] >= count {
        return Err(AliasOutOfRange(indices[i]));
      }
      if i > 0 && previous >= indices[i] {
        return Err(AliasNotIncreasing);
      }
      previous := indices[i];
    }
    assert indices[..|indices|] == indices;
    r := Ok(());
  }

  method ValidateSummary(declared: seq<Access>, s: Summary) returns (r: Result<()>)
    ensures r.Ok? <==> ValidFor(declared, s)
  {
    if |s.parameters| != |declared| {
      return Err(ParameterCount);
    }
    for i := 0 to |declared|
      invariant forall j | 0 <= j < i :: ValidParameter(declared[j], s.parameters[j])
    {
      if s.parameters[i].access != declared[i] {
        return Err(ParameterAccess(i));
      }
      var p := s.parameters[i];
      var valid;
      match declared[i] {
        case Shared => valid := p.mutation == NoWrite && p.transfer == MayConsume;
        case Mutable => valid := p.transfer == MayConsume;
      }
      if !valid {
        return Err(ParameterEffects(i));
      }
    }
    r := ValidateReturnAlias(|declared|, s.returnAlias);
  }

  // ----- the binary-search subset test

  function BinarySearch(s: seq<nat>, x: nat, lo: nat, hi: nat): bool
    requires lo <= hi <= |s|
    decreases hi - lo
  {
    if lo == hi then false
    else
      var mid := lo + (hi - lo) / 2;
      if s[mid] == x then true
      else if s[mid] < x then BinarySearch(s, x, mid + 1, hi)
      else BinarySearch(s, x, lo, mid)
  }

  lemma {:induction false} BinarySearchExact(s: seq<nat>, x: nat, lo: nat, hi: nat)
    requires lo <= hi <= |s| && Increasing(s)
    ensures BinarySearch(s, x, lo, hi) <==> exists i :: lo <= i < hi && s[i] == x
    decreases hi - lo
  {
    if lo < hi {
      var mid := lo + (hi - lo) / 2;
      BinarySearchExact(s, x, mid + 1, hi);
      BinarySearchExact(s, x, lo, mid);
    }
  }

  function ReturnAliasIsWidening(previous: ReturnAlias, next: ReturnAlias): bool {
    match (previous, next)
    case (Fresh, _) => true
    case (AliasParams(a), AliasParams(b)) => forall i | 0 <= i < |a| :: BinarySearch(b, a[i], 0, |b|)
    case (_, Unknown) => true
    case (_, _) => false
  }

  // ----- the reference order

  ghost predicate AliasBelow(a: ReturnAlias, b: ReturnAlias) {
    a == Fresh || b == Unknown || (a.AliasParams? && b.AliasParams? && SeqSet(a.indices) <= SeqSet(b.indices))
  }

  /** Pointwise widening: effects only ever grow, and the declared contract never moves. */
  ghost predicate Below(a: Summary, b: Summary) {
    && |a.parameters| == |b.parameters|
    && (forall i | 0 <= i < |a.parameters| ::
          var p, q := a.parameters[i], b.parameters[i];
          p.access == q.access && p.transfer == q.transfer && (p.mutation == Writes ==> q.mutation == Writes))
    && AliasBelow(a.returnAlias, b.returnAlias)
    && (a.escapes ==> b.escapes)
  }

  ghost predicate Valid(s: Summary) {
    ValidFor(Accesses(s), s)
  }

  /** The subset test by binary search decides set inclusion, because valid lists are increasing. */
  lemma WideningIsAliasBelow(count: nat, a: ReturnAlias, b: ReturnAlias)
    requires ValidAlias(count, a) && ValidAlias(count, b)
    ensures ReturnAliasIsWidening(a, b) <==> AliasBelow(a, b)
  {
    if a.AliasParams? && b.AliasParams? {
      forall i | 0 <= i < |a.indices|
        ensures BinarySearch(b.indices, a.indices[i], 0, |b.indices|) <==> a.indices[i] in SeqSet(b.indices)
      {
        BinarySearchExact(b.indices, a.indices[i], 0, |b.indices|);
      }
      if SeqSet(a.indices) <= SeqSet(b.indices) {
        forall i | 0 <= i < |a.indices| ensures a.indices[i] in SeqSet(b.indices) {
          assert a.indices[i] in SeqSet(a.indices);
        }
      }
    }
  }

  /** A transition is accepted exactly when both sides are valid under one declaration and nothing narrows. */
  method ValidateTransition(previous: Summary, next: Summary) returns (r: Result<Transition>)
    ensures r.Ok? <==> Accepted(previous, next)
    ensures r.Ok? ==> (r.value == Unchanged <==> previous == next)
  {
    var declared := Accesses(previous);
    var check := ValidateSummary(declared, previous);
    if check.Err? {
      return Err(check.error);
    }
    check := ValidateSummary(declared, next);
    if check.Err? {
      return Err(check.error);
    }
    if |previous.parameters| != |next.parameters| {
      return Err(ParameterCount);
    }
    var widened := false;
    if previous.escapes && !next.escapes {
      return Err(NarrowedEscape);
    }
    widened := widened || previous.escapes != next.escapes;
    for i := 0 to |previous.parameters|
      invariant widened <==> previous.escapes != next.escapes || previous.parameters[..i] != next.parameters[..i]
      invariant forall j | 0 <= j < i ::
        var p, q := previous.parameters[j], next.parameters[j];
        p.access == q.access && p.transfer == q.transfer && (p.mutation == Writes ==> q.mutation == Writes)
    {
      var p, q := previous.parameters[i], next.parameters[i];
      if p.access != q.access {
        return Err(ChangedAccess(i));
      }
      if p.transfer != q.transfer {
        return Err(ChangedTransfer(i));
      }
      assert previous.parameters[..i + 1] == previous.parameters[..i] + [p];
      assert next.parameters[..i + 1] == next.parameters[..i] + [q];
      match (p.mutation, q.mutation)
      case (NoWrite, NoWrite) =>
      case (Writes, Writes) =>
      case (NoWrite, Writes) => widened := true;
      case (Writes, NoWrite) => return Err(NarrowedMutation(i));
    }
    assert previous.parameters[..|previous.parameters|] == previous.parameters;
    assert next.parameters[..|next.parameters|] == next.parameters;
    WideningIsAliasBelow(|declared|, previous.returnAlias, next.returnAlias);
    if !ReturnAliasIsWidening(previous.returnAlias, next.returnAlias) {
      return Err(NarrowedAlias);
    }
    if previous.returnAlias != next.returnAlias {
      widened := true;
    }
    r := Ok(if widened then Widened else Unchanged);
  }

  // ----- a partial order

  /** The elements of an increasing list below its last one are those of its front. */
  lemma FrontSet(s: seq<nat>)
    requires Increasing(s) && s != []
    ensures Increasing(s[..|s| - 1]) && SeqSet(s[..|s| - 1]) == SeqSet(s) - {s[|s| - 1]}
    ensures s[|s| - 1] in SeqSet(s) && forall x | x in SeqSet(s) :: x <= s[|s| - 1]
  {
    assert s == s[..|s| - 1] + [s[|s| - 1]];
  }

  /** Drop the largest element of `b`, and of `a` when they share it. */
  lemma {:induction false} SubsetIsShorter(a: seq<nat>, b: seq<nat>)
    requires Increasing(a) && Increasing(b) && SeqSet(a) <= SeqSet(b)
    ensures |a| <= |b| && (|a| == |b| ==> a == b)
    decreases |b|
  {
    if a != [] {
      FrontSet(a);
      assert b != [];
      FrontSet(b);
      var m, n := |a| - 1, |b| - 1;
      if a[m] == b[n] {
        SubsetIsShorter(a[..m], b[..n]);
        assert a == a[..m] + [a[m]] && b == b[..n] + [b[n]];
      } else {
        SubsetIsShorter(a, b[..n]);
      }
    }
  }

  lemma BelowReflexive(a: Summary)
    ensures Below(a, a)
  {
  }

  lemma BelowTransitive(a: Summary, b: Summary, c: Summary)
    requires Valid(a) && Valid(b) && Valid(c) && Below(a, b) && Below(b, c)
    ensures Below(a, c)
  {
    if b.returnAlias == Fresh && a.returnAlias.AliasParams? {
      assert false;
    }
  }

  lemma BelowAntisymmetric(a: Summary, b: Summary)
    requires Valid(a) && Valid(b) && Below(a, b) && Below(b, a)
    ensures a == b
  {
    if a.returnAlias.AliasParams? && b.returnAlias.AliasParams? {
      SubsetIsShorter(a.returnAlias.indices, b.returnAlias.indices);
      SubsetIsShorter(b.returnAlias.indices, a.returnAlias.indices);
    }
    assert a.parameters == b.parameters;
  }

  // ----- finite height

  function CountWrites(ps: seq<Parameter>): nat {
    if ps == [] then 0 else (if ps[0].mutation == Writes then 1 else 0) + CountWrites(ps[1..])
  }

  function CountMutable(ps: seq<Parameter>): nat {
    if ps == [] then 0 else (if ps[0].access == Mutable then 1 else 0) + CountMutable(ps[1..])
  }

  function AliasHeight(count: nat, a: ReturnAlias): nat {
    match a
    case Fresh => 0
    case AliasParams(indices) => |indices|
    case Unknown => count + 1
  }

  function Height(s: Summary): nat {
    (if s.escapes then 1 else 0) + CountWrites(s.parameters) + AliasHeight(|s.parameters|, s.returnAlias)
  }

  lemma {:induction false} WritesGrow(ps: seq<Parameter>, qs: seq<Parameter>)
    requires |ps| == |qs|
    requires forall i | 0 <= i < |ps| :: ps[i].access == qs[i].access && ps[i].transfer == qs[i].transfer
    requires forall i | 0 <= i < |ps| && ps[i].mutation == Writes :: qs[i].mutation == Writes
    ensures CountWrites(ps) <= CountWrites(qs) && (CountWrites(ps) == CountWrites(qs) ==> ps == qs)
  {
    if ps != [] {
      WritesGrow(ps[1..], qs[1..]);
      assert ps == [ps[0]] + ps[1..] && qs == [qs[0]] + qs[1..];
    }
  }

  lemma {:induction false} OnlyMutableWrites(ps: seq<Parameter>)
    requires forall i | 0 <= i < |ps| :: ps[i].access == Shared ==> ps[i].mutation == NoWrite
    ensures CountWrites(ps) <= CountMutable(ps)
  {
    if ps != [] {
      OnlyMutableWrites(ps[1..]);
    }
  }

  /** Increasing indices below `count` number at most `count`. */
  lemma {:induction false} IndicesFit(s: seq<nat>, count: nat)
    requires Increasing(s) && forall i | 0 <= i < |s| :: s[i] < count
    ensures |s| <= count
  {
    if s != [] {
      var n := |s| - 1;
      IndicesFit(s[..n], s[n]);
    }
  }

  lemma StrictlyBelowIsLower(a: Summary, b: Summary)
    requires Valid(a) && Valid(b) && Below(a, b)
    ensures Height(a) <= Height(b) && (a != b ==> Height(a) < Height(b))
  {
    WritesGrow(a.parameters, b.parameters);
    if a.returnAlias.AliasParams? {
      IndicesFit(a.returnAlias.indices, |a.parameters|);
      if b.returnAlias.AliasParams? {
        SubsetIsShorter(a.returnAlias.indices, b.returnAlias.indices);
      }
    }
  }

  lemma HeightBound(s: Summary)
    requires Valid(s)
    ensures Height(s) <= CountMutable(s.parameters) + |s.parameters| + 2
  {
    OnlyMutableWrites(s.parameters);
    if s.returnAlias.AliasParams? {
      IndicesFit(s.returnAlias.indices, |s.parameters|);
    }
  }

  /** What a successful transition check establishes. */
  ghost predicate Accepted(a: Summary, b: Summary) {
    Valid(a) && ValidFor(Accesses(a), b) && Below(a, b)
  }

  lemma AcceptedStep(a: Summary, b: Summary)
    requires Accepted(a, b)
    ensures Valid(b)
    ensures (Accesses(a), |a.parameters|, CountMutable(a.parameters)) ==
            (Accesses(b), |b.parameters|, CountMutable(b.parameters))
    ensures Height(a) <= Height(b) && (a != b ==> Height(a) < Height(b))
  {
    assert Accesses(a) == Accesses(b);
    StrictlyBelowIsLower(a, b);
    SameMutable(a.parameters, b.parameters);
  }

  /** A convergence run: every retained summary was accepted as a successor of the one before. */
  ghost predicate Run(run: seq<Summary>) {
    && run != [] && Valid(run[0])
    && forall i | 0 <= i < |run| - 1 :: Accepted(run[i], run[i + 1])
  }

  ghost function WidenedSteps(run: seq<Summary>): nat {
    if |run| < 2 then 0
    else
      var n := |run| - 1;
      WidenedSteps(run[..n]) + if run[n - 1] != run[n] then 1 else 0
  }

  lemma {:induction false} StepsClimb(run: seq<Summary>)
    requires Run(run)
    ensures Valid(run[|run| - 1])
    ensures (|run[|run| - 1].parameters|, CountMutable(run[|run| - 1].parameters)) ==
            (|run[0].parameters|, CountMutable(run[0].parameters))
    ensures WidenedSteps(run) <= Height(run[|run| - 1])
  {
    if |run| > 1 {
      var n := |run| - 1;
      StepsClimb(run[..n]);
      assert Accepted(run[n - 1], run[n - 1 + 1]);
      AcceptedStep(run[n - 1], run[n]);
    }
  }

  lemma {:induction false} SameMutable(ps: seq<Parameter>, qs: seq<Parameter>)
    requires |ps| == |qs| && forall i | 0 <= i < |ps| :: ps[i].access == qs[i].access
    ensures CountMutable(ps) == CountMutable(qs)
  {
    if ps != [] {
      SameMutable(ps[1..], qs[1..]);
    }
  }

  /** With n parameters, m of them mutable, no run widens more than m + n + 2 times. */
  lemma ConvergenceBound(run: seq<Summary>)
    requires Run(run)
    ensures WidenedSteps(run) <= CountMutable(run[0].parameters) + |run[0].parameters| + 2
  {
    StepsClimb(run);
    HeightBound(run[|run| - 1]);
  }

  // ----- the bound is reached

  /** The first `w` mutable positions write. */
  function WritesUpTo(declared: seq<Access>, w: nat): seq<Parameter> {
    seq(|declared|, i requires 0 <= i < |declared| =>
      Parameter(declared[i], if declared[i] == Mutable && i < w then Writes else NoWrite, MayConsume))
  }

  function FirstIndices(k: nat): seq<nat> {
    seq(k, i => i)
  }

  /** Alias every parameter in turn, then give up. */
  function AliasStage(n: nat, k: nat): ReturnAlias {
    if k == 0 then Fresh else if k <= n then AliasParams(FirstIndices(k)) else Unknown
  }

  /** Stage `k` of the slowest climb: every write first, then every alias, then the escape. */
  function Stage(declared: seq<Access>, k: nat): Summary {
    var n := |declared|;
    Summary(WritesUpTo(declared, k), AliasStage(n, if k <= n then 0 else k - n), k > 2 * n + 1)
  }

  lemma {:induction false} OneMoreWrite(declared: seq<Access>, w: nat)
    ensures var before, after := CountWrites(WritesUpTo(declared, w)), CountWrites(WritesUpTo(declared, w + 1));
            before <= after <= before + 1
    ensures w >= |declared| ==> WritesUpTo(declared, w + 1) == WritesUpTo(declared, w)
    decreases |declared|
  {
    if declared != [] {
      var rest := declared[1..];
      assert WritesUpTo(declared, w + 1)[1..] == WritesUpTo(rest, w);
      if w == 0 {
        assert WritesUpTo(declared, 0)[1..] == WritesUpTo(rest, 0);
      } else {
        assert WritesUpTo(declared, w)[1..] == WritesUpTo(rest, w - 1);
        OneMoreWrite(rest, w - 1);
      }
    }
  }

  lemma {:induction false} CountsAtEnds(declared: seq<Access>, w: nat)
    requires w >= |declared|
    ensures CountWrites(WritesUpTo(declared, 0)) == 0
    ensures CountWrites(WritesUpTo(declared, w)) == CountMutable(WritesUpTo(declared, w))
    decreases |declared|
  {
    if declared != [] {
      var rest := declared[1..];
      assert WritesUpTo(declared, 0)[1..] == WritesUpTo(rest, 0);
      assert WritesUpTo(declared, w)[1..] == WritesUpTo(rest, w - 1);
      CountsAtEnds(rest, w - 1);
    }
  }

  lemma FirstIndicesGrow(k: nat)
    ensures SeqSet(FirstIndices(k)) <= SeqSet(FirstIndices(k + 1))
  {
    assert FirstIndices(k) == FirstIndices(k + 1)[..k];
  }

  /** Each stage is a legal successor of the one before and climbs at most one level. */
  lemma StageClimbs(declared: seq<Access>, k: nat)
    requires k < 2 * |declared| + 2
    ensures Accepted(Stage(declared, k), Stage(declared, k + 1)) && Accesses(Stage(declared, k)) == declared
    ensures ClimbsOne(Stage(declared, k), Stage(declared, k + 1))
  {
    OneMoreWrite(declared, k);
    var n := |declared|;
    if n < k {
      FirstIndicesGrow(k - n);
    }
  }

  ghost predicate ClimbsOne(a: Summary, b: Summary) {
    Height(b) <= Height(a) + 1
  }

  ghost predicate ClimbsSlowly(run: seq<Summary>) {
    forall i | 0 <= i < |run| - 1 :: ClimbsOne(run[i], run[i + 1])
  }

  /** When no step climbs more than one level, every level gained is one widened step. */
  lemma {:induction false} StepsCountLevels(run: seq<Summary>)
    requires Run(run) && ClimbsSlowly(run)
    ensures WidenedSteps(run) == Height(run[|run| - 1]) - Height(run[0])
  {
    if |run| > 1 {
      StepsCountLevels(run[..|run| - 1]);
      AcceptedStep(run[|run| - 2], run[|run| - 1]);
    }
  }

  ghost function SlowestClimb(declared: seq<Access>): seq<Summary> {
    seq(2 * |declared| + 3, k requires 0 <= k => Stage(declared, k))
  }

  lemma ClimbIsRun(declared: seq<Access>)
    ensures Run(SlowestClimb(declared)) && ClimbsSlowly(SlowestClimb(declared))
  {
    var run := SlowestClimb(declared);
    forall k | 0 <= k < |run| - 1 ensures Accepted(run[k], run[k + 1]) && ClimbsOne(run[k], run[k + 1]) {
      StageClimbs(declared, k);
    }
    StageClimbs(declared, 0);
  }

  lemma ClimbHeight(declared: seq<Access>)
    ensures var bottom, top := Stage(declared, 0), Stage(declared, 2 * |declared| + 2);
            && Height(top) - Height(bottom) == CountMutable(bottom.parameters) + |declared| + 2
            && Accesses(bottom) == declared
  {
    var last := 2 * |declared| + 2;
    CountsAtEnds(declared, last);
    SameMutable(WritesUpTo(declared, 0), WritesUpTo(declared, last));
  }

  lemma ClimbEnds(declared: seq<Access>)
    ensures var run, last := SlowestClimb(declared), 2 * |declared| + 2;
            |run| == last + 1 && run[0] == Stage(declared, 0) && run[last] == Stage(declared, last)
  {
  }

  /** For every declaration some run does widen m + n + 2 times, so the bound cannot be improved. */
  lemma BoundIsReached(declared: seq<Access>)
    ensures exists run: seq<Summary> ::
              Run(run) && Accesses(run[0]) == declared &&
              WidenedSteps(run) == CountMutable(run[0].parameters) + |declared| + 2
  {
    var run := SlowestClimb(declared);
    ClimbEnds(declared);
    assert Run(run) && WidenedSteps(run) == Height(run[|run| - 1]) - Height(run[0]) by {
      ClimbIsRun(declared);
      StepsCountLevels(run);
    }
    ClimbHeight(declared);
    assert Accesses(run[0]) == declared;
  }
}
