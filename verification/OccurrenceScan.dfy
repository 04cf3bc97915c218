/**
 The reachable-HIR scan behind every type-shape gate: one traversal that prefers the first
 source-mapped unsupported value and keeps the first spanless one as a fallback.
 */
module OccurrenceScan {
  import opened Collections
  import opened BackendTypes

  type Span = nat
  type LocalId = nat
  type BlockId = nat

  /** One expression row with its child values in source order. */
  datatype Expr = Expr(ty: TypeId, span: Option<Span>, isRoute: bool, children: seq<Expr>)

  datatype Local = Local(id: LocalId, ty: TypeId, span: Option<Span>)

  datatype WriteTarget = DefineLocal | AssignPlace(indexes: seq<Expr>)

  datatype NumericOperands = Unary(operand: Expr) | Binary(left: Expr, right: Expr)

  datatype StatementKind =
    | Write(target: WriteTarget, value: Expr)
    | Call(args: seq<Expr>)
    | Evaluate(value: Expr)
    | PushRuntimeFragment(value: Expr)
    | FormatFloat(source: Expr)
    | ValidateFloat(source: Expr)
    | MapOp(receiver: Expr, args: seq<Expr>)
    | NumericOp(operands: NumericOperands, result: LocalId)
    | LoopStepFailure(result: LocalId)
    | RangeCandidate(current: Expr, step: Expr, end: Expr, candidateResult: LocalId, inRangeResult: LocalId)

  datatype Statement = Statement(kind: StatementKind, span: Option<Span>)

  /** `pattern` is the single value a pattern compares against, if it has one. */
  datatype Arm = Arm(pattern: Option<Expr>, guard: Option<Expr>)

  datatype Terminator =
    | If(condition: Expr)
    | Return(results: seq<Expr>)
    | Invoke(operands: seq<Expr>, span: Option<Span>)
    | ReturnError(result: Expr)
    | Match(scrutinee: Expr, arms: seq<Arm>)
    | AssertFailure(message: Expr)
    | Silent

  datatype Block = Block(id: BlockId, locals: seq<Local>, statements: seq<Statement>, terminator: Terminator)

  // ----- what a statement or terminator holds

  /** `e` is one of the statement's expression fields. */
  ghost predicate Holds(kind: StatementKind, e: Expr) {
    match kind
    case Write(target, value) => e == value || (target.AssignPlace? && e in target.indexes)
    case Call(args) => e in args
    case Evaluate(value) => e == value
    case PushRuntimeFragment(value) => e == value
    case FormatFloat(source) => e == source
    case ValidateFloat(source) => e == source
    case MapOp(receiver, args) => e == receiver || e in args
    case NumericOp(Unary(operand), _) => e == operand
    case NumericOp(Binary(left, right), _) => e == left || e == right
    case LoopStepFailure(_) => false
    case RangeCandidate(current, step, end, _, _) => e == current || e == step || e == end
  }

  /** `e` is one of the terminator's expression fields, or a pattern or guard of one of its arms. */
  ghost predicate TerminatorHolds(t: Terminator, e: Expr) {
    match t
    case If(condition) => e == condition
    case Return(results) => e in results
    case Invoke(operands, _) => e in operands
    case ReturnError(result) => e == result
    case Match(scrutinee, arms) => e == scrutinee || ArmHolds(arms, e)
    case AssertFailure(message) => e == message
    case Silent => false
  }

  ghost predicate ArmHolds(arms: seq<Arm>, e: Expr) {
    exists i :: 0 <= i < |arms| && (arms[i].pattern == Some(e) || arms[i].guard == Some(e))
  }

  /** The statement's operation produces that local. */
  ghost predicate Produces(kind: StatementKind, id: LocalId) {
    match kind
    case NumericOp(_, result) => id == result
    case LoopStepFailure(result) => id == result
    case RangeCandidate(_, _, _, candidate, inRange) => id == candidate || id == inRange
    case _ => false
  }

  // ----- scanned positions, in scan order

  function OptionExpr(e: Option<Expr>): seq<Expr> {
    match e case None => [] case Some(x) => [x]
  }

  ghost function Operands(kind: StatementKind): seq<Expr> {
    match kind
    case Write(DefineLocal, value) => [value]
    case Write(AssignPlace(indexes), value) => indexes + [value]
    case Call(args) => args
    case Evaluate(value) => [value]
    case PushRuntimeFragment(value) => [value]
    case FormatFloat(source) => [source]
    case ValidateFloat(source) => [source]
    case MapOp(receiver, args) => [receiver] + args
    case NumericOp(Unary(operand), _) => [operand]
    case NumericOp(Binary(left, right), _) => [left, right]
    case LoopStepFailure(_) => []
    case RangeCandidate(current, step, end, _, _) => [current, step, end]
  }

  /** Locals whose producing statement is consulted before its operands. */
  ghost function ResultLocals(kind: StatementKind): seq<LocalId> {
    match kind
    case NumericOp(_, result) => [result]
    case LoopStepFailure(result) => [result]
    case RangeCandidate(_, _, _, candidate, inRange) => [candidate, inRange]
    case _ => []
  }

  /** Statements whose own span is preferred over their operands' spans. */
  ghost predicate Anchors(kind: StatementKind) {
    kind.NumericOp? || kind.RangeCandidate?
  }

  ghost function ArmOperands(arms: seq<Arm>): seq<Expr> {
    if arms == [] then []
    else OptionExpr(arms[0].pattern) + OptionExpr(arms[0].guard) + ArmOperands(arms[1..])
  }

  ghost function TerminatorOperands(t: Terminator): seq<Expr> {
    match t
    case If(condition) => [condition]
    case Return(results) => results
    case Invoke(operands, _) => operands
    case ReturnError(result) => [result]
    case Match(scrutinee, arms) => [scrutinee] + ArmOperands(arms)
    case AssertFailure(message) => [message]
    case Silent => []
  }

  /** Exactly the fields of a statement are scanned, and exactly the locals it produces are consulted. */
  lemma OperandsAreHeld(kind: StatementKind)
    ensures forall e :: e in Operands(kind) <==> Holds(kind, e)
    ensures forall id :: id in ResultLocals(kind) <==> Produces(kind, id)
  {
  }

  /** Exactly the fields, patterns and guards of a terminator are scanned. */
  lemma {:induction false} TerminatorOperandsAreHeld(t: Terminator)
    ensures forall e :: e in TerminatorOperands(t) <==> TerminatorHolds(t, e)
  {
    if t.Match? {
      ArmOperandsAreHeld(t.arms);
    }
  }

  lemma {:induction false} ArmOperandsAreHeld(arms: seq<Arm>)
    ensures forall e :: e in ArmOperands(arms) <==> ArmHolds(arms, e)
  {
    if arms != [] {
      ArmOperandsAreHeld(arms[1..]);
      forall e ensures ArmHolds(arms, e) <==> arms[0].pattern == Some(e) || arms[0].guard == Some(e) ||
                                              ArmHolds(arms[1..], e) {
        assert forall i | 1 <= i < |arms| :: arms[i] == arms[1..][i - 1];
      }
    }
  }

  /** Indexes come before the written value, a receiver before its arguments, left before right, current, step, end. */
  lemma OperandOrder(kind: StatementKind)
    ensures kind.Write? && kind.target.AssignPlace? ==>
              && (forall i | 0 <= i < |kind.target.indexes| :: Operands(kind)[i] == kind.target.indexes[i])
              && Operands(kind)[|kind.target.indexes|] == kind.value
    ensures kind.MapOp? ==>
              Operands(kind)[0] == kind.receiver &&
              forall i | 0 <= i < |kind.args| :: Operands(kind)[i + 1] == kind.args[i]
    ensures kind.NumericOp? && kind.operands.Binary? ==>
              Operands(kind)[0] == kind.operands.left && Operands(kind)[1] == kind.operands.right
    ensures kind.RangeCandidate? ==>
              && Operands(kind)[0] == kind.current && Operands(kind)[1] == kind.step && Operands(kind)[2] == kind.end
              && ResultLocals(kind)[0] == kind.candidateResult && ResultLocals(kind)[1] == kind.inRangeResult
  {
  }

  lemma {:induction false} ArmConcat(a: seq<Arm>, b: seq<Arm>)
    ensures ArmOperands(a + b) == ArmOperands(a) + ArmOperands(b)
  {
    if a == [] {
      assert a + b == b;
    } else {
      assert (a + b)[1..] == a[1..] + b;
      ArmConcat(a[1..], b);
    }
  }

  /** A scrutinee comes before the arms, earlier arms before later ones, and a pattern before its guard. */
  lemma {:induction false} ArmOrder(scrutinee: Expr, before: seq<Arm>, arm: Arm, after: seq<Arm>)
    ensures TerminatorOperands(Match(scrutinee, before + ([arm] + after))) ==
            [scrutinee] + (ArmOperands(before) + (OptionExpr(arm.pattern) + OptionExpr(arm.guard) + ArmOperands(after)))
  {
    ArmConcat(before, [arm] + after);
    assert ([arm] + after)[1..] == after;
  }

  // ----- what a scan is looking for, independent of how it walks

  /** `skip` enables the shortcut that ignores result locals while no spanless hit exists. */
  datatype Mode = Mode(bad: iset<TypeId>, routes: bool, skip: bool)

  ghost predicate InTree(m: Mode, e: Expr) {
    (m.routes && e.isRoute) || e.ty in m.bad || exists c :: c in e.children && InTree(m, c)
  }

  ghost predicate InForest(m: Mode, es: seq<Expr>) {
    exists e :: e in es && InTree(m, e)
  }

  ghost predicate BadLocal(m: Mode, locals: seq<Local>) {
    exists i :: 0 <= i < |locals| && locals[i].ty in m.bad
  }

  ghost predicate InStatement(m: Mode, kind: StatementKind) {
    exists e :: Holds(kind, e) && InTree(m, e)
  }

  ghost predicate InStatements(m: Mode, sts: seq<Statement>) {
    exists i :: 0 <= i < |sts| && InStatement(m, sts[i].kind)
  }

  ghost predicate InBlock(m: Mode, b: Block) {
    || BadLocal(m, b.locals)
    || InStatements(m, b.statements)
    || (exists e :: TerminatorHolds(b.terminator, e) && InTree(m, e))
  }

  ghost predicate InBlocks(m: Mode, blocks: seq<Block>, selected: set<BlockId>) {
    exists i :: 0 <= i < |blocks| && blocks[i].id in selected && InBlock(m, blocks[i])
  }

  // ----- the scan as a state transformer

  datatype Occurrence = Occurrence(span: Option<Span>)
  datatype Search = Search(fallback: Option<Occurrence>, count: nat)
  datatype Step = Step(search: Search, hit: Option<Occurrence>)

  function RecordAt(s: Search, span: Option<Span>): Step {
    var o := Occurrence(span);
    if span.Some? then Step(s.(count := s.count + 1), Some(o))
    else Step(Search(if s.fallback.None? then Some(o) else s.fallback, s.count + 1), None)
  }

  ghost function CheckAt(m: Mode, s: Search, t: TypeId, span: Option<Span>): Step {
    if t in m.bad then RecordAt(s, span) else Step(s, None)
  }

  ghost function Tree(m: Mode, s: Search, e: Expr): Step
    decreases e, 1
  {
    if m.routes && e.isRoute then RecordAt(s, e.span)
    else
      var here := CheckAt(m, s, e.ty, e.span);
      if here.hit.Some? then here else Forest(m, here.search, e.children)
  }

  ghost function Forest(m: Mode, s: Search, es: seq<Expr>): Step
    decreases es, 0
  {
    if es == [] then Step(s, None)
    else
      var first := Tree(m, s, es[0]);
      if first.hit.Some? then first else Forest(m, first.search, es[1..])
  }

  ghost function Locals(m: Mode, s: Search, locals: seq<Local>): Step
    decreases |locals|
  {
    if locals == [] then Step(s, None)
    else
      var first := CheckAt(m, s, locals[0].ty, locals[0].span);
      if first.hit.Some? then first else Locals(m, first.search, locals[1..])
  }

  function FindLocal(locals: seq<Local>, id: LocalId): (r: Option<Local>)
    ensures r.None? <==> forall i | 0 <= i < |locals| :: locals[i].id != id
    ensures r.Some? ==>
              exists i :: 0 <= i < |locals| && locals[i] == r.value && r.value.id == id &&
                          forall j | 0 <= j < i :: locals[j].id != id
  {
    if locals == [] then None
    else if locals[0].id == id then Some(locals[0])
    else FindLocal(locals[1..], id)
  }

  ghost function Lookups(m: Mode, s: Search, locals: seq<Local>, ids: seq<LocalId>, span: Option<Span>): Step
    decreases |ids|
  {
    if ids == [] then Step(s, None)
    else
      var found := FindLocal(locals, ids[0]);
      var first := if (m.skip && s.fallback.None?) || found.None? then Step(s, None)
                   else CheckAt(m, s, found.value.ty, span);
      if first.hit.Some? then first else Lookups(m, first.search, locals, ids[1..], span)
  }

  lemma LookupsPair(m: Mode, s: Search, locals: seq<Local>, a: LocalId, b: LocalId, span: Option<Span>)
    ensures var first := Lookups(m, s, locals, [a], span);
            Lookups(m, s, locals, [a, b], span) ==
            if first.hit.Some? then first else Lookups(m, first.search, locals, [b], span)
  {
    assert [a, b][1..] == [b];
  }

  /** A producing operation's own span wins over, and rescues, its operands' occurrences. */
  function Anchored(before: Search, r: Step, span: Option<Span>): Step {
    if r.hit.Some? then Step(r.search, Some(Occurrence(if span.Some? then span else r.hit.value.span)))
    else if r.search.count > before.count && span.Some? then Step(r.search, Some(Occurrence(span)))
    else r
  }

  ghost function StatementScan(m: Mode, s: Search, locals: seq<Local>, st: Statement): Step {
    var produced := Lookups(m, s, locals, ResultLocals(st.kind), st.span);
    if produced.hit.Some? then produced
    else
      var r := Forest(m, produced.search, Operands(st.kind));
      if Anchors(st.kind) then Anchored(produced.search, r, st.span) else r
  }

  ghost function Statements(m: Mode, s: Search, locals: seq<Local>, sts: seq<Statement>): Step
    decreases |sts|
  {
    if sts == [] then Step(s, None)
    else
      var first := StatementScan(m, s, locals, sts[0]);
      if first.hit.Some? then first else Statements(m, first.search, locals, sts[1..])
  }

  ghost function TerminatorScan(m: Mode, s: Search, t: Terminator): Step {
    var r := Forest(m, s, TerminatorOperands(t));
    if t.Invoke? then Anchored(s, r, t.span) else r
  }

  ghost function BlockScan(m: Mode, s: Search, b: Block): Step {
    var ls := Locals(m, s, b.locals);
    if ls.hit.Some? then ls
    else
      var ss := Statements(m, ls.search, b.locals, b.statements);
      if ss.hit.Some? then ss else TerminatorScan(m, ss.search, b.terminator)
  }

  ghost function Blocks(m: Mode, s: Search, blocks: seq<Block>, selected: set<BlockId>): Step
    decreases |blocks|
  {
    if blocks == [] then Step(s, None)
    else
      var first := if blocks[0].id in selected then BlockScan(m, s, blocks[0]) else Step(s, None);
      if first.hit.Some? then first else Blocks(m, first.search, blocks[1..], selected)
  }

  // ----- the scan is sound and complete

  /** Something was counted: it is reported with an authored span, or kept as the fallback; the first fallback stays. */
  ghost predicate Noted(s: Search, r: Step) {
    && s.count < r.search.count
    && (if r.hit.Some? then r.hit.value.span.Some? else r.search.fallback.Some?)
    && (s.fallback.Some? ==> r.search.fallback == s.fallback)
  }

  /** Either nothing happened, or something occurs and was noted. */
  ghost predicate Sound(s: Search, r: Step, occurs: bool) {
    r == Step(s, None) || (occurs && Noted(s, r))
  }

  /** Noted exactly when something occurs. */
  ghost predicate Exact(s: Search, r: Step, occurs: bool) {
    (occurs && Noted(s, r)) || (!occurs && r == Step(s, None))
  }

  lemma {:induction false} TreeExact(m: Mode, s: Search, e: Expr)
    ensures Exact(s, Tree(m, s, e), InTree(m, e))
    decreases e, 1
  {
    var here := CheckAt(m, s, e.ty, e.span);
    ForestExact(m, here.search, e.children);
  }

  lemma {:induction false} ForestExact(m: Mode, s: Search, es: seq<Expr>)
    ensures Exact(s, Forest(m, s, es), InForest(m, es))
    decreases es, 0
  {
    if es != [] {
      TreeExact(m, s, es[0]);
      ForestExact(m, Tree(m, s, es[0]).search, es[1..]);
      assert InForest(m, es) <==> InTree(m, es[0]) || InForest(m, es[1..]) by {
        assert es == [es[0]] + es[1..];
      }
    }
  }

  lemma {:induction false} LocalsExact(m: Mode, s: Search, locals: seq<Local>)
    ensures Exact(s, Locals(m, s, locals), BadLocal(m, locals))
    decreases |locals|
  {
    if locals != [] {
      LocalsExact(m, CheckAt(m, s, locals[0].ty, locals[0].span).search, locals[1..]);
      assert BadLocal(m, locals) <==> locals[0].ty in m.bad || BadLocal(m, locals[1..]) by {
        assert forall i | 1 <= i < |locals| :: locals[i] == locals[1..][i - 1];
      }
    }
  }

  lemma {:induction false} LookupsSound(m: Mode, s: Search, locals: seq<Local>, ids: seq<LocalId>, span: Option<Span>)
    ensures Sound(s, Lookups(m, s, locals, ids, span), BadLocal(m, locals))
    decreases |ids|
  {
    if ids != [] {
      var found := FindLocal(locals, ids[0]);
      var first := if (m.skip && s.fallback.None?) || found.None? then Step(s, None)
                   else CheckAt(m, s, found.value.ty, span);
      LookupsSound(m, first.search, locals, ids[1..], span);
    }
  }

  lemma StatementSound(m: Mode, s: Search, locals: seq<Local>, st: Statement)
    ensures var r := StatementScan(m, s, locals, st);
            && Sound(s, r, BadLocal(m, locals) || InStatement(m, st.kind))
            && (InStatement(m, st.kind) ==> s.count < r.search.count)
  {
    OperandsAreHeld(st.kind);
    LookupsSound(m, s, locals, ResultLocals(st.kind), st.span);
    ForestExact(m, Lookups(m, s, locals, ResultLocals(st.kind), st.span).search, Operands(st.kind));
  }

  lemma {:induction false} StatementsSound(m: Mode, s: Search, locals: seq<Local>, sts: seq<Statement>)
    ensures var r := Statements(m, s, locals, sts);
            && Sound(s, r, BadLocal(m, locals) || InStatements(m, sts))
            && (InStatements(m, sts) ==> s.count < r.search.count)
    decreases |sts|
  {
    if sts != [] {
      StatementSound(m, s, locals, sts[0]);
      StatementsSound(m, StatementScan(m, s, locals, sts[0]).search, locals, sts[1..]);
      assert InStatements(m, sts) <==> InStatement(m, sts[0].kind) || InStatements(m, sts[1..]) by {
        assert forall i | 1 <= i < |sts| :: sts[i] == sts[1..][i - 1];
      }
    }
  }

  lemma BlockExact(m: Mode, s: Search, b: Block)
    ensures Exact(s, BlockScan(m, s, b), InBlock(m, b))
  {
    LocalsExact(m, s, b.locals);
    var ls := Locals(m, s, b.locals);
    StatementsSound(m, ls.search, b.locals, b.statements);
    var ss := Statements(m, ls.search, b.locals, b.statements);
    TerminatorOperandsAreHeld(b.terminator);
    ForestExact(m, ss.search, TerminatorOperands(b.terminator));
  }

  lemma {:induction false} BlocksExact(m: Mode, s: Search, blocks: seq<Block>, selected: set<BlockId>)
    ensures Exact(s, Blocks(m, s, blocks, selected), InBlocks(m, blocks, selected))
    decreases |blocks|
  {
    if blocks != [] {
      var first := if blocks[0].id in selected then BlockScan(m, s, blocks[0]) else Step(s, None);
      BlockExact(m, s, blocks[0]);
      BlocksExact(m, first.search, blocks[1..], selected);
      assert InBlocks(m, blocks, selected) <==>
             (blocks[0].id in selected && InBlock(m, blocks[0])) || InBlocks(m, blocks[1..], selected) by {
        assert forall i | 1 <= i < |blocks| :: blocks[i] == blocks[1..][i - 1];
      }
    }
  }

  // ----- the result-local shortcut never changes an answer

  ghost function NoSkip(m: Mode): Mode {
    m.(skip := false)
  }

  lemma {:induction false} TreeIgnoresSkip(m: Mode, s: Search, e: Expr)
    ensures Tree(m, s, e) == Tree(NoSkip(m), s, e)
    decreases e, 1
  {
    ForestIgnoresSkip(m, CheckAt(m, s, e.ty, e.span).search, e.children);
  }

  lemma {:induction false} ForestIgnoresSkip(m: Mode, s: Search, es: seq<Expr>)
    ensures Forest(m, s, es) == Forest(NoSkip(m), s, es)
    decreases es, 0
  {
    if es != [] {
      TreeIgnoresSkip(m, s, es[0]);
      ForestIgnoresSkip(m, Tree(m, s, es[0]).search, es[1..]);
    }
  }

  lemma {:induction false} LocalsIgnoresSkip(m: Mode, s: Search, locals: seq<Local>)
    ensures Locals(m, s, locals) == Locals(NoSkip(m), s, locals)
    decreases |locals|
  {
    if locals != [] {
      LocalsIgnoresSkip(m, CheckAt(m, s, locals[0].ty, locals[0].span).search, locals[1..]);
    }
  }

  /** With no spanless hit and every local supported, the lookups the shortcut drops change nothing. */
  lemma {:induction false} LookupsSkipSafe(m: Mode, s: Search, locals: seq<Local>, ids: seq<LocalId>,
                                           span: Option<Span>)
    requires s.fallback.None? ==> !BadLocal(m, locals)
    ensures Lookups(m, s, locals, ids, span) == Lookups(NoSkip(m), s, locals, ids, span)
    decreases |ids|
  {
    if ids != [] {
      var found := FindLocal(locals, ids[0]);
      if !m.skip || s.fallback.Some? {
        var first := if found.None? then Step(s, None) else CheckAt(m, s, found.value.ty, span);
        LookupsSkipSafe(m, first.search, locals, ids[1..], span);
      } else {
        LookupsSkipSafe(m, s, locals, ids[1..], span);
      }
    }
  }

  lemma StatementSkipSafe(m: Mode, s: Search, locals: seq<Local>, st: Statement)
    requires s.fallback.None? ==> !BadLocal(m, locals)
    ensures StatementScan(m, s, locals, st) == StatementScan(NoSkip(m), s, locals, st)
  {
    LookupsSkipSafe(m, s, locals, ResultLocals(st.kind), st.span);
    ForestIgnoresSkip(m, Lookups(m, s, locals, ResultLocals(st.kind), st.span).search, Operands(st.kind));
  }

  lemma {:induction false} StatementsSkipSafe(m: Mode, s: Search, locals: seq<Local>, sts: seq<Statement>)
    requires s.fallback.None? ==> !BadLocal(m, locals)
    ensures Statements(m, s, locals, sts) == Statements(NoSkip(m), s, locals, sts)
    decreases |sts|
  {
    if sts != [] {
      StatementSkipSafe(m, s, locals, sts[0]);
      StatementSound(m, s, locals, sts[0]);
      StatementsSkipSafe(m, StatementScan(m, s, locals, sts[0]).search, locals, sts[1..]);
    }
  }

  /** Skipping the result-local lookup while no spanless hit exists leaves every scan result unchanged. */
  lemma {:induction false} SkipNeverChangesAnswer(m: Mode, s: Search, blocks: seq<Block>, selected: set<BlockId>)
    ensures Blocks(m, s, blocks, selected) == Blocks(NoSkip(m), s, blocks, selected)
    decreases |blocks|
  {
    if blocks != [] {
      var b := blocks[0];
      LocalsExact(m, s, b.locals);
      LocalsIgnoresSkip(m, s, b.locals);
      var ls := Locals(m, s, b.locals);
      if ls.hit.None? {
        StatementsSkipSafe(m, ls.search, b.locals, b.statements);
        ForestIgnoresSkip(m, Statements(m, ls.search, b.locals, b.statements).search, TerminatorOperands(b.terminator));
      }
      var first := if b.id in selected then BlockScan(m, s, b) else Step(s, None);
      SkipNeverChangesAnswer(m, first.search, blocks[1..], selected);
    }
  }

  // ----- the scan as the source runs it

  /** Which type predicate a gate supplies. `NoTypes` is the route-only scan. */
  datatype Gate = FixedScalarShape | NumberValues | ErrorValues | GenericValues | NoTypes

  ghost predicate Unsupported(env: Environment, gate: Gate, t: TypeId) {
    match gate
    case FixedScalarShape => !Own(env, t, ContainsFixedScalar) && Contains(env, t, ContainsFixedScalar)
    case NumberValues => Contains(env, t, ContainsNumber)
    case ErrorValues => Contains(env, t, ContainsError)
    case GenericValues => t in env.types && env.types[t].GenericInstance?
    case NoTypes => false
  }

  ghost function ModeOf(env: Environment, gate: Gate, routes: bool): Mode {
    Mode((iset t: TypeId | Unsupported(env, gate, t)), routes, true)
  }

  datatype Occurrences = Occurrences(authored: Option<Occurrence>, spanlessFallback: Option<Occurrence>) {
    function Preferred(): Option<Occurrence> {
      if authored.Some? then authored else spanlessFallback
    }
  }

  /** Children reversed onto the work list, so popping it restores source order. */
  function Reversed(es: seq<Expr>): seq<Expr> {
    seq(|es|, i requires 0 <= i < |es| => es[|es| - 1 - i])
  }

  lemma {:induction false} ForestConcat(m: Mode, s: Search, a: seq<Expr>, b: seq<Expr>)
    ensures Forest(m, s, a + b) ==
            (var r := Forest(m, s, a); if r.hit.Some? then r else Forest(m, r.search, b))
    decreases |a|
  {
    if a == [] {
      assert a + b == b;
    } else {
      assert (a + b)[1..] == a[1..] + b;
      ForestConcat(m, Tree(m, s, a[0]).search, a[1..], b);
    }
  }

  ghost function Weight(es: seq<Expr>): nat {
    if es == [] then 0 else 1 + Weight(es[0].children) + Weight(es[1..])
  }

  lemma {:induction false} WeightConcat(a: seq<Expr>, b: seq<Expr>)
    ensures Weight(a + b) == Weight(a) + Weight(b)
  {
    if a == [] {
      assert a + b == b;
    } else {
      assert (a + b)[1..] == a[1..] + b;
      WeightConcat(a[1..], b);
    }
  }

  /** Scanning a head expression either stops, skips a route, or continues with its children. */
  lemma {:induction false} ForestHead(m: Mode, s: Search, e: Expr, rest: seq<Expr>)
    ensures var all := Forest(m, s, [e] + rest);
            if m.routes && e.isRoute then
              var r := RecordAt(s, e.span); all == if r.hit.Some? then r else Forest(m, r.search, rest)
            else
              var r := CheckAt(m, s, e.ty, e.span);
              all == if r.hit.Some? then r else Forest(m, r.search, e.children + rest)
    ensures Weight(e.children + rest) < Weight([e] + rest) && Weight(rest) < Weight([e] + rest)
  {
    assert ([e] + rest)[1..] == rest;
    ForestConcat(m, CheckAt(m, s, e.ty, e.span).search, e.children, rest);
    WeightConcat(e.children, rest);
  }

  /** What is still to scan, in source order: the next expression, then the pending siblings from the top. */
  function Frontier(next: Option<Expr>, pending: seq<Expr>): seq<Expr> {
    OptionExpr(next) + Reversed(pending)
  }

  lemma FrontierPop(pending: seq<Expr>)
    requires pending != []
    ensures Frontier(None, pending) == [pending[|pending| - 1]] + Reversed(pending[..|pending| - 1])
  {
  }

  lemma FrontierPush(below: seq<Expr>, pending: seq<Expr>)
    ensures below == [] ==> Frontier(None, pending) == below + Reversed(pending)
    ensures below != [] ==> Frontier(Some(below[0]), pending + Reversed(below[1..])) == below + Reversed(pending)
  {
    if below != [] {
      assert Reversed(pending + Reversed(below[1..])) == below[1..] + Reversed(pending);
      assert below == [below[0]] + below[1..];
    }
  }

  class TypeOccurrenceSearch {
    const facts: BackendTypeFacts
    const gate: Gate
    const rejectRoutes: bool
    var spanlessFallback: Option<Occurrence>
    var unsupportedCount: nat

    constructor (facts: BackendTypeFacts, gate: Gate, rejectRoutes: bool)
      ensures this.facts == facts && this.gate == gate && this.rejectRoutes == rejectRoutes
      ensures State() == Search(None, 0)
    {
      this.facts := facts;
      this.gate := gate;
      this.rejectRoutes := rejectRoutes;
      spanlessFallback := None;
      unsupportedCount := 0;
    }

    ghost predicate Ready()
      reads this, facts
    {
      facts.Valid() && facts.visiting == {}
    }

    ghost function State(): Search
      reads this
    {
      Search(spanlessFallback, unsupportedCount)
    }

    ghost function M(): Mode {
      ModeOf(facts.env, gate, rejectRoutes)
    }

    method Record(span: Option<Span>) returns (hit: Option<Occurrence>)
      modifies this
      ensures Step(State(), hit) == RecordAt(old(State()), span)
    {
      unsupportedCount := unsupportedCount + 1;
      if span.Some? {
        hit := Some(Occurrence(span));
      } else {
        if spanlessFallback.None? {
          spanlessFallback := Some(Occurrence(span));
        }
        hit := None;
      }
    }

    method IsUnsupported(t: TypeId) returns (bad: bool)
      requires Ready()
      modifies facts
      ensures Ready() && (bad <==> t in M().bad)
    {
      match gate
      case FixedScalarShape => bad := facts.IsUnsupportedFixedScalarShape(t);
      case NumberValues => bad := facts.Query(t, ContainsNumber);
      case ErrorValues => bad := facts.Query(t, ContainsError);
      case GenericValues => bad := t in facts.env.types && facts.env.types[t].GenericInstance?;
      case NoTypes => bad := false;
    }

    method Check(t: TypeId, span: Option<Span>) returns (hit: Option<Occurrence>)
      requires Ready()
      modifies this, facts
      ensures Ready() && Step(State(), hit) == CheckAt(M(), old(State()), t, span)
    {
      var bad := IsUnsupported(t);
      if bad {
        hit := Record(span);
      } else {
        hit := None;
      }
    }

    /** Check one row; a rejected route hides its children. */
    method ScanRow(e: Expr, ghost rest: seq<Expr>) returns (hit: Option<Occurrence>, below: seq<Expr>)
      requires Ready()
      modifies this, facts
      ensures Ready()
      ensures hit.Some? ==> Forest(M(), old(State()), [e] + rest) == Step(State(), hit)
      ensures hit.None? ==> Forest(M(), old(State()), [e] + rest) == Forest(M(), State(), below + rest)
      ensures Weight(below + rest) < Weight([e] + rest)
    {
      ForestHead(M(), State(), e, rest);
      assert [] + rest == rest;
      if rejectRoutes && e.isRoute {
        hit := Record(e.span);
        below := [];
      } else {
        hit := Check(e.ty, e.span);
        below := e.children;
      }
    }

    /** Source pre-order over one expression tree, driven by a work list of pending siblings. */
    method ScanExpression(root: Expr) returns (hit: Option<Occurrence>)
      requires Ready()
      modifies this, facts
      ensures Ready() && Step(State(), hit) == Tree(M(), old(State()), root)
    {
      var pending: seq<Expr> := [];
      var next := Some(root);
      ghost var todo := Frontier(next, pending);
      assert todo == [root];
      while next.Some? || pending != []
        invariant Ready()
        invariant todo == Frontier(next, pending)
        invariant Tree(M(), old(State()), root) == Forest(M(), State(), todo)
        decreases Weight(todo)
      {
        var current;
        if next.Some? {
          current := next.value;
        } else {
          FrontierPop(pending);
          current, pending := pending[|pending| - 1], pending[..|pending| - 1];
        }
        var below;
        hit, below := ScanRow(current, Reversed(pending));
        if hit.Some? {
          return;
        }
        FrontierPush(below, pending);
        todo := below + Reversed(pending);
        if below != [] {
          next, pending := Some(below[0]), pending + Reversed(below[1..]);
        } else {
          next := None;
        }
      }
      hit := None;
    }

    method ScanExpressions(es: seq<Expr>) returns (hit: Option<Occurrence>)
      requires Ready()
      modifies this, facts
      ensures Ready() && Step(State(), hit) == Forest(M(), old(State()), es)
    {
      for i := 0 to |es|
        invariant Ready()
        invariant Forest(M(), old(State()), es) == Forest(M(), State(), es[i..])
      {
        hit := ScanExpression(es[i]);
        if hit.Some? {
          return;
        }
        assert es[i..][1..] == es[i + 1..];
      }
      hit := None;
    }

    /** Consult the local a statement produced, unless no spanless hit exists yet. */
    method ScanResultLocal(locals: seq<Local>, id: LocalId, span: Option<Span>) returns (hit: Option<Occurrence>)
      requires Ready()
      modifies this, facts
      ensures Ready() && Step(State(), hit) == Lookups(M(), old(State()), locals, [id], span)
    {
      hit := None;
      if spanlessFallback.Some? {
        var found := FindLocal(locals, id);
        if found.Some? {
          hit := Check(found.value.ty, span);
        }
      }
    }

    /** Scan one expression as a list of one. */
    method ScanOne(e: Expr) returns (hit: Option<Occurrence>)
      requires Ready()
      modifies this, facts
      ensures Ready() && Step(State(), hit) == Forest(M(), old(State()), [e])
    {
      hit := ScanExpression(e);
    }

    /** Scan more expressions unless the ones in `done` already gave a hit. */
    method ScanAfter(hit: Option<Occurrence>, es: seq<Expr>, ghost before: Search, ghost done: seq<Expr>)
        returns (r: Option<Occurrence>)
      requires Ready() && Step(State(), hit) == Forest(M(), before, done)
      modifies this, facts
      ensures Ready() && Step(State(), r) == Forest(M(), before, done + es)
    {
      ForestConcat(M(), before, done, es);
      if hit.Some? {
        return hit;
      }
      r := ScanExpressions(es);
    }

    method ScanNumericOperands(operands: NumericOperands, ghost result: LocalId) returns (hit: Option<Occurrence>)
      requires Ready()
      modifies this, facts
      ensures Ready() && Step(State(), hit) == Forest(M(), old(State()), Operands(NumericOp(operands, result)))
    {
      ghost var before := State();
      match operands {
        case Unary(operand) => hit := ScanOne(operand);
        case Binary(left, right) =>
          hit := ScanOne(left);
          hit := ScanAfter(hit, [right], before, [left]);
          assert [left] + [right] == [left, right];
      }
    }

    method ScanRangeOperands(current: Expr, step: Expr, end: Expr) returns (hit: Option<Occurrence>)
      requires Ready()
      modifies this, facts
      ensures Ready() && Step(State(), hit) == Forest(M(), old(State()), [current, step, end])
    {
      ghost var before := State();
      hit := ScanOne(current);
      hit := ScanAfter(hit, [step], before, [current]);
      hit := ScanAfter(hit, [end], before, [current] + [step]);
      assert [current] + [step] + [end] == [current, step, end];
    }

    /** The statements that produce no consulted local. */
    method ScanPlainStatement(kind: StatementKind) returns (hit: Option<Occurrence>)
      requires Ready() && !kind.NumericOp? && !kind.RangeCandidate? && !kind.LoopStepFailure?
      modifies this, facts
      ensures Ready() && Step(State(), hit) == Forest(M(), old(State()), Operands(kind))
    {
      ghost var before := State();
      match kind {
        case Write(target, value) =>
          match target {
            case DefineLocal => hit := ScanOne(value);
            case AssignPlace(indexes) =>
              hit := ScanExpressions(indexes);
              hit := ScanAfter(hit, [value], before, indexes);
          }
        case Call(args) => hit := ScanExpressions(args);
        case Evaluate(value) => hit := ScanOne(value);
        case PushRuntimeFragment(value) => hit := ScanOne(value);
        case FormatFloat(source) => hit := ScanOne(source);
        case ValidateFloat(source) => hit := ScanOne(source);
        case MapOp(receiver, args) =>
          hit := ScanOne(receiver);
          hit := ScanAfter(hit, args, before, [receiver]);
      }
    }

    method ScanStatement(st: Statement, locals: seq<Local>) returns (hit: Option<Occurrence>)
      requires Ready()
      modifies this, facts
      ensures Ready() && Step(State(), hit) == StatementScan(M(), old(State()), locals, st)
    {
      match st.kind {
        case NumericOp(operands, result) =>
          hit := ScanResultLocal(locals, result, st.span);
          if hit.Some? {
            return;
          }
          var countBefore := unsupportedCount;
          hit := ScanNumericOperands(operands, result);
          hit := Anchor(hit, countBefore, st.span);
        case LoopStepFailure(result) => hit := ScanResultLocal(locals, result, st.span);
        case RangeCandidate(current, step, end, candidateResult, inRangeResult) =>
          hit := ScanRangeResults(locals, candidateResult, inRangeResult, st.span);
          if hit.Some? {
            return;
          }
          var countBefore := unsupportedCount;
          hit := ScanRangeOperands(current, step, end);
          hit := Anchor(hit, countBefore, st.span);
        case _ => hit := ScanPlainStatement(st.kind);
      }
    }

    method ScanRangeResults(locals: seq<Local>, candidate: LocalId, inRange: LocalId, span: Option<Span>)
        returns (hit: Option<Occurrence>)
      requires Ready()
      modifies this, facts
      ensures Ready() && Step(State(), hit) == Lookups(M(), old(State()), locals, [candidate, inRange], span)
    {
      ghost var before := State();
      hit := ScanResultLocal(locals, candidate, span);
      LookupsPair(M(), before, locals, candidate, inRange, span);
      if hit.None? {
        hit := ScanResultLocal(locals, inRange, span);
      }
    }

    method Anchor(hit: Option<Occurrence>, countBefore: nat, span: Option<Span>) returns (r: Option<Occurrence>)
      ensures forall before: Search | before.count == countBefore ::
                Step(State(), r) == Anchored(before, Step(State(), hit), span)
    {
      if hit.Some? {
        return Some(Occurrence(if span.Some? then span else hit.value.span));
      }
      if unsupportedCount > countBefore && span.Some? {
        return Some(Occurrence(span));
      }
      r := None;
    }

    method ScanArms(arms: seq<Arm>) returns (hit: Option<Occurrence>)
      requires Ready()
      modifies this, facts
      ensures Ready() && Step(State(), hit) == Forest(M(), old(State()), ArmOperands(arms))
    {
      for i := 0 to |arms|
        invariant Ready()
        invariant Forest(M(), old(State()), ArmOperands(arms)) == Forest(M(), State(), ArmOperands(arms[i..]))
      {
        ghost var before, pattern, guard := State(), OptionExpr(arms[i].pattern), OptionExpr(arms[i].guard);
        ForestConcat(M(), before, pattern + guard, ArmOperands(arms[i + 1..]));
        assert arms[i..][1..] == arms[i + 1..];
        hit := None;
        if arms[i].pattern.Some? {
          hit := ScanOne(arms[i].pattern.value);
        }
        if arms[i].guard.Some? {
          hit := ScanAfter(hit, [arms[i].guard.value], before, pattern);
        } else {
          assert pattern + guard == pattern;
        }
        if hit.Some? {
          return;
        }
      }
      hit := None;
    }

    method ScanTerminator(t: Terminator) returns (hit: Option<Occurrence>)
      requires Ready()
      modifies this, facts
      ensures Ready() && Step(State(), hit) == TerminatorScan(M(), old(State()), t)
    {
      ghost var before := State();
      match t {
        case If(condition) => hit := ScanOne(condition);
        case Return(results) => hit := ScanExpressions(results);
        case Invoke(operands, span) =>
          var countBefore := unsupportedCount;
          hit := ScanExpressions(operands);
          hit := Anchor(hit, countBefore, span);
        case ReturnError(result) => hit := ScanOne(result);
        case Match(scrutinee, arms) =>
          hit := ScanOne(scrutinee);
          ForestConcat(M(), before, [scrutinee], ArmOperands(arms));
          if hit.None? {
            hit := ScanArms(arms);
          }
        case AssertFailure(message) => hit := ScanOne(message);
        case Silent => hit := None;
      }
    }

    method ScanBlock(b: Block) returns (hit: Option<Occurrence>)
      requires Ready()
      modifies this, facts
      ensures Ready() && Step(State(), hit) == BlockScan(M(), old(State()), b)
    {
      for i := 0 to |b.locals|
        invariant Ready()
        invariant Locals(M(), old(State()), b.locals) == Locals(M(), State(), b.locals[i..])
      {
        hit := Check(b.locals[i].ty, b.locals[i].span);
        if hit.Some? {
          return;
        }
        assert b.locals[i..][1..] == b.locals[i + 1..];
      }
      ghost var afterLocals := State();
      for i := 0 to |b.statements|
        invariant Ready()
        invariant Statements(M(), afterLocals, b.locals, b.statements) ==
                  Statements(M(), State(), b.locals, b.statements[i..])
      {
        hit := ScanStatement(b.statements[i], b.locals);
        if hit.Some? {
          return;
        }
        assert b.statements[i..][1..] == b.statements[i + 1..];
      }
      hit := ScanTerminator(b.terminator);
    }
  }

  /** The module scan: silent exactly when nothing unsupported occurs, and indifferent to the shortcut. */
  method FirstUnsupportedModuleOccurrence(facts: BackendTypeFacts, gate: Gate, rejectRoutes: bool,
                                          blocks: seq<Block>, selected: set<BlockId>) returns (r: Occurrences)
    requires facts.Valid() && facts.visiting == {}
    modifies facts
    ensures facts.Valid() && facts.visiting == {}
    ensures r.Preferred() == None <==> !InBlocks(ModeOf(facts.env, gate, rejectRoutes), blocks, selected)
    ensures var m := NoSkip(ModeOf(facts.env, gate, rejectRoutes));
            var s := Blocks(m, Search(None, 0), blocks, selected);
            r == Occurrences(s.hit, s.search.fallback)
    ensures r.authored.Some? ==> r.authored.value.span.Some?
  {
    var search := new TypeOccurrenceSearch(facts, gate, rejectRoutes);
    ghost var m := search.M();
    BlocksExact(m, Search(None, 0), blocks, selected);
    SkipNeverChangesAnswer(m, Search(None, 0), blocks, selected);
    var authored: Option<Occurrence> := None;
    for i := 0 to |blocks|
      invariant search.Ready() && authored.None?
      invariant Blocks(m, Search(None, 0), blocks, selected) == Blocks(m, search.State(), blocks[i..], selected)
    {
      assert blocks[i..][1..] == blocks[i + 1..];
      if blocks[i].id in selected {
        authored := search.ScanBlock(blocks[i]);
        if authored.Some? {
          return Occurrences(authored, search.spanlessFallback);
        }
      }
    }
    r := Occurrences(None, search.spanlessFallback);
  }
}
