/**
 Lock-free allocation accounting: any number of threads run weak compare-exchange loops on two shared
 counters. Each step performs at most one atomic access, and a weak exchange may always fail.
 */
module AllocatorProbe {

  const USIZE_MAX: nat := 0xFFFF_FFFF_FFFF_FFFF

  type ThreadId = nat
  type BlockId = nat

  /** `size` is what the system allocator holds for a block, `accounted` what LIVE_BYTES includes for it. */
  datatype Block = Block(size: nat, accounted: nat, held: bool)

  /** Where a thread is inside one allocator call. */
  datatype Pc =
    | Idle
    | AddLoad(block: BlockId, bytes: nat)
    | AddCas(block: BlockId, bytes: nat, current: nat)
    | PeakLoad(block: BlockId, seen: nat)
    | PeakCas(block: BlockId, seen: nat, peak: nat)
    | RemoveLoad(block: BlockId, bytes: nat)
    | RemoveCas(block: BlockId, bytes: nat, current: nat)
    | ResetStore(baseline: nat)
  {
    predicate OnBlock() { !Idle? && !ResetStore? }

    /** Still going to bring `seen` to the peak, unless the peak gets there first. */
    predicate Outstanding() { PeakLoad? || (PeakCas? && seen > peak) }

    /** How far the block's accounting still is from what the system holds. */
    function Pending(): int {
      match this
      case AddLoad(_, bytes) => bytes
      case AddCas(_, bytes, _) => bytes
      case RemoveLoad(_, bytes) => 0 - bytes
      case RemoveCas(_, bytes, _) => 0 - bytes
      case _ => 0
    }
  }

  datatype State = State(live: nat, peak: nat, blocks: seq<Block>, threads: map<ThreadId, Pc>)

  /** What the scheduler and the environment choose; `Proceed(false)` is a failed, possibly spurious, exchange. */
  datatype Action =
    | Alloc(size: nat)
    | Dealloc(block: BlockId)
    | Realloc(block: BlockId, newSize: nat)
    | Reset
    | Proceed(succeeds: bool)

  function SaturatingAdd(a: nat, b: nat): nat {
    if a + b <= USIZE_MAX then a + b else USIZE_MAX
  }

  function SaturatingSub(a: nat, b: nat): nat {
    if b <= a then a - b else 0
  }

  ghost predicate Busy(s: State, b: BlockId) {
    exists t :: t in s.threads && s.threads[t].OnBlock() && s.threads[t].block == b
  }

  /** Frees match allocations: a block is released or resized once, by one call, after earlier calls returned. */
  ghost predicate Enabled(s: State, t: ThreadId, a: Action) {
    && t in s.threads
    && match a
       case Alloc(_) => s.threads[t].Idle?
       case Dealloc(b) => s.threads[t].Idle? && b < |s.blocks| && s.blocks[b].held && !Busy(s, b)
       case Realloc(b, _) => s.threads[t].Idle? && b < |s.blocks| && s.blocks[b].held && !Busy(s, b)
       case Reset => s.threads[t].Idle?
       case Proceed(succeeds) =>
         match s.threads[t]
         case Idle => false
         case AddCas(_, _, current) => succeeds ==> s.live == current
         case RemoveCas(_, _, current) => succeeds ==> s.live == current
         case PeakCas(_, _, peak) => succeeds ==> s.peak == peak
         case _ => true
  }

  function At(s: State, t: ThreadId, pc: Pc): State {
    s.(threads := s.threads[t := pc])
  }

  /** Book a successful exchange against the block it was made for. */
  function Settle(bs: seq<Block>, b: BlockId, delta: int): seq<Block> {
    if b < |bs| && 0 <= bs[b].accounted + delta then bs[b := bs[b].(accounted := bs[b].accounted + delta)] else bs
  }

  ghost function Apply(s: State, t: ThreadId, a: Action): State
    requires Enabled(s, t, a)
  {
    match a
    case Alloc(size) =>
      At(s.(blocks := s.blocks + [Block(size, 0, true)]), t, AddLoad(|s.blocks|, size))
    case Dealloc(b) =>
      At(s.(blocks := s.blocks[b := s.blocks[b].(size := 0, held := false)]), t, RemoveLoad(b, s.blocks[b].size))
    case Realloc(b, newSize) =>
      var oldSize := s.blocks[b].size;
      At(s.(blocks := s.blocks[b := s.blocks[b].(size := newSize)]), t,
         if newSize >= oldSize then AddLoad(b, newSize - oldSize) else RemoveLoad(b, oldSize - newSize))
    case Reset => At(s, t, ResetStore(s.live))
    case Proceed(succeeds) => ApplyProceed(s, t, succeeds)
  }

  ghost function ApplyProceed(s: State, t: ThreadId, succeeds: bool): State
    requires Enabled(s, t, Proceed(succeeds))
  {
    match s.threads[t]
    case AddLoad(b, bytes) => At(s, t, AddCas(b, bytes, s.live))
    case AddCas(b, bytes, current) =>
      if succeeds then
        var next := SaturatingAdd(current, bytes);
        At(s.(live := next, blocks := Settle(s.blocks, b, bytes)), t, PeakLoad(b, next))
      else At(s, t, AddCas(b, bytes, s.live))
    case PeakLoad(b, seen) => At(s, t, PeakCas(b, seen, s.peak))
    case PeakCas(b, seen, peak) =>
      if seen <= peak then At(s, t, Idle)
      else if succeeds then At(s.(peak := seen), t, Idle)
      else At(s, t, PeakCas(b, seen, s.peak))
    case RemoveLoad(b, bytes) => At(s, t, RemoveCas(b, bytes, s.live))
    case RemoveCas(b, bytes, current) =>
      if succeeds then
        At(s.(live := SaturatingSub(current, bytes), blocks := Settle(s.blocks, b, 0 - bytes)), t, Idle)
      else At(s, t, RemoveCas(b, bytes, s.live))
    case ResetStore(baseline) => At(s.(peak := baseline), t, Idle)
    case Idle => s
  }

  // ----- sums over blocks

  ghost function Accounted(bs: seq<Block>): nat {
    if bs == [] then 0 else Accounted(bs[..|bs| - 1]) + bs[|bs| - 1].accounted
  }

  ghost function Sizes(bs: seq<Block>): nat {
    if bs == [] then 0 else Sizes(bs[..|bs| - 1]) + bs[|bs| - 1].size
  }

  /** Bytes the system holds or has released without the counter knowing yet. */
  ghost function Demand(bs: seq<Block>): nat {
    if bs == [] then 0
    else
      var last := bs[|bs| - 1];
      Demand(bs[..|bs| - 1]) + if last.size > last.accounted then last.size else last.accounted
  }

  lemma {:induction false} AccountedUpdate(bs: seq<Block>, i: nat, b: Block)
    requires i < |bs|
    ensures Accounted(bs[i := b]) == Accounted(bs) - bs[i].accounted + b.accounted
    ensures bs[i].accounted <= Accounted(bs)
  {
    var n := |bs| - 1;
    if i < n {
      AccountedUpdate(bs[..n], i, b);
      assert bs[i := b][..n] == bs[..n][i := b];
    } else {
      assert bs[i := b][..n] == bs[..n];
    }
  }

  lemma {:induction false} AccountedWithinDemand(bs: seq<Block>)
    ensures Accounted(bs) <= Demand(bs)
  {
    if bs != [] {
      AccountedWithinDemand(bs[..|bs| - 1]);
    }
  }

  lemma {:induction false} SettledSums(bs: seq<Block>)
    requires forall i | 0 <= i < |bs| :: bs[i].accounted == bs[i].size
    ensures Accounted(bs) == Sizes(bs)
  {
    if bs != [] {
      SettledSums(bs[..|bs| - 1]);
    }
  }

  // ----- what every step keeps

  /** Each active call owes its block exactly the difference between size and accounting. */
  ghost predicate CallsOwe(s: State) {
    forall t | t in s.threads && s.threads[t].OnBlock() ::
      && s.threads[t].block < |s.blocks|
      && s.blocks[s.threads[t].block].size == s.blocks[s.threads[t].block].accounted + s.threads[t].Pending()
  }

  ghost predicate OneCallPerBlock(s: State) {
    forall t, u | t in s.threads && u in s.threads && t != u && s.threads[t].OnBlock() && s.threads[u].OnBlock() ::
      s.threads[t].block != s.threads[u].block
  }

  ghost predicate RestSettled(s: State) {
    forall b | 0 <= b < |s.blocks| && !Busy(s, b) :: s.blocks[b].accounted == s.blocks[b].size
  }

  ghost const OWED_STATES := iset s: State | CallsOwe(s) && OneCallPerBlock(s) && RestSettled(s)

  ghost predicate Owed(s: State) {
    s in OWED_STATES
  }

  /** LIVE_BYTES is the sum of what every block is accounted for. */
  ghost predicate Exact(s: State) {
    s.live == Accounted(s.blocks)
  }

  function Clamp(n: nat): nat {
    if n <= USIZE_MAX then n else USIZE_MAX
  }

  /** Only thread `t` moved. */
  ghost predicate OnlyThread(s: State, s': State, t: ThreadId) {
    t in s'.threads && s'.threads == s.threads[t := s'.threads[t]]
  }

  lemma BusyElsewhere(s: State, s': State, t: ThreadId, b: BlockId)
    requires t in s.threads && OnlyThread(s, s', t)
    requires (s.threads[t].OnBlock() && s.threads[t].block == b) <==>
             (s'.threads[t].OnBlock() && s'.threads[t].block == b)
    ensures Busy(s, b) <==> Busy(s', b)
  {
    if Busy(s, b) {
      var u :| u in s.threads && s.threads[u].OnBlock() && s.threads[u].block == b;
      assert u in s'.threads && (u != t ==> s'.threads[u] == s.threads[u]);
    }
    if Busy(s', b) {
      var u :| u in s'.threads && s'.threads[u].OnBlock() && s'.threads[u].block == b;
      assert u in s.threads;
    }
  }

  /** Only thread `t` and its block `b`, possibly a new one, change. */
  ghost predicate Touches(s: State, s': State, t: ThreadId, b: BlockId) {
    && t in s.threads && OnlyThread(s, s', t)
    && |s.blocks| <= |s'.blocks| <= |s.blocks| + 1 && (|s'.blocks| > |s.blocks| ==> b == |s.blocks|)
    && (forall i | 0 <= i < |s.blocks| && i != b :: s'.blocks[i] == s.blocks[i])
    && (s.threads[t].OnBlock() ==> s.threads[t].block == b)
    && (s'.threads[t].OnBlock() ==> s'.threads[t].block == b && b < |s'.blocks|)
    && (s'.threads[t].OnBlock() ==> s.threads[t].OnBlock() || b == |s.blocks| || !Busy(s, b))
    && (!s'.threads[t].OnBlock() ==> s.threads[t].OnBlock() || s'.blocks == s.blocks)
  }

  lemma RestStaysSettled(s: State, s': State, t: ThreadId, b: BlockId)
    requires RestSettled(s) && Touches(s, s', t, b)
    requires b < |s'.blocks| ==> s'.blocks[b].size == s'.blocks[b].accounted + s'.threads[t].Pending()
    ensures RestSettled(s')
  {
    forall i | 0 <= i < |s'.blocks| && !Busy(s', i) ensures s'.blocks[i].accounted == s'.blocks[i].size {
      if i != b || !(s.threads[t].OnBlock() || s'.threads[t].OnBlock()) {
        BusyElsewhere(s, s', t, i);
      } else {
        assert !s'.threads[t].OnBlock();
      }
    }
  }

  /** A step that touches only the acting thread and at most its own block keeps every debt settled. */
  lemma OwedStep(s: State, s': State, t: ThreadId, b: BlockId)
    requires Owed(s) && Touches(s, s', t, b)
    requires b < |s'.blocks| ==> s'.blocks[b].size == s'.blocks[b].accounted + s'.threads[t].Pending()
    ensures Owed(s')
  {
    assert forall u | u in s'.threads && u != t && s'.threads[u].OnBlock() ::
        s'.threads[u] == s.threads[u] && s.threads[u].block < |s.blocks| &&
        (s.threads[u].block == b ==> s'.blocks == s.blocks && !s'.threads[t].OnBlock());
    RestStaysSettled(s, s', t, b);
  }

  // ----- every step keeps the debts

  /** A step that leaves blocks and counter alone. */
  lemma QuietOwed(s: State, s': State, t: ThreadId)
    requires Owed(s) && t in s.threads && OnlyThread(s, s', t) && s'.blocks == s.blocks
    requires s.threads[t].OnBlock() ==> s.threads[t].Pending() == s'.threads[t].Pending()
    requires s.threads[t].OnBlock() && s'.threads[t].OnBlock() ==> s'.threads[t].block == s.threads[t].block
    requires s'.threads[t].OnBlock() ==> s.threads[t].OnBlock()
    ensures Owed(s')
  {
    if s.threads[t].OnBlock() {
      OwedStep(s, s', t, s.threads[t].block);
    } else {
      OwedStep(s, s', t, |s.blocks|);
    }
  }

  lemma AllocOwed(s: State, t: ThreadId, size: nat)
    requires Owed(s) && Enabled(s, t, Alloc(size))
    ensures Owed(Apply(s, t, Alloc(size)))
    ensures Accounted(Apply(s, t, Alloc(size)).blocks) == Accounted(s.blocks)
  {
    var s' := Apply(s, t, Alloc(size));
    assert s'.blocks[..|s.blocks|] == s.blocks;
    OwedStep(s, s', t, |s.blocks|);
  }

  /** Freeing or resizing a block leaves its accounting alone and the difference owed by the calling thread. */
  lemma ReleaseAccounting(s: State, t: ThreadId, a: Action, b: BlockId)
    requires Owed(s) && Enabled(s, t, a) && (a == Dealloc(b) || (a.Realloc? && a.block == b))
    ensures Owed(Apply(s, t, a)) && Accounted(Apply(s, t, a).blocks) == Accounted(s.blocks)
  {
    var s' := Apply(s, t, a);
    AccountedUpdate(s.blocks, b, s'.blocks[b]);
    assert Touches(s, s', t, b);
    assert s'.blocks[b].size == s'.blocks[b].accounted + s'.threads[t].Pending() by {
      assert !s.threads[t].OnBlock() && !Busy(s, b);
    }
    OwedStep(s, s', t, b);
  }

  /** A successful exchange settles its block, and moves the counter by the same amount unless that clamps. */
  lemma ExchangeAccounting(s: State, t: ThreadId)
    requires Owed(s) && Enabled(s, t, Proceed(true)) && (s.threads[t].AddCas? || s.threads[t].RemoveCas?)
    ensures var s' := ApplyProceed(s, t, true);
            && Owed(s') && Accounted(s'.blocks) == Accounted(s.blocks) + s.threads[t].Pending()
            && (Exact(s) && s.threads[t].RemoveCas? ==> Exact(s'))
            && (Exact(s) && s.threads[t].AddCas? ==> s'.live == Clamp(Accounted(s'.blocks)))
  {
    var s', b := ApplyProceed(s, t, true), s.threads[t].block;
    var delta := s.threads[t].Pending();
    assert s.blocks[b].accounted + delta == s.blocks[b].size;
    var settled := s.blocks[b].(accounted := s.blocks[b].size);
    assert s'.blocks == s.blocks[b := settled];
    AccountedUpdate(s.blocks, b, settled);
    OwedStep(s, s', t, b);
  }

  predicate Exchanges(s: State, t: ThreadId, a: Action) {
    t in s.threads && a == Proceed(true) && (s.threads[t].AddCas? || s.threads[t].RemoveCas?)
  }

  lemma ProceedQuietly(s: State, t: ThreadId, succeeds: bool)
    requires Owed(s) && Enabled(s, t, Proceed(succeeds)) && !Exchanges(s, t, Proceed(succeeds))
    ensures var s' := ApplyProceed(s, t, succeeds); Owed(s') && s'.blocks == s.blocks && s'.live == s.live
  {
    QuietOwed(s, ApplyProceed(s, t, succeeds), t);
  }

  /** Every step but a successful exchange on LIVE_BYTES leaves the counter and the accounted total alone. */
  lemma QuietStep(s: State, t: ThreadId, a: Action)
    requires Owed(s) && Enabled(s, t, a) && !Exchanges(s, t, a)
    ensures var s' := Apply(s, t, a); Owed(s') && s'.live == s.live && Accounted(s'.blocks) == Accounted(s.blocks)
  {
    match a
    case Alloc(size) => AllocOwed(s, t, size);
    case Dealloc(b) => ReleaseAccounting(s, t, a, b);
    case Realloc(b, _) => ReleaseAccounting(s, t, a, b);
    case Reset => QuietOwed(s, Apply(s, t, a), t);
    case Proceed(succeeds) => ProceedQuietly(s, t, succeeds);
  }

  /** Every step of every thread keeps the debts, and LIVE_BYTES exact up to the counter's range. */
  lemma StepAccounting(s: State, t: ThreadId, a: Action)
    requires Owed(s) && Enabled(s, t, a) && s.live <= USIZE_MAX
    ensures var s' := Apply(s, t, a);
            && Owed(s') && s'.live <= USIZE_MAX && (Exact(s) ==> s'.live == Clamp(Accounted(s'.blocks)))
  {
    if Exchanges(s, t, a) {
      ExchangeAccounting(s, t);
    } else {
      QuietStep(s, t, a);
    }
  }
}
