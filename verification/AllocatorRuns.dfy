/** Whole runs of the allocator: every interleaving of any number of threads. */
module AllocatorRuns {
  import opened AllocatorProbe
  import opened AllocatorPeak

  // ----- whole runs

  datatype Move = Move(thread: ThreadId, action: Action)

  ghost predicate Initial(s: State) {
    s.live == 0 && s.peak == 0 && s.blocks == [] && Quiescent(s)
  }

  ghost predicate Leads(s: State, m: Move, s': State) {
    Enabled(s, m.thread, m.action) && s' == Apply(s, m.thread, m.action)
  }

  /** Every interleaving: `states[i + 1]` results from `moves[i]`, by any thread and any exchange outcome. */
  ghost predicate Run(states: seq<State>, moves: seq<Move>) {
    && |states| == |moves| + 1 && Initial(states[0])
    && (forall i | 0 <= i < |moves| :: Leads(states[i], moves[i], states[i + 1]))
  }

  /** A run without its last move, and that move. */
  lemma RunFront(states: seq<State>, moves: seq<Move>)
    requires Run(states, moves) && moves != []
    ensures var n := |moves| - 1;
            Run(states[..n + 1], moves[..n]) && Leads(states[n], moves[n], states[n + 1])
  {
    var n := |moves| - 1;
    assert Leads(states[n], moves[n], states[n + 1]);
    forall i | 0 <= i < n ensures Leads(states[..n + 1][i], moves[..n][i], states[..n + 1][i + 1]) {
      assert Leads(states[i], moves[i], states[i + 1]);
    }
  }

  lemma {:induction false} RunOwed(states: seq<State>, moves: seq<Move>)
    requires Run(states, moves)
    ensures Owed(states[|moves|]) && states[|moves|].live <= USIZE_MAX
    decreases |moves|
  {
    if moves != [] {
      var n := |moves| - 1;
      RunFront(states, moves);
      RunOwed(states[..n + 1], moves[..n]);
      StepAccounting(states[n], moves[n].thread, moves[n].action);
    }
  }

  /** What is booked fits the counter, in every state so far. */
  ghost predicate InRange(states: seq<State>) {
    forall k | 0 <= k < |states| :: Accounted(states[k].blocks) <= USIZE_MAX
  }

  ghost predicate AllExact(states: seq<State>) {
    forall k | 0 <= k < |states| :: Exact(states[k])
  }

  lemma {:induction false} InRangeIsExact(states: seq<State>, moves: seq<Move>)
    requires Run(states, moves) && InRange(states)
    ensures AllExact(states)
    decreases |moves|
  {
    if moves != [] {
      var n := |moves| - 1;
      RunFront(states, moves);
      var front := states[..n + 1];
      assert forall k | 0 <= k <= n :: front[k] == states[k];
      InRangeIsExact(front, moves[..n]);
      RunOwed(front, moves[..n]);
      assert Exact(front[n]);
      StepAccounting(states[n], moves[n].thread, moves[n].action);
    }
  }

  lemma {:induction false} ExactIsInRange(states: seq<State>, moves: seq<Move>, k: nat)
    requires Run(states, moves) && AllExact(states) && k < |states|
    ensures Accounted(states[k].blocks) <= USIZE_MAX
  {
    var front := moves[..k];
    assert forall i | 0 <= i <= k :: states[..k + 1][i] == states[i];
    assert Run(states[..k + 1], front) by {
      forall i | 0 <= i < k ensures Leads(states[..k + 1][i], front[i], states[..k + 1][i + 1]) {
        assert Leads(states[i], moves[i], states[i + 1]);
      }
    }
    RunOwed(states[..k + 1], front);
    assert Exact(states[k]);
  }

  /**
   LIVE_BYTES is the sum of accounted sizes throughout a run exactly when what is booked never exceeds the
   counter's range; at quiescence that sum is what all held blocks occupy.
   */
  lemma LiveIsExact(states: seq<State>, moves: seq<Move>)
    requires Run(states, moves)
    ensures AllExact(states) <==> InRange(states)
    ensures Quiescent(states[|moves|]) ==> Accounted(states[|moves|].blocks) == Sizes(states[|moves|].blocks)
  {
    if InRange(states) {
      InRangeIsExact(states, moves);
    }
    if AllExact(states) {
      forall k | 0 <= k < |states| ensures Accounted(states[k].blocks) <= USIZE_MAX {
        ExactIsInRange(states, moves, k);
      }
    }
    RunOwed(states, moves);
    var s := states[|moves|];
    if Quiescent(s) {
      SettledSums(s.blocks);
    }
  }

  /** While the run is in range: subtraction never clamps, and addition clamps exactly when the sum leaves the range. */
  lemma NoRunSaturates(states: seq<State>, moves: seq<Move>, t: ThreadId)
    requires Run(states, moves) && InRange(states) && Enabled(states[|moves|], t, Proceed(true))
    ensures var s, s' := states[|moves|], Apply(states[|moves|], t, Proceed(true));
            && (s.threads[t].RemoveCas? ==> s.threads[t].bytes <= s.live && s'.live == s.live - s.threads[t].bytes)
            && (s.threads[t].AddCas? ==>
                  (s'.live == s.live + s.threads[t].bytes <==> Accounted(s'.blocks) <= USIZE_MAX))
  {
    RunOwed(states, moves);
    InRangeIsExact(states, moves);
    var s := states[|moves|];
    assert Exact(s);
    if Exchanges(s, t, Proceed(true)) {
      ExchangeAccounting(s, t);
    }
  }

  /** Enough for a run to stay in range: held bytes plus bytes freed but not yet subtracted fit the counter. */
  lemma FittingRunInRange(states: seq<State>)
    requires forall k | 0 <= k < |states| :: Demand(states[k].blocks) <= USIZE_MAX
    ensures InRange(states)
  {
    forall k | 0 <= k < |states| ensures Accounted(states[k].blocks) <= USIZE_MAX {
      AccountedWithinDemand(states[k].blocks);
    }
  }

  // ----- the peak over whole runs

  /** The greatest LIVE_BYTES observed since the last completed reset, read off the run itself. */
  ghost function HighWater(states: seq<State>, moves: seq<Move>): nat
    requires |states| == |moves| + 1
  {
    var n := |moves|;
    if n == 0 then states[0].live
    else if StoresReset(states[n - 1], moves[n - 1].thread, moves[n - 1].action) then states[n].live
    else Max(HighWater(states[..n], moves[..n - 1]), states[n].live)
  }

  /** The state the last reset store left behind; the initial state when there was none. */
  ghost function AfterReset(states: seq<State>, moves: seq<Move>): State
    requires |states| == |moves| + 1
  {
    var n := |moves|;
    if n == 0 || StoresReset(states[n - 1], moves[n - 1].thread, moves[n - 1].action) then states[n]
    else AfterReset(states[..n], moves[..n - 1])
  }

  /** The greatest value LIVE_BYTES was raised to since then. */
  ghost function Raised(states: seq<State>, moves: seq<Move>): nat
    requires |states| == |moves| + 1
  {
    var n := |moves|;
    if n == 0 || StoresReset(states[n - 1], moves[n - 1].thread, moves[n - 1].action) then 0
    else
      var before := Raised(states[..n], moves[..n - 1]);
      if Raises(states[n - 1], moves[n - 1].thread, moves[n - 1].action) then Max(before, states[n].live) else before
  }

  /** What the last reset store left recorded or outstanding, and every raise of LIVE_BYTES since. */
  ghost function Recorded(states: seq<State>, moves: seq<Move>): nat
    requires |states| == |moves| + 1
  {
    Max(Mark(AfterReset(states, moves)), Raised(states, moves))
  }

  lemma QuiescentMark(s: State)
    ensures Quiescent(s) ==> Mark(s) == s.peak
  {
    MarkUnique(s, Mark(s), s.peak);
  }

  lemma {:induction false} RunMark(states: seq<State>, moves: seq<Move>)
    requires Run(states, moves)
    ensures Mark(states[|moves|]) == Recorded(states, moves)
    decreases |moves|
  {
    if moves == [] {
      QuiescentMark(states[0]);
    } else {
      var n := |moves| - 1;
      RunFront(states, moves);
      RunMark(states[..n + 1], moves[..n]);
      if !StoresReset(states[n], moves[n].thread, moves[n].action) {
        StepMark(states[n], moves[n].thread, moves[n].action);
      }
    }
  }

  /** At every quiescent point of every run, whatever its resets raced with, the peak is the recorded mark. */
  lemma {:induction false} PeakIsRecorded(states: seq<State>, moves: seq<Move>)
    requires Run(states, moves) && Quiescent(states[|moves|])
    ensures states[|moves|].peak == Recorded(states, moves)
  {
    RunMark(states, moves);
    QuiescentMark(states[|moves|]);
  }

  ghost predicate ResetsClean(states: seq<State>, moves: seq<Move>) {
    |states| == |moves| + 1 &&
    forall i | 0 <= i < |moves| ::
      StoresReset(states[i], moves[i].thread, moves[i].action) ==> CleanStore(states[i], moves[i].thread)
  }

  lemma LiveDrops(s: State, t: ThreadId, a: Action)
    ensures Enabled(s, t, a) ==> Raises(s, t, a) || Apply(s, t, a).live <= s.live
  {
  }

  /** Between resets only raises lift LIVE_BYTES. */
  lemma {:induction false} HighWaterIsRaised(states: seq<State>, moves: seq<Move>)
    requires Run(states, moves)
    ensures HighWater(states, moves) ==
            Max(AfterReset(states, moves).live, Raised(states, moves)) >= states[|moves|].live
    decreases |moves|
  {
    if moves != [] {
      var n := |moves| - 1;
      RunFront(states, moves);
      HighWaterIsRaised(states[..n + 1], moves[..n]);
      if !Raises(states[n], moves[n].thread, moves[n].action) {
        LiveDrops(states[n], moves[n].thread, moves[n].action);
      }
    }
  }

  /**
   At a quiescent point the peak is the maximum LIVE_BYTES since the last reset store exactly when that store
   left the live bytes marked, or LIVE_BYTES was raised at least as high as both since.
   */
  lemma {:induction false} PeakIsExactIff(states: seq<State>, moves: seq<Move>)
    requires Run(states, moves) && Quiescent(states[|moves|])
    ensures var r, raised := AfterReset(states, moves), Raised(states, moves);
            states[|moves|].peak == HighWater(states, moves) <==>
                Mark(r) == r.live || (Mark(r) <= raised && r.live <= raised)
  {
    PeakIsRecorded(states, moves);
    HighWaterIsRaised(states, moves);
  }

  lemma {:induction false} CleanRunMarksLive(states: seq<State>, moves: seq<Move>)
    requires Run(states, moves) && ResetsClean(states, moves)
    ensures Mark(AfterReset(states, moves)) == AfterReset(states, moves).live
    decreases |moves|
  {
    if moves == [] {
      QuiescentMark(states[0]);
    } else {
      var n := |moves| - 1;
      RunFront(states, moves);
      if StoresReset(states[n], moves[n].thread, moves[n].action) {
        CleanStoreMarksLive(states[n], moves[n].thread, moves[n].action.succeeds);
      } else {
        CleanRunMarksLive(states[..n + 1], moves[..n]);
      }
    }
  }

  /** With clean resets the peak at every quiescent point is the maximum LIVE_BYTES since the last one. */
  lemma {:induction false} PeakIsExactAfterCleanResets(states: seq<State>, moves: seq<Move>)
    requires Run(states, moves) && ResetsClean(states, moves) && Quiescent(states[|moves|])
    ensures states[|moves|].peak == HighWater(states, moves)
  {
    CleanRunMarksLive(states, moves);
    PeakIsExactIff(states, moves);
  }

  ghost predicate ResetsQuiescently(states: seq<State>, moves: seq<Move>) {
    |states| == |moves| + 1 &&
    forall i | 0 <= i < |moves| :: QuiescentReset(states[i], moves[i].thread, moves[i].action)
  }

  lemma {:induction false} QuiescentResetsAreClean(states: seq<State>, moves: seq<Move>)
    requires Run(states, moves) && ResetsQuiescently(states, moves)
    ensures ResetsClean(states, moves) && ResetsPrepared(states[|moves|])
    decreases |moves|
  {
    if moves != [] {
      var n := |moves| - 1;
      RunFront(states, moves);
      var front := states[..n + 1];
      assert ResetsQuiescently(front, moves[..n]) by {
        forall i | 0 <= i < n ensures QuiescentReset(front[i], moves[..n][i].thread, moves[..n][i].action) {
          assert QuiescentReset(states[i], moves[i].thread, moves[i].action);
        }
      }
      QuiescentResetsAreClean(front, moves[..n]);
      assert QuiescentReset(states[n], moves[n].thread, moves[n].action);
      PreparedStep(states[n], moves[n].thread, moves[n].action);
      forall i | 0 <= i < |moves| && StoresReset(states[i], moves[i].thread, moves[i].action)
        ensures CleanStore(states[i], moves[i].thread)
      {
        assert i < n ==> front[i] == states[i] && moves[..n][i] == moves[i];
      }
    }
  }

  /** At every quiescent point PEAK_LIVE_BYTES is the maximum LIVE_BYTES since the last quiescent reset. */
  lemma {:induction false} PeakIsExact(states: seq<State>, moves: seq<Move>)
    requires Run(states, moves) && ResetsQuiescently(states, moves) && Quiescent(states[|moves|])
    ensures states[|moves|].peak == HighWater(states, moves)
  {
    QuiescentResetsAreClean(states, moves);
    PeakIsExactAfterCleanResets(states, moves);
  }

  // ----- two runs that go wrong

  /** Thread 0 resets while thread 1 allocates between the reset's load and its store. */
  ghost function RacingState(i: nat): State {
    var reset := ResetStore(0);
    var unbooked, booked := [Block(8, 0, true)], [Block(8, 8, true)];
    if i == 0 then State(0, 0, [], map[0 := Idle, 1 := Idle])
    else if i == 1 then State(0, 0, [], map[0 := reset, 1 := Idle])
    else if i == 2 then State(0, 0, unbooked, map[0 := reset, 1 := AddLoad(0, 8)])
    else if i == 3 then State(0, 0, unbooked, map[0 := reset, 1 := AddCas(0, 8, 0)])
    else if i == 4 then State(8, 0, booked, map[0 := reset, 1 := PeakLoad(0, 8)])
    else if i == 5 then State(8, 0, booked, map[0 := reset, 1 := PeakCas(0, 8, 0)])
    else if i == 6 then State(8, 8, booked, map[0 := reset, 1 := Idle])
    else State(8, 0, booked, map[0 := Idle, 1 := Idle])
  }

  ghost function RacingMove(i: nat): Move {
    if i == 0 then Move(0, Reset)
    else if i == 1 then Move(1, Alloc(8))
    else Move(if i == 6 then 0 else 1, Proceed(true))
  }

  lemma RacingCallStarts(i: nat)
    ensures i < 2 ==> Leads(RacingState(i), RacingMove(i), RacingState(i + 1))
  {
  }

  lemma RacingCallProceeds(i: nat)
    ensures 2 <= i < 7 ==> Leads(RacingState(i), RacingMove(i), RacingState(i + 1))
  {
  }

  /** Without quiescent resets the peak can end below what is live: one allocation between load and store. */
  lemma RacingResetLosesPeak()
    ensures exists states: seq<State>, moves: seq<Move> ::
              Run(states, moves) && Quiescent(states[|moves|]) && states[|moves|].peak < states[|moves|].live
  {
    var states := seq(8, i requires 0 <= i < 8 => RacingState(i));
    var moves := seq(7, i requires 0 <= i < 7 => RacingMove(i));
    forall i | 0 <= i < |moves| ensures Leads(states[i], moves[i], states[i + 1]) {
      RacingCallStarts(i);
      RacingCallProceeds(i);
    }
    assert Run(states, moves) && states[7] == RacingState(7);
  }

  const HUGE: nat := 0x7FFF_FFFF_FFFF_FFFF

  /** Thread 0 frees a block and stalls before subtracting it; the memory is handed out again and accounted twice. */
  ghost function LateState(i: nat): State {
    var a0, a1 := Block(HUGE, 0, true), Block(HUGE, HUGE, true);
    var gone := Block(0, HUGE, false);
    var c0, c1 := Block(2, 0, true), Block(2, 2, true);
    var idle, late := map[0 := Idle, 1 := Idle, 2 := Idle], RemoveLoad(0, HUGE);
    var busy := map[0 := late, 1 := PeakLoad(1, 2 * HUGE), 2 := Idle];
    if i == 0 then State(0, 0, [], idle)
    else if i == 1 then State(0, 0, [a0], idle[0 := AddLoad(0, HUGE)])
    else if i == 2 then State(0, 0, [a0], idle[0 := AddCas(0, HUGE, 0)])
    else if i == 3 then State(HUGE, 0, [a1], idle[0 := PeakLoad(0, HUGE)])
    else if i == 4 then State(HUGE, 0, [a1], idle[0 := PeakCas(0, HUGE, 0)])
    else if i == 5 then State(HUGE, HUGE, [a1], idle)
    else if i == 6 then State(HUGE, HUGE, [gone], idle[0 := late])
    else if i == 7 then State(HUGE, HUGE, [gone, a0], idle[0 := late][1 := AddLoad(1, HUGE)])
    else if i == 8 then State(HUGE, HUGE, [gone, a0], idle[0 := late][1 := AddCas(1, HUGE, HUGE)])
    else if i == 9 then State(2 * HUGE, HUGE, [gone, a1], busy)
    else if i == 10 then State(2 * HUGE, HUGE, [gone, a1, c0], busy[2 := AddLoad(2, 2)])
    else if i == 11 then State(2 * HUGE, HUGE, [gone, a1, c0], busy[2 := AddCas(2, 2, 2 * HUGE)])
    else State(USIZE_MAX, HUGE, [gone, a1, c1], busy[2 := PeakLoad(2, USIZE_MAX)])
  }

  ghost function LateMove(i: nat): Move {
    if i == 0 then Move(0, Alloc(HUGE))
    else if i == 5 then Move(0, Dealloc(0))
    else if i == 6 then Move(1, Alloc(HUGE))
    else if i == 9 then Move(2, Alloc(2))
    else Move(if i < 5 then 0 else if i < 9 then 1 else 2, Proceed(true))
  }

  lemma LateCallStarts(i: nat)
    ensures i in {0, 5, 6, 9} ==> Leads(LateState(i), LateMove(i), LateState(i + 1))
  {
  }

  lemma LateFirst(i: nat)
    ensures 1 <= i < 5 ==> Leads(LateState(i), LateMove(i), LateState(i + 1))
  {
  }

  lemma LateOthers(i: nat)
    ensures i in {7, 8, 10, 11} ==> Leads(LateState(i), LateMove(i), LateState(i + 1))
  {
  }

  lemma SumsSnoc(bs: seq<Block>, b: Block)
    ensures Sizes(bs + [b]) == Sizes(bs) + b.size && Accounted(bs + [b]) == Accounted(bs) + b.accounted
  {
    assert (bs + [b])[..|bs|] == bs;
  }

  lemma SumsOfThree(a: Block, b: Block, c: Block)
    ensures Sizes([a]) == a.size && Sizes([a, b]) == a.size + b.size && Sizes([a, b, c]) == a.size + b.size + c.size
    ensures Accounted([a, b, c]) == a.accounted + b.accounted + c.accounted
  {
    SumsSnoc([], a);
    assert [] + [a] == [a];
    SumsSnoc([a], b);
    assert [a] + [b] == [a, b];
    SumsSnoc([a, b], c);
    assert [a, b] + [c] == [a, b, c];
  }

  lemma LateHeld(i: nat)
    ensures Sizes(LateState(i).blocks) <= USIZE_MAX
  {
    var bs := LateState(i).blocks;
    if bs != [] {
      SumsOfThree(bs[0], bs[if |bs| > 1 then 1 else 0], bs[|bs| - 1]);
      assert |bs| == 1 ==> bs == [bs[0]];
      assert |bs| == 2 ==> bs == [bs[0], bs[1]];
      assert |bs| == 3 ==> bs == [bs[0], bs[1], bs[2]];
    }
  }

  lemma LateTotal()
    ensures Accounted(LateState(12).blocks) == USIZE_MAX + 1
  {
    SumsOfThree(Block(0, HUGE, false), Block(HUGE, HUGE, true), Block(2, 2, true));
  }

  /** Matched frees alone do not keep the counter in range: this run clamps although what is held always fits. */
  lemma LateSubtractionClamps()
    ensures exists states: seq<State>, moves: seq<Move> ::
              Run(states, moves) && states[|moves|].live < Accounted(states[|moves|].blocks) &&
              forall k | 0 <= k < |states| :: Sizes(states[k].blocks) <= USIZE_MAX
  {
    var states := seq(13, i requires 0 <= i < 13 => LateState(i));
    var moves := seq(12, i requires 0 <= i < 12 => LateMove(i));
    forall i | 0 <= i < |moves| ensures Leads(states[i], moves[i], states[i + 1]) {
      if i == 0 || i == 5 || i == 6 || i == 9 {
        LateCallStarts(i);
      } else if i < 5 {
        LateFirst(i);
      } else {
        LateOthers(i);
      }
    }
    forall k | 0 <= k < |states| ensures Sizes(states[k].blocks) <= USIZE_MAX {
      LateHeld(k);
    }
    LateTotal();
    assert Run(states, moves) && states[12] == LateState(12);
  }
}
