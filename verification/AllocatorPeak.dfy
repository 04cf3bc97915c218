/** What the recorded peak and the pending peak updates amount to, and which step moves it. */
module AllocatorPeak {
  import opened AllocatorProbe

  // ----- the recorded mark

  ghost predicate Quiescent(s: State) {
    forall t | t in s.threads :: s.threads[t].Idle?
  }

  function Max(a: nat, b: nat): nat {
    if a < b then b else a
  }

  /** `high` is the peak, or the greatest value some thread will still bring to it. */
  ghost predicate MarkIs(s: State, high: nat) {
    MarkAmong(s, s.threads.Keys, high)
  }

  /** The greatest of the peak and what the listed threads still owe it. */
  ghost predicate MarkAmong(s: State, ts: set<ThreadId>, high: nat)
    requires ts <= s.threads.Keys
  {
    && s.peak <= high && (forall t | t in ts && s.threads[t].Outstanding() :: s.threads[t].seen <= high)
    && (s.peak == high || exists t :: t in ts && s.threads[t].Outstanding() && s.threads[t].seen == high)
  }

  lemma MarkUnique(s: State, a: nat, b: nat)
    ensures MarkIs(s, a) && MarkIs(s, b) ==> a == b
  {
  }

  lemma {:induction false} MarkExists(s: State, ts: set<ThreadId>)
    requires ts <= s.threads.Keys
    ensures exists high :: MarkAmong(s, ts, high)
  {
    if ts == {} {
      assert MarkAmong(s, ts, s.peak);
    } else {
      var t :| t in ts;
      MarkExists(s, ts - {t});
      var high :| MarkAmong(s, ts - {t}, high);
      if s.threads[t].Outstanding() && s.threads[t].seen > high {
        assert MarkAmong(s, ts, s.threads[t].seen);
      } else {
        assert MarkAmong(s, ts, high);
      }
    }
  }

  ghost function Mark(s: State): (high: nat)
    ensures MarkIs(s, high)
  {
    MarkExists(s, s.threads.Keys);
    var high :| MarkAmong(s, s.threads.Keys, high);
    high
  }

  /** A step that does not write the peak and gives up only what the peak already covers. */
  lemma MarkKept(s: State, s': State, t: ThreadId, high: nat)
    requires MarkIs(s, high) && t in s.threads && OnlyThread(s, s', t) && s'.peak == s.peak
    requires s'.threads[t].Outstanding() ==> s'.threads[t].seen <= high
    requires s.threads[t].Outstanding() && s.threads[t].seen > s.peak ==>
               s'.threads[t].Outstanding() && s'.threads[t].seen == s.threads[t].seen
    ensures MarkIs(s', high)
  {
    assert forall u | u in s'.threads && u != t :: u in s.threads && s'.threads[u] == s.threads[u];
    if s.peak != high {
      var u :| u in s.threads && s.threads[u].Outstanding() && s.threads[u].seen == high;
      assert u in s'.threads && s'.threads[u].Outstanding() && s'.threads[u].seen == high;
    }
  }

  /** Raising LIVE_BYTES leaves the raising thread owing its new value. */
  lemma MarkRaised(s: State, s': State, t: ThreadId, high: nat)
    requires MarkIs(s, high) && t in s.threads && OnlyThread(s, s', t) && s'.peak == s.peak
    requires !s.threads[t].Outstanding() && s'.threads[t].PeakLoad? && s'.threads[t].seen == s'.live
    ensures MarkIs(s', Max(high, s'.live))
  {
    assert forall u | u in s'.threads && u != t :: u in s.threads && s'.threads[u] == s.threads[u];
    if s'.live < high && s.peak != high {
      var u :| u in s.threads && s.threads[u].Outstanding() && s.threads[u].seen == high;
      assert u in s'.threads && s'.threads[u].Outstanding() && s'.threads[u].seen == high;
    }
  }

  /** A successful peak exchange only ever raises the peak to a value that was owed. */
  lemma MarkRecorded(s: State, s': State, t: ThreadId, high: nat)
    requires MarkIs(s, high) && t in s.threads && OnlyThread(s, s', t)
    requires s.threads[t].Outstanding() && s'.threads[t].Idle? && s.peak < s'.peak == s.threads[t].seen
    ensures MarkIs(s', high)
  {
    assert forall u | u in s'.threads && u != t :: u in s.threads && s'.threads[u] == s.threads[u];
    if s'.peak != high {
      var u :| u in s.threads && s.threads[u].Outstanding() && s.threads[u].seen == high;
      assert u in s'.threads && s'.threads[u].Outstanding() && s'.threads[u].seen == high;
    }
  }

  predicate StoresReset(s: State, t: ThreadId, a: Action) {
    t in s.threads && a.Proceed? && s.threads[t].ResetStore?
  }

  predicate Raises(s: State, t: ThreadId, a: Action) {
    t in s.threads && a == Proceed(true) && s.threads[t].AddCas?
  }

  lemma ProceedMark(s: State, t: ThreadId, succeeds: bool, high: nat)
    requires MarkIs(s, high) && Enabled(s, t, Proceed(succeeds)) && !s.threads[t].ResetStore?
    ensures var s' := ApplyProceed(s, t, succeeds);
            MarkIs(s', if succeeds && s.threads[t].AddCas? then Max(high, s'.live) else high)
  {
    var s', pc := ApplyProceed(s, t, succeeds), s.threads[t];
    if pc.AddCas? && succeeds {
      MarkRaised(s, s', t, high);
    } else if pc.PeakCas? && pc.seen > pc.peak && succeeds {
      MarkRecorded(s, s', t, high);
    } else {
      MarkKept(s, s', t, high);
    }
  }

  /** Outside reset stores, the mark moves only when LIVE_BYTES is raised, and then to the new value if greater. */
  lemma StepMark(s: State, t: ThreadId, a: Action)
    requires Enabled(s, t, a) && !StoresReset(s, t, a)
    ensures var s' := Apply(s, t, a); Mark(s') == if Raises(s, t, a) then Max(Mark(s), s'.live) else Mark(s)
  {
    var s', high := Apply(s, t, a), Mark(s);
    if a.Proceed? {
      ProceedMark(s, t, a.succeeds, high);
    } else {
      MarkKept(s, s', t, high);
    }
    MarkUnique(s', Mark(s'), if Raises(s, t, a) then Max(high, s'.live) else high);
  }

  // ----- resets

  /** The baseline is still what is live, and nobody will bring more than that to the peak. */
  ghost predicate CleanStore(s: State, t: ThreadId) {
    && t in s.threads && s.threads[t].ResetStore? && s.threads[t].baseline == s.live
    && forall u | u in s.threads && s.threads[u].Outstanding() :: s.threads[u].seen <= s.live
  }

  lemma CleanStoreMarksLive(s: State, t: ThreadId, succeeds: bool)
    requires CleanStore(s, t) && Enabled(s, t, Proceed(succeeds))
    ensures var s' := Apply(s, t, Proceed(succeeds)); Mark(s') == s'.live == s.live
  {
    var s' := Apply(s, t, Proceed(succeeds));
    assert forall u | u in s'.threads && u != t :: u in s.threads && s'.threads[u] == s.threads[u];
    MarkUnique(s', Mark(s'), s.live);
  }

  ghost predicate OthersIdle(s: State, t: ThreadId) {
    forall u | u in s.threads && u != t :: s.threads[u].Idle?
  }

  /** Measurements are reset while no other call is in flight, and nothing runs between its load and store. */
  ghost predicate QuiescentReset(s: State, t: ThreadId, a: Action) {
    && (a.Reset? ==> OthersIdle(s, t))
    && (forall u | u in s.threads && s.threads[u].ResetStore? :: u == t)
  }

  ghost predicate ResetsPrepared(s: State) {
    forall t | t in s.threads && s.threads[t].ResetStore? :: OthersIdle(s, t) && s.threads[t].baseline == s.live
  }

  lemma PreparedStep(s: State, t: ThreadId, a: Action)
    requires ResetsPrepared(s) && Enabled(s, t, a) && QuiescentReset(s, t, a)
    ensures ResetsPrepared(Apply(s, t, a)) && (StoresReset(s, t, a) ==> CleanStore(s, t))
  {
    var s' := Apply(s, t, a);
    assert forall u | u in s'.threads && u != t :: u in s.threads && s'.threads[u] == s.threads[u];
    if a.Reset? {
      assert OthersIdle(s', t);
    }
  }
}
