/** Reading in the states a run can reach, and when recovery keeps reads right. */
module Recovery {
  import opened Bytes
  import opened Runs
  import opened Versions
  import opened Partition
  import opened PartitionOrder
  import opened PartitionProof
  import opened Reads

  /** The memtables a read looks at, newest first. */
  function Newest(mt: Run, imm: seq<Run>): (r: seq<Run>)
    ensures |r| == |imm| + 1
  {
    [mt] + seq(|imm|, i requires 0 <= i < |imm| => imm[|imm| - 1 - i])
  }

  lemma NewestFrom(mt: Run, imm: seq<Run>, i: nat)
    requires i <= |imm|
    ensures InRuns(Newest(mt, imm)[..i + 1]) == InRuns(imm[|imm| - i..]) + Elements(mt)
  {
    var k := |imm|;
    var ns, later := Newest(mt, imm)[..i + 1], imm[k - i..];
    forall e ensures e in InRuns(ns) <==> e in InRuns(later) + Elements(mt) {
      if e in InRuns(ns) {
        var j :| 0 <= j < |ns| && e in ns[j];
        if j > 0 { assert ns[j] == imm[k - j] == later[i - j]; }
      }
      if e in mt { assert e in ns[0]; }
      if e in InRuns(later) {
        var j :| 0 <= j < |later| && e in later[j];
        assert later[j] == imm[k - i + j] == ns[i - j];
      }
    }
  }

  lemma NewestAll(s: State)
    ensures InRuns(Newest(s.mt, s.imm)) + InTables(s.tables) == Stored(s)
  {
    NewestFrom(s.mt, s.imm, |s.imm|);
    assert Newest(s.mt, s.imm)[..|s.imm| + 1] == Newest(s.mt, s.imm);
    assert s.imm[0..] == s.imm;
  }

  /** In every state that serves reads the layers are in order, so a read may stop at the first
      memtable that knows the key. */
  lemma ServingLayered(states: seq<State>, steps: seq<Step>, n: nat)
    requires IsRun(states, steps) && CleanRotations(states, steps) && n < |states| && states[n].mode != Replaying
    ensures var s := states[n];
            Layered(Newest(s.mt, s.imm), InTables(s.tables)) && KeysOk(Stored(s)) &&
            (forall m :: m in Newest(s.mt, s.imm) ==> Sorted(m)) && Proper(s.tables)
  {
    var w := RunInv(states, steps, n, true);
    LayeredState(states[n], w);
    SortedState(states[n], w, true);
  }

  lemma StoredInLog(s: State, w: Witness, strict: bool)
    requires Inv(s, w, strict) && s.mode != Replaying
    ensures s.applied <= |s.log| && Stored(s) <= Span(s.log, 0, s.applied)
  {
    hide Order, CompactionOk, Best, Pipeline, Parts;
    MemSpan(s.log, s.mt, s.imm, s.applied, w.cuts, 0);
    assert s.imm[0..] == s.imm;
    SpanMono(s.log, 0, w.hi, 0, s.applied);
    SpanMono(s.log, w.cuts[0], s.applied, 0, s.applied);
  }

  lemma LayeredState(s: State, w: Witness)
    requires Inv(s, w, true) && s.mode != Replaying
    ensures Layered(Newest(s.mt, s.imm), InTables(s.tables)) && KeysOk(Stored(s))
  {
    hide Order, CompactionOk, TablesOk, Best, Pipeline, MemOk, Newest, Stored, Parts;
    var ns := Newest(s.mt, s.imm);
    StoredInLog(s, w, true);
    forall i, a, b | 0 <= i < |ns| && a in ns[i] && b in InRuns(ns[i + 1..]) + InTables(s.tables) &&
        User(a) == User(b) && Ts(a) < Ts(b)
      ensures b in InRuns(ns[..i + 1])
    {
      LayeredAt(s, w, i, a, b);
    }
  }

  lemma LayeredAt(s: State, w: Witness, i: nat, a: Entry, b: Entry)
    requires Inv(s, w, true) && s.mode != Replaying && i <= |s.imm| && User(a) == User(b) && Ts(a) < Ts(b)
    requires var ns := Newest(s.mt, s.imm); a in ns[i] && b in InRuns(ns[i + 1..]) + InTables(s.tables)
    ensures b in InRuns(Newest(s.mt, s.imm)[..i + 1])
  {
    hide Inv, MemOk, Span, Newest, Stored, InRuns, InTables, Clean;
    var ns, k := Newest(s.mt, s.imm), |s.imm|;
    StoredInLog(s, w, true); NewestAll(s);
    NewestFrom(s.mt, s.imm, i);
    MemShape(s, w, true);
    MemSpan(s.log, s.mt, s.imm, s.applied, w.cuts, k - i);
    RunsAround(ns, i, a, b);
    assert b in Stored(s);
    NewerIsLater(s.log, w.cuts[k - i], s.applied, s.applied, a, b);
  }

  lemma MemShape(s: State, w: Witness, strict: bool)
    requires Inv(s, w, strict)
    ensures MemOk(s.log, s.mt, s.imm, s.applied, w.cuts) && |w.cuts| == |s.imm| + 1 && CutsOk(s.log, w.cuts, strict)
  {
  }

  lemma RunsAround(ns: seq<Run>, i: nat, a: Entry, b: Entry)
    requires i < |ns|
    ensures a in ns[i] ==> a in InRuns(ns[..i + 1])
    ensures b in InRuns(ns[i + 1..]) ==> b in InRuns(ns)
  {
    if a in ns[i] { assert a in ns[..i + 1][i]; }
    assert ns == ns[..i + 1] + ns[i + 1..];
    InRunsAppend(ns[..i + 1], ns[i + 1..]);
  }

  lemma SortedState(s: State, w: Witness, strict: bool)
    requires Inv(s, w, strict)
    ensures (forall m :: m in Newest(s.mt, s.imm) ==> Sorted(m)) && Proper(s.tables)
  {
    hide Order, CompactionOk, Best, Pipeline, Sorted, Covers, Span, Parts;
    var ns := Newest(s.mt, s.imm);
    forall m | m in ns ensures Sorted(m) {
      var j :| 0 <= j < |ns| && ns[j] == m;
      if j > 0 { assert HoldsSpan(s.imm[|s.imm| - j], s.log, w.cuts[|s.imm| - j], w.cuts[|s.imm| - j + 1]); }
    }
  }

  /** While serving, a read at a timestamp that covers the log returns exactly what the applied log
      shows under the key: its newest version, or nothing if that is a deletion. */
  lemma ReadsShowLog(states: seq<State>, steps: seq<Step>, n: nat, user: Bytes, v: nat, r: Option<Entry>)
    requires IsRun(states, steps) && SafeRotations(states, steps) && n < |states| && states[n].mode != Replaying
    requires IsAnswer(Stored(states[n]), user, v, r)
    requires forall e :: e in states[n].log ==> Ts(e) <= v
    ensures states[n].applied <= |states[n].log|
    ensures forall e :: User(e) == user ==>
              (Shows(Span(states[n].log, 0, states[n].applied), e) <==> r == Some(e) && !Tomb(e))
  {
    var s := states[n];
    var w := RunInv(states, steps, n, false);
    ServingState(s, w, false); StoredInLog(s, w, false);
    OneVersionPerTs(s.log, s.applied);
    assert forall e :: e in Span(s.log, 0, s.applied) ==> e in s.log;
    AnswerShows(Stored(s), user, v, r);
  }

  lemma OneVersionPerTs(log: seq<Entry>, q: nat)
    requires Distinct(log) && q <= |log|
    ensures forall e, f :: e in Span(log, 0, q) && f in Span(log, 0, q) && User(e) == User(f) && Ts(e) == Ts(f) ==>
            e == f
  {
  }

  // ---------- what a replay restores ----------

  /** No compaction runs, and a table that has just been built holds its memtable. */
  ghost predicate Restoring(s: State)
  {
    s.mode == Replaying && s.compaction == NoCompaction &&
    (s.flusher.Built? && !s.flusher.task.isCompact ==> Elements(s.flusher.task.mt) <= InTables(s.tables))
  }

  ghost function Gain(s: State, step: Step): set<Entry>
  {
    if step.ReplayStore? && s.applied < |s.log| then {s.log[s.applied]} else {}
  }

  lemma RestoreRotate(s: State)
    requires Restoring(s) && Enabled(s, Rotate)
    ensures Restoring(After(s, Rotate)) && Stored(After(s, Rotate)) == Stored(s)
  {
    hide InTables, InRuns;
    InRunsAppend(s.imm, [s.mt]); InRunsOne(s.mt);
    assert Elements([]) == {};
  }

  lemma RestoreStore(s: State, w: Witness)
    requires Inv(s, w, false) && Restoring(s) && Enabled(s, ReplayStore)
    ensures Restoring(After(s, ReplayStore)) && Stored(After(s, ReplayStore)) == Stored(s) + {s.log[s.applied]}
  {
    MemHolds(s, w);
    hide Inv, InTables, InRuns, Put, Distinct, HoldsSpan;
    StoreGains(s.mt, s.log, w.cuts[|s.imm|], s.applied);
  }

  lemma StoreGains(mt: Run, log: seq<Entry>, a: nat, n: nat)
    requires Distinct(log) && HoldsSpan(mt, log, a, n) && n < |log|
    ensures Elements(Put(mt, log[n].key, log[n].vs)) == Elements(mt) + {log[n]}
  {
    hide Put, Distinct;
    PutSpan(mt, log, a, n);
    SpanJoin(log, a, n, n + 1);
    assert Span(log, n, n + 1) == {log[n]} by { InSpan(log, n, n + 1, n); }
  }

  lemma MemHolds(s: State, w: Witness)
    requires Inv(s, w, false)
    ensures Distinct(s.log) && |w.cuts| == |s.imm| + 1 && HoldsSpan(s.mt, s.log, w.cuts[|s.imm|], s.applied)
  {
    hide Order, HoldsSpan, TablesOk, CompactionOk, VptrOk, CutsOk, Distinct;
  }

  lemma RestoreBuild(s: State)
    requires Order(s) && Restoring(s) && Enabled(s, Build)
    ensures Restoring(After(s, Build)) && Stored(After(s, Build)) == Stored(s)
  {
    var t := s.flusher.task;
    OldestTask(s, t);
    hide InTables, InRuns, Order;
    InTablesAppend(s.tables, TableOf(t)); InTableOf(t);
    assert s.imm == [t.mt] + s.imm[1..];
    InRunsAppend([t.mt], s.imm[1..]); InRunsOne(t.mt);
  }

  lemma RestorePop(s: State)
    requires Order(s) && Restoring(s) && Enabled(s, Pop)
    ensures Restoring(After(s, Pop)) && Stored(After(s, Pop)) == Stored(s)
  {
    var t := s.flusher.task;
    OldestTask(s, t);
    hide InTables, InRuns, Order;
    assert s.imm == [t.mt] + s.imm[1..];
    InRunsAppend([t.mt], s.imm[1..]); InRunsOne(t.mt);
  }

  /** The flusher works on the oldest memtable. */
  lemma OldestTask(s: State, t: Task)
    requires Order(s) && s.compaction == NoCompaction && (s.flusher == Holding(t) || s.flusher == Built(t))
    ensures !t.isCompact && s.imm != [] && s.imm[0] == t.mt
  {
    hide Best, OutputsOk, Unbuilt;
    PopFacts(t, s.queue); BuildFacts(t, s.queue);
  }

  /** While replaying, only storing an entry changes what is stored; flushing moves it about. */
  lemma RestoreStep(s: State, w: Witness, step: Step)
    requires Inv(s, w, false) && Restoring(s) && Enabled(s, step) && !step.Crash? && !step.StartServing?
    ensures Restoring(After(s, step)) && Stored(After(s, step)) == Stored(s) + Gain(s, step)
  {
    hide Stored, Order, Content, InTables;
    match step {
      case Rotate => RestoreRotate(s);
      case ReplayStore => RestoreStore(s, w);
      case Build => RestoreBuild(s);
      case Pop => RestorePop(s);
      case _ => RestoreRest(s, step);
    }
  }

  lemma RestoreRest(s: State, step: Step)
    requires Restoring(s) && Enabled(s, step) && !step.Crash? && !step.StartServing?
    requires !step.Rotate? && !step.ReplayStore? && !step.Build? && !step.Pop?
    ensures Restoring(After(s, step)) && Stored(After(s, step)) == Stored(s)
  {
  }

  /** From a crash on, what is stored is what the published tables hold and what of the log has been replayed. */
  lemma {:induction false} Restored(states: seq<State>, steps: seq<Step>, k: nat, n: nat)
    requires IsRun(states, steps) && SafeRotations(states, steps) && k < n <= |steps| && steps[k] == Crash
    requires forall i :: k < i < n ==> !steps[i].Crash? && !steps[i].StartServing?
    ensures var s, s', from := states[k], states[n], Best(states[k].published).vp;
            && Restoring(s') && s'.log == s.log && from <= s'.applied <= |s.log|
            && Stored(s') == InTables(s.published) + Span(s.log, from, s'.applied)
  {
    hide Inv, Enabled, After, Stored, InTables, Span, Best, Rotations;
    var s, from := states[k], Best(states[k].published).vp;
    var w := RunInv(states, steps, n - 1, false);
    var t, step := states[n - 1], steps[n - 1];
    assert Enabled(t, step) && states[(n - 1) + 1] == After(t, step);
    if n == k + 1 {
      Crashed(s);
      AfterCrash(s, w);
    } else {
      Restored(states, steps, k, n - 1);
      RestoreStep(t, w, step);
      ReplayMoves(t, step, from);
      hide Restoring, Gain, IsRun;
      assert InTables(s.published) + Span(s.log, from, t.applied) + Gain(t, step) ==
             InTables(s.published) + (Span(s.log, from, t.applied) + Gain(t, step));
    }
  }

  lemma AfterCrash(s: State, w: Witness)
    requires Inv(s, w, false)
    ensures var s', from := Reopened(s), Best(s.published).vp;
            && Restoring(s') && s'.log == s.log && from == s'.applied <= |s.log|
            && Stored(s') == InTables(s.published) + Span(s.log, from, s'.applied)
  {
    var w' := StepCrash(s, w, false);
    PublishedIn(s, w);
    assert InRuns([]) == {};
    SpanEmpty(s.log, Best(s.published).vp);
  }

  lemma PublishedIn(s: State, w: Witness)
    requires Inv(s, w, false)
    ensures Best(s.published).vp <= |s.log|
  {
    hide Order, MemOk, CompactionOk, VptrOk, CutsOk, Best;
    CrashTables(s.log, s.published, w.pubCut, w.pubHi, false);
  }

  /** The log stays, and only storing moves on in it. */
  lemma ReplayMoves(s: State, step: Step, from: nat)
    requires Enabled(s, step) && s.mode == Replaying && s.compaction == NoCompaction && !step.Crash? &&
             !step.StartServing?
    requires from <= s.applied <= |s.log|
    ensures var s' := After(s, step);
            && s'.log == s.log && from <= s'.applied <= |s.log|
            && Span(s.log, from, s'.applied) == Span(s.log, from, s.applied) + Gain(s, step)
  {
    if step.ReplayStore? {
      SpanJoin(s.log, from, s.applied, s.applied + 1);
      assert Span(s.log, s.applied, s.applied + 1) == {s.log[s.applied]} by {
        InSpan(s.log, s.applied, s.applied + 1, s.applied);
      }
    }
  }

  /** When replay has reached the end of the log, the partition holds exactly what Durability speaks of. */
  lemma ReplayRestores(states: seq<State>, steps: seq<Step>, k: nat, n: nat)
    requires IsRun(states, steps) && SafeRotations(states, steps) && k < n < |steps| && steps[k] == Crash
    requires steps[n] == StartServing && forall i :: k < i < n ==> !steps[i].Crash? && !steps[i].StartServing?
    ensures Stored(states[n + 1]) == Recoverable(states[k])
  {
    hide Stored, InTables, Span;
    Restored(states, steps, k, n);
    assert Enabled(states[n], steps[n]) && states[n + 1] == After(states[n], steps[n]);
    SameStored(states[n]);
  }

  lemma SameStored(s: State)
    ensures Stored(s.(mode := Serving)) == Stored(s)
  {
  }
}
