/** The invariant of every run of a partition, and what follows from it. */
module PartitionProof {
  import opened Runs
  import opened Versions
  import opened Partition
  import opened PartitionOrder

  // ---------- the invariant ----------

  /** Memtable i holds the log between cuts i and i+1. The tables cover the log up to the base (the
      first cut, or the second once the oldest memtable's table exists), and hold nothing past `hi`.
      `pubCut` and `pubHi` say the same of the published tables, `compCut` of a compaction's inputs. */
  datatype Witness = Witness(cuts: seq<nat>, hi: nat, pubCut: nat, pubHi: nat, compCut: nat)

  ghost predicate LogOk(log: seq<Entry>, starts: seq<nat>)
  {
    && Distinct(log) && |starts| == |log|
    && (forall i :: 0 <= i < |log| ==>
          starts[i] <= i && |log[i].key| > 8 && Ts(log[i]) > 0 && log[i].vs.expiresAt == 0)
  }

  ghost predicate HoldsSpan(r: Run, log: seq<Entry>, a: nat, b: nat)
  {
    a <= b <= |log| && Sorted(r) && Elements(r) == Span(log, a, b)
  }

  ghost predicate MemOk(log: seq<Entry>, mt: Run, imm: seq<Run>, applied: nat, cuts: seq<nat>)
  {
    && |cuts| == |imm| + 1
    && (forall i :: 0 <= i < |imm| ==> HoldsSpan(imm[i], log, cuts[i], cuts[i + 1]))
    && HoldsSpan(mt, log, cuts[|imm|], applied)
  }

  ghost predicate CutsOk(log: seq<Entry>, cuts: seq<nat>, strict: bool)
  {
    forall i :: 0 <= i < |cuts| ==> Parts(log, cuts[i], strict)
  }

  /** The position a flush asks to replay from lies before the end of its memtable and is clean. */
  ghost predicate VptrOk(log: seq<Entry>, p: seq<Task>, cuts: seq<nat>, strict: bool)
  {
    |cuts| == |p| + 1 && forall i :: 0 <= i < |p| ==> p[i].vptr <= cuts[i + 1] && Parts(log, p[i].vptr, strict)
  }

  ghost function Base(f: Flusher, cuts: seq<nat>): nat
    requires |cuts| > 0
  {
    if HalfDone(f) && |cuts| > 1 then cuts[1] else cuts[0]
  }

  ghost predicate Proper(ts: seq<Table>) { forall i :: 0 <= i < |ts| ==> Sorted(ts[i].run) && ts[i].run != [] }

  /** The tables stand for the log up to `cut` and would be replayed from there or before. */
  ghost predicate TablesOk(log: seq<Entry>, ts: seq<Table>, cut: nat, hi: nat, strict: bool)
  {
    && Covers(InTables(ts), log, cut, hi) && Best(ts).vp <= cut && Proper(ts)
    && Parts(log, cut, strict) && Parts(log, hi, strict)
    && forall t :: t in ts ==> t.vp <= |log| && Parts(log, t.vp, strict)
  }

  function RunsOf(q: seq<Task>): seq<Run> { seq(|q|, i requires 0 <= i < |q| => q[i].mt) }

  ghost predicate CompactionOk(log: seq<Entry>, ts: seq<Table>, unbuilt: seq<Task>, c: Compaction, base: nat, hi: nat,
      cut: nat, strict: bool)
  {
    c.Compacting? ==>
      var n := c.inputs;
      && n <= |ts| && cut <= base <= |log| && Parts(log, cut, strict)
      && Covers(InTables(ts[..n]), log, cut, hi)
      && InTables(ts[n..]) + InRuns(c.todo) + InRuns(RunsOf(unbuilt)) ==
         Survivors(InTables(ts[..n])) + Span(log, cut, base)
      && InRuns(c.todo) + InRuns(RunsOf(unbuilt)) <= InTables(ts[..n])
      && Best(ts[..n]).vp <= cut
      && (forall t :: t in ts[n..] ==> t.vp <= base)
      && (forall r :: r in c.todo ==> Sorted(r)) && (forall t :: t in unbuilt ==> Sorted(t.mt))
  }

  ghost predicate Content(s: State, w: Witness, strict: bool)
  {
    && LogOk(s.log, s.starts)
    && MemOk(s.log, s.mt, s.imm, s.applied, w.cuts)
    && w.cuts != [] && CutsOk(s.log, w.cuts, strict) && VptrOk(s.log, Pipeline(s.flusher, s.queue), w.cuts, strict)
    && TablesOk(s.log, s.tables, Base(s.flusher, w.cuts), w.hi, strict)
    && TablesOk(s.log, s.published, w.pubCut, w.pubHi, strict)
    && CompactionOk(s.log, s.tables, Unbuilt(s.flusher, s.queue), s.compaction, Base(s.flusher, w.cuts), w.hi,
       w.compCut, strict)
    && s.vhead <= s.applied && Parts(s.log, s.vhead, strict)
    && s.acked <= Span(s.log, 0, |s.log|)
    && (s.mode != Replaying ==>
          w.hi <= s.applied <= |s.log| && Parts(s.log, s.applied, strict) && s.acked <= Span(s.log, 0, s.applied))
  }

  ghost predicate Inv(s: State, w: Witness, strict: bool) { Order(s) && Content(s, w, strict) }

  /** How the cuts move in a step that is not a crash: a new one is where the log is applied, and the
      tables advance only by whole memtables. */
  ghost predicate Advances(s: State, w: Witness, s': State, w': Witness)
    requires w.cuts != [] && w'.cuts != []
  {
    var b, b' := Base(s.flusher, w.cuts), Base(s'.flusher, w'.cuts);
    && (forall x :: x in w'.cuts ==> x in w.cuts || x == s.applied)
    && ((b' == b && w'.hi == w.hi) || (b' >= b && w'.hi == if w.hi < b' then b' else w.hi))
  }

  /** What such a step adds to the tables, unless it ends a compaction: the log the tables advance by. */
  ghost predicate Grows(s: State, w: Witness, s': State, w': Witness)
    requires w.cuts != [] && w'.cuts != []
  {
    var b, b' := Base(s.flusher, w.cuts), Base(s'.flusher, w'.cuts);
    if b' == b then InTables(s'.tables) == InTables(s.tables)
    else b < b' <= |s.log| && InTables(s'.tables) == InTables(s.tables) + Span(s.log, b, b')
  }

  // ---------- facts about lists ----------

  lemma InTablesAppend(a: seq<Table>, b: seq<Table>)
    ensures InTables(a + b) == InTables(a) + InTables(b)
  {
    forall e | e in InTables(a) + InTables(b) ensures e in InTables(a + b) {
      if e in InTables(a) {
        var i :| 0 <= i < |a| && e in a[i].run; assert e in (a + b)[i].run;
      } else {
        var i :| 0 <= i < |b| && e in b[i].run; assert e in (a + b)[|a| + i].run;
      }
    }
  }

  lemma InRunsAppend(a: seq<Run>, b: seq<Run>)
    ensures InRuns(a + b) == InRuns(a) + InRuns(b)
  {
    forall e | e in InRuns(a) + InRuns(b) ensures e in InRuns(a + b) {
      if e in InRuns(a) {
        var i :| 0 <= i < |a| && e in a[i]; assert e in (a + b)[i];
      } else {
        var i :| 0 <= i < |b| && e in b[i]; assert e in (a + b)[|a| + i];
      }
    }
  }

  lemma InRunsOne(r: Run)
    ensures InRuns([r]) == Elements(r)
  {
    forall e | e in r ensures e in InRuns([r]) { assert e in [r][0]; }
  }

  lemma InTableOf(t: Task)
    ensures InTables(TableOf(t)) == Elements(t.mt)
  {
    if t.mt != [] {
      forall e | e in t.mt ensures e in InTables(TableOf(t)) { assert e in TableOf(t)[0].run; }
    }
  }

  // ---------- writing ----------

  lemma CoversPrefix(t: set<Entry>, log: seq<Entry>, more: seq<Entry>, p: nat, q: nat)
    requires Covers(t, log, p, q)
    ensures Covers(t, log + more, p, q)
  {
    SpanPrefix(log, more, p, q); SpanPrefix(log, more, 0, q);
  }

  lemma HoldsPrefix(r: Run, log: seq<Entry>, more: seq<Entry>, a: nat, b: nat)
    requires HoldsSpan(r, log, a, b)
    ensures HoldsSpan(r, log + more, a, b)
  {
    SpanPrefix(log, more, a, b);
  }

  lemma TablesPrefix(log: seq<Entry>, batch: seq<Entry>, ts: seq<Table>, cut: nat, hi: nat, strict: bool)
    requires TablesOk(log, ts, cut, hi, strict) && Newer(log, batch)
    ensures TablesOk(log + batch, ts, cut, hi, strict)
  {
    hide Covers, Parts, Newer, Best, InTables;
    CoversIn(InTables(ts), log, cut, hi);
    CoversPrefix(InTables(ts), log, batch, cut, hi);
    PartsPrefix(log, batch, cut, strict); PartsPrefix(log, batch, hi, strict);
    forall t | t in ts ensures Parts(log + batch, t.vp, strict) { PartsPrefix(log, batch, t.vp, strict); }
  }

  lemma MemPrefix(log: seq<Entry>, batch: seq<Entry>, mt: Run, imm: seq<Run>, applied: nat, cuts: seq<nat>)
    requires MemOk(log, mt, imm, applied, cuts)
    ensures MemOk(log + batch, mt, imm, applied, cuts)
  {
    hide HoldsSpan;
    forall i | 0 <= i < |imm| ensures HoldsSpan(imm[i], log + batch, cuts[i], cuts[i + 1]) {
      HoldsPrefix(imm[i], log, batch, cuts[i], cuts[i + 1]);
    }
    HoldsPrefix(mt, log, batch, cuts[|imm|], applied);
  }

  lemma CutsPrefix(log: seq<Entry>, batch: seq<Entry>, cuts: seq<nat>, p: seq<Task>, strict: bool)
    requires CutsOk(log, cuts, strict) && VptrOk(log, p, cuts, strict) && Newer(log, batch)
    requires forall i :: 0 <= i < |cuts| ==> cuts[i] <= |log|
    ensures CutsOk(log + batch, cuts, strict) && VptrOk(log + batch, p, cuts, strict)
  {
    hide Parts, Newer;
    forall i | 0 <= i < |cuts| ensures Parts(log + batch, cuts[i], strict) { PartsPrefix(log, batch, cuts[i], strict); }
    forall i | 0 <= i < |p| ensures Parts(log + batch, p[i].vptr, strict) {
      PartsPrefix(log, batch, p[i].vptr, strict);
    }
  }

  lemma CompactionPrefix(log: seq<Entry>, batch: seq<Entry>, ts: seq<Table>, u: seq<Task>, c: Compaction, base: nat,
      hi: nat, cut: nat, strict: bool)
    requires CompactionOk(log, ts, u, c, base, hi, cut, strict) && Newer(log, batch)
    ensures CompactionOk(log + batch, ts, u, c, base, hi, cut, strict)
  {
    hide Covers, Parts, Newer, Best, InTables, Survivors, InRuns, Span;
    if c.Compacting? {
      CoversPrefix(InTables(ts[..c.inputs]), log, batch, cut, hi);
      SpanPrefix(log, batch, cut, base);
      PartsPrefix(log, batch, cut, strict);
    }
  }

  lemma LogPrefix(log: seq<Entry>, starts: seq<nat>, batch: seq<Entry>, more: seq<nat>)
    requires LogOk(log, starts) && Distinct(batch) && Newer(log, batch) && |more| == |batch|
    requires forall i :: 0 <= i < |batch| ==> more[i] <= |log| + i
    requires forall e :: e in batch ==> |e.key| > 8 && Ts(e) > 0 && e.vs.expiresAt == 0
    ensures LogOk(log + batch, starts + more)
  {
    DistinctAppend(log, batch);
    forall i | 0 <= i < |log + batch|
      ensures (starts + more)[i] <= i && |(log + batch)[i].key| > 8 && Ts((log + batch)[i]) > 0 &&
              (log + batch)[i].vs.expiresAt == 0
    {
      if i >= |log| { assert (log + batch)[i] == batch[i - |log|]; }
    }
  }

  lemma StepLogAppend(s: State, w: Witness, batch: seq<Entry>, starts: seq<nat>, strict: bool)
    requires Inv(s, w, strict) && Enabled(s, LogAppend(batch, starts))
    ensures Content(After(s, LogAppend(batch, starts)), w, strict)
  {
    hide Order, MemOk, CutsOk, VptrOk, TablesOk, CompactionOk, LogOk, Parts, Newer, Distinct, Pipeline, Unbuilt, Best,
         Span;
    LogPrefix(s.log, s.starts, batch, starts);
    MemPrefix(s.log, batch, s.mt, s.imm, s.applied, w.cuts);
    CutsIn(s.log, s.mt, s.imm, s.applied, w.cuts);
    CutsPrefix(s.log, batch, w.cuts, Pipeline(s.flusher, s.queue), strict);
    TablesPrefix(s.log, batch, s.tables, Base(s.flusher, w.cuts), w.hi, strict);
    TablesPrefix(s.log, batch, s.published, w.pubCut, w.pubHi, strict);
    CompactionPrefix(s.log, batch, s.tables, Unbuilt(s.flusher, s.queue), s.compaction, Base(s.flusher, w.cuts), w.hi,
        w.compCut, strict);
    PartsPrefix(s.log, batch, s.vhead, strict); PartsEnd(s.log, batch, strict);
    SpanPrefix(s.log, batch, 0, |s.log|); SpanMono(s.log + batch, 0, |s.log|, 0, |s.log + batch|);
  }

  lemma CutsIn(log: seq<Entry>, mt: Run, imm: seq<Run>, applied: nat, cuts: seq<nat>)
    requires MemOk(log, mt, imm, applied, cuts)
    ensures applied <= |log| && forall i :: 0 <= i < |cuts| ==> cuts[i] <= applied
  {
    CutsGrow(log, mt, imm, applied, cuts, 0);
    forall i | 0 <= i < |cuts| ensures cuts[i] <= applied { CutsGrow(log, mt, imm, applied, cuts, i); }
  }

  /** Equal keys mean equal entries. */
  ghost predicate Consistent(s: set<Entry>) { forall e, f :: e in s && f in s && e.key == f.key ==> e == f }

  lemma {:induction false} PutAllElements(r: Run, es: seq<Entry>)
    requires Sorted(r) && Consistent(Elements(r) + Elements(es))
    ensures Sorted(PutAll(r, es)) && Elements(PutAll(r, es)) == Elements(r) + Elements(es)
    decreases |es|
  {
    hide Put, Sorted;
    if es != [] {
      var r' := Put(r, es[0].key, es[0].vs);
      PutSorted(r, es[0].key, es[0].vs);
      assert es == [es[0]] + es[1..];
      forall e ensures e in r' <==> e in Elements(r) + {es[0]} {
        PutHolds(r, es[0].key, es[0].vs, e);
        assert es[0] in Elements(es);
      }
      assert Elements(r') == Elements(r) + {es[0]};
      assert Elements(r') + Elements(es[1..]) == Elements(r) + Elements(es);
      PutAllElements(r', es[1..]);
    }
  }

  lemma LogConsistent(log: seq<Entry>, a: nat, b: nat)
    requires Distinct(log) && b <= |log|
    ensures Consistent(Span(log, a, b))
  {
    forall e, f | e in Span(log, a, b) && f in Span(log, a, b) && e.key == f.key ensures e == f {
      var i: nat :| a <= i < b && log[i] == e;
      var j: nat :| a <= j < b && log[j] == f;
    }
  }

  /** Putting the next stretch of the log, in any order, into the memtable that holds the stretch before. */
  lemma PutAllSpan(r: Run, log: seq<Entry>, a: nat, b: nat, c: nat, order: seq<Entry>)
    requires Distinct(log) && HoldsSpan(r, log, a, b) && b <= c <= |log|
    requires multiset(order) == multiset(log[b..c])
    ensures HoldsSpan(PutAll(r, order), log, a, c)
    ensures Elements(order) == Span(log, b, c)
  {
    OrderSpan(log, b, c, order);
    SpanJoin(log, a, b, c);
    LogConsistent(log, a, c);
    PutAllElements(r, order);
  }

  lemma OrderSpan(log: seq<Entry>, b: nat, c: nat, order: seq<Entry>)
    requires b <= c <= |log| && multiset(order) == multiset(log[b..c])
    ensures Elements(order) == Span(log, b, c)
  {
    forall e ensures e in Elements(order) <==> e in Span(log, b, c) {
      assert e in order <==> e in multiset(order);
      assert e in log[b..c] <==> e in multiset(log[b..c]);
      if e in log[b..c] { var i: nat :| i < c - b && log[b..c][i] == e; InSpan(log, b, c, b + i); }
      if e in Span(log, b, c) { var i: nat :| b <= i < c && log[i] == e; assert log[b..c][i - b] == e; }
    }
  }

  lemma StepApplyBatch(s: State, w: Witness, order: seq<Entry>, strict: bool)
    requires Inv(s, w, strict) && Enabled(s, ApplyBatch(order))
    ensures Content(After(s, ApplyBatch(order)), w, strict)
  {
    hide Order, HoldsSpan, Pipeline, Unbuilt, TablesOk, CompactionOk, CutsOk, VptrOk;
    assert s.log[s.applied..] == s.log[s.applied..|s.log|];
    PutAllSpan(s.mt, s.log, w.cuts[|s.imm|], s.applied, |s.log|, order);
    SpanMono(s.log, s.applied, |s.log|, 0, |s.log|);
  }

  lemma StepReplayStore(s: State, w: Witness, strict: bool)
    requires Inv(s, w, strict) && Enabled(s, ReplayStore)
    ensures Content(After(s, ReplayStore), w, strict)
  {
    hide Order, HoldsSpan, Pipeline, Unbuilt, TablesOk, CompactionOk, CutsOk, VptrOk, Best, Parts;
    PutSpan(s.mt, s.log, w.cuts[|s.imm|], s.applied);
  }

  lemma PutSpan(r: Run, log: seq<Entry>, a: nat, b: nat)
    requires Distinct(log) && HoldsSpan(r, log, a, b) && b < |log|
    ensures HoldsSpan(Put(r, log[b].key, log[b].vs), log, a, b + 1)
  {
    hide HoldsSpan;
    var e := log[b];
    assert log[b..b + 1] == [e];
    PutAllSpan(r, log, a, b, b + 1, [e]);
    assert PutAll(r, [e]) == Put(r, e.key, e.vs) by { assert [e][1..] == []; }
  }

  lemma StepModes(s: State, w: Witness, step: Step, strict: bool)
    requires Inv(s, w, strict) && Enabled(s, step)
    requires step.NoRoom? || step.Stamp? || step.ReplaySee? || step.StartServing?
    ensures Content(After(s, step), w, strict)
  {
    hide Order, HoldsSpan, MemOk, Pipeline, Unbuilt, CompactionOk, TablesOk, CutsOk, VptrOk, Best;
    CoversAt(s.log, s.tables, Base(s.flusher, w.cuts), w.hi, strict);
    PartsEnd(s.log, [], strict);
  }

  lemma CoversAt(log: seq<Entry>, ts: seq<Table>, cut: nat, hi: nat, strict: bool)
    requires TablesOk(log, ts, cut, hi, strict)
    ensures hi <= |log|
  {
  }

  // ---------- the flush pipeline ----------

  lemma HoldsEmpty(log: seq<Entry>, a: nat)
    requires a <= |log|
    ensures HoldsSpan([], log, a, a)
  {
  }

  /** Rotating closes the current stretch of the log and starts an empty one. */
  lemma StepRotate(s: State, w: Witness, step: Step, strict: bool) returns (w': Witness)
    requires Inv(s, w, strict) && Enabled(s, step) && (step.Rotate? || (step.Close? && s.mt != [])) &&
             RotationOk(s, step, strict)
    ensures Content(After(s, step), w', strict) && w.cuts != [] && Advances(s, w, After(s, step), w')
    ensures Grows(s, w, After(s, step), w')
  {
    hide Order, MemOk, TablesOk, CompactionOk, VptrOk, Best, Unbuilt, Pipeline, Span, Parts;
    w' := w.(cuts := w.cuts + [s.applied]);
    var s' := After(s, step);
    var t := s'.queue[|s.queue|];
    RotateFacts(s.flusher, s.queue, t);
    RotateMem(s.log, s.mt, s.imm, s.applied, w.cuts);
    RotateVptr(s.log, Pipeline(s.flusher, s.queue), w.cuts, t, s.applied, strict);
    BaseKept(s, w, strict);
  }

  lemma RotateMem(log: seq<Entry>, mt: Run, imm: seq<Run>, applied: nat, cuts: seq<nat>)
    requires MemOk(log, mt, imm, applied, cuts)
    ensures MemOk(log, [], imm + [mt], applied, cuts + [applied])
  {
    CutsGrow(log, mt, imm, applied, cuts, 0);
    HoldsEmpty(log, applied);
    hide HoldsSpan;
  }

  lemma RotateVptr(log: seq<Entry>, p: seq<Task>, cuts: seq<nat>, t: Task, applied: nat, strict: bool)
    requires VptrOk(log, p, cuts, strict) && t.vptr <= applied && Parts(log, t.vptr, strict)
    ensures VptrOk(log, p + [t], cuts + [applied], strict)
  {
    hide Parts;
  }

  lemma BaseKept(s: State, w: Witness, strict: bool)
    requires Inv(s, w, strict)
    ensures Base(s.flusher, w.cuts + [s.applied]) == Base(s.flusher, w.cuts)
  {
    hide MemOk, TablesOk, CompactionOk, Best, Unreported, Unbuilt, Span, LogOk, Pipeline, Parts;
    if HalfDone(s.flusher) { PopFacts(s.flusher.task, s.queue); }
  }

  lemma StepTake(s: State, w: Witness, strict: bool)
    requires Inv(s, w, strict) && Enabled(s, Take)
    ensures Content(After(s, Take), w, strict)
  {
    hide Order, MemOk, TablesOk, CompactionOk, VptrOk, CutsOk, Best, Pipeline, Unbuilt, LogOk;
    TakeFacts(s.queue);
  }

  /** The oldest memtable becomes a table. */
  lemma StepBuildFlush(s: State, w: Witness, strict: bool) returns (w': Witness)
    requires Inv(s, w, strict) && Enabled(s, Build) && !s.flusher.task.isCompact
    ensures Content(After(s, Build), w', strict) && w.cuts != [] && Advances(s, w, After(s, Build), w')
    ensures Grows(s, w, After(s, Build), w')
  {
    hide MemOk, CompactionOk, TablesOk, PipeOk, Best, Span, Unbuilt, Unreported, Pipeline, CutsOk, VptrOk, Parts;
    var t, s' := s.flusher.task, After(s, Build);
    BuildFacts(t, s.queue);
    BuildMem(s, w, t, strict);
    BuildTables(s, w, t, strict);
    var x, y := w.cuts[0], w.cuts[1];
    var hi := if w.hi < y then y else w.hi;
    w' := w.(hi := hi);
    TablesGrow(s.log, s.tables, t, x, y, w.hi, hi, strict);
    FlushGrows(s, w, w', strict);
    if s.compaction.Compacting? {
      CompactionGrow(s.log, s.tables, t, Unbuilt(s.flusher, s.queue), s.compaction, x, y, w.hi, hi, w.compCut, strict);
    } else {
      NoCompactionOk(s'.log, s'.tables, Unbuilt(s'.flusher, s'.queue), s'.compaction, y, hi, w.compCut, strict);
    }
  }

  lemma FlushGrows(s: State, w: Witness, w': Witness, strict: bool)
    requires Inv(s, w, strict) && Enabled(s, Build) && !s.flusher.task.isCompact && w'.cuts == w.cuts && |w.cuts| > 1
    requires HoldsSpan(s.flusher.task.mt, s.log, w.cuts[0], w.cuts[1])
    ensures Grows(s, w, After(s, Build), w')
  {
    hide Inv, InTables, Span;
    InTablesAppend(s.tables, TableOf(s.flusher.task)); InTableOf(s.flusher.task);
    if w.cuts[0] == w.cuts[1] { SpanEmpty(s.log, w.cuts[0]); }
  }

  lemma NoCompactionOk(log: seq<Entry>, ts: seq<Table>, u: seq<Task>, c: Compaction, base: nat, hi: nat, cut: nat,
                       strict: bool)
    requires c == NoCompaction
    ensures CompactionOk(log, ts, u, c, base, hi, cut, strict)
  {
  }

  lemma BuildTables(s: State, w: Witness, t: Task, strict: bool)
    requires Inv(s, w, strict) && s.flusher == Holding(t) && Pipeline(s.flusher, s.queue) != [] &&
             t == Pipeline(s.flusher, s.queue)[0]
    ensures t.seqNum > Best(s.tables).seqNum && w.hi <= |s.log| && w.cuts[0] <= w.hi && Parts(s.log, w.hi, strict)
  {
    hide MemOk, CompactionOk, Parts;
  }

  lemma BuildMem(s: State, w: Witness, t: Task, strict: bool)
    requires Inv(s, w, strict) && Pipeline(s.flusher, s.queue) != [] && t == Pipeline(s.flusher, s.queue)[0]
    ensures |w.cuts| > 1 && HoldsSpan(t.mt, s.log, w.cuts[0], w.cuts[1]) && t.vptr <= w.cuts[1]
    ensures w.cuts[1] <= s.applied && Parts(s.log, t.vptr, strict)
    ensures Parts(s.log, w.cuts[0], strict) && Parts(s.log, w.cuts[1], strict)
  {
    hide HoldsSpan, Parts;
    CutsGrow(s.log, s.mt, s.imm, s.applied, w.cuts, 1);
  }

  lemma {:induction false} CutsGrow(log: seq<Entry>, mt: Run, imm: seq<Run>, applied: nat, cuts: seq<nat>, i: nat)
    requires MemOk(log, mt, imm, applied, cuts) && i <= |imm|
    ensures cuts[i] <= applied <= |log|
    decreases |imm| - i
  {
    if i < |imm| {
      assert HoldsSpan(imm[i], log, cuts[i], cuts[i + 1]);
      CutsGrow(log, mt, imm, applied, cuts, i + 1);
    }
  }

  lemma TablesGrow(log: seq<Entry>, ts: seq<Table>, t: Task, x: nat, y: nat, hi: nat, hi': nat, strict: bool)
    requires TablesOk(log, ts, x, hi, strict) && HoldsSpan(t.mt, log, x, y)
    requires (hi' == hi || hi' == y) && hi <= hi' <= |log| && y <= hi' && Parts(log, y, strict)
    requires t.vptr <= y && Parts(log, t.vptr, strict) && t.seqNum > Best(ts).seqNum
    ensures TablesOk(log, ts + TableOf(t), y, hi', strict)
  {
    hide Covers, Parts, InTables, Span, Best;
    PartsSafe(log, hi, strict);
    CoversExtend(InTables(ts), log, x, hi, hi');
    CoversAbsorb(InTables(ts), log, x, y, hi');
    InTablesAppend(ts, TableOf(t)); InTableOf(t);
    if t.mt != [] { BestAppend(ts, Table(t.mt, t.seqNum, t.vptr)); } else { assert ts + TableOf(t) == ts; }
  }

  lemma CompactionGrow(log: seq<Entry>, ts: seq<Table>, t: Task, unbuilt: seq<Task>, c: Compaction,
                       x: nat, y: nat, hi: nat, hi': nat, cut: nat, strict: bool)
    requires Parts(log, hi, strict) && c.Compacting? && CompactionOk(log, ts, unbuilt, c, x, hi, cut, strict)
    requires HoldsSpan(t.mt, log, x, y) && hi <= hi' <= |log| && t.vptr <= y
    ensures CompactionOk(log, ts + TableOf(t), unbuilt, c, y, hi', cut, strict)
  {
    hide Covers, Best, InTables, InRuns, Survivors, Span, RunsOf, Parts;
    var n := c.inputs;
    var ts' := ts + TableOf(t);
    PartsSafe(log, hi, strict);
    CoversExtend(InTables(ts[..n]), log, cut, hi, hi');
    assert ts'[..n] == ts[..n] && ts'[n..] == ts[n..] + TableOf(t);
    InTablesAppend(ts[n..], TableOf(t)); InTableOf(t);
    SpanJoin(log, cut, x, y);
  }

  /** A compaction output becomes a table. */
  lemma StepBuildCompact(s: State, w: Witness, strict: bool)
    requires Inv(s, w, strict) && Enabled(s, Build) && s.flusher.task.isCompact
    ensures Content(After(s, Build), w, strict) && w.cuts != []
    ensures Advances(s, w, After(s, Build), w) && Grows(s, w, After(s, Build), w)
  {
    hide Order, MemOk, TablesOk, CompactionOk, OutputsOk, Unbuilt, Pipeline, Span, Parts, CutsOk, VptrOk, Best, LogOk;
    var t := s.flusher.task;
    NowCompacting(s);
    OutputsOf(s);
    BuildFacts(t, s.queue);
    CompactOutput(s.log, s.tables, t, Unbuilt(Built(t), s.queue), s.compaction, Base(s.flusher, w.cuts), w.hi,
                  w.compCut, strict);
  }

  lemma OutputsOf(s: State)
    requires Order(s)
    ensures OutputsOk(s.tables, Unbuilt(s.flusher, s.queue), s.compaction)
  {
  }

  lemma CompactOutput(log: seq<Entry>, ts: seq<Table>, t: Task, rest: seq<Task>, c: Compaction, base: nat, hi: nat,
      cut: nat, strict: bool)
    requires c.Compacting? && CompactionOk(log, ts, [t] + rest, c, base, hi, cut, strict)
    requires TablesOk(log, ts, base, hi, strict) && OutputsOk(ts, [t] + rest, c)
    ensures CompactionOk(log, ts + TableOf(t), rest, c, base, hi, cut, strict)
    ensures TablesOk(log, ts + TableOf(t), base, hi, strict)
    ensures Best(ts + TableOf(t)) == Best(ts) && InTables(ts + TableOf(t)) == InTables(ts)
  {
    hide Covers, Shows, InTables, InRuns, Survivors, Span, RunsOf, Best, Parts;
    var n := c.inputs;
    BestParts(log, ts[..n], strict);
    var ts' := ts + TableOf(t);
    assert t in [t] + rest;
    assert ts'[..n] == ts[..n] && ts'[n..] == ts[n..] + TableOf(t);
    InTablesAppend(ts[n..], TableOf(t)); InTableOf(t); InTablesAppend(ts, TableOf(t));
    RunsOfCons(t, rest);
    InRunsAppend([t.mt], RunsOf(rest)); InRunsOne(t.mt);
    OutputsKnown(log, ts, t, rest, c, base, hi, cut, strict);
    assert InTables(ts') == InTables(ts);
    BestPrefix(ts, n);
    if t.mt != [] { BestAppend(ts, Table(t.mt, t.seqNum, t.vptr)); } else { assert ts' == ts; }
  }

  lemma BestParts(log: seq<Entry>, ts: seq<Table>, strict: bool)
    requires forall t :: t in ts ==> Parts(log, t.vp, strict)
    ensures Parts(log, Best(ts).vp, strict)
  {
    BestAttained(ts);
  }

  lemma RunsOfCons(t: Task, rest: seq<Task>)
    ensures RunsOf([t] + rest) == [t.mt] + RunsOf(rest)
  {
  }

  /** Every version in a compaction output is already in some table. */
  lemma OutputsKnown(log: seq<Entry>, ts: seq<Table>, t: Task, rest: seq<Task>, c: Compaction, base: nat, hi: nat,
      cut: nat, strict: bool)
    requires c.Compacting? && CompactionOk(log, ts, [t] + rest, c, base, hi, cut, strict)
    ensures Elements(t.mt) <= InTables(ts)
  {
    hide Covers, Survivors, Span, Best, InRuns, InTables;
    RunsOfCons(t, rest); InRunsAppend([t.mt], RunsOf(rest)); InRunsOne(t.mt);
    assert ts == ts[..c.inputs] + ts[c.inputs..];
    InTablesAppend(ts[..c.inputs], ts[c.inputs..]);
  }

  lemma StepPop(s: State, w: Witness, strict: bool) returns (w': Witness)
    requires Inv(s, w, strict) && Enabled(s, Pop)
    ensures Content(After(s, Pop), w', strict) && w.cuts != [] && Advances(s, w, After(s, Pop), w')
    ensures Grows(s, w, After(s, Pop), w')
  {
    hide TablesOk, CompactionOk, OutputsOk, Unbuilt, Unreported, Best, Span, Pipeline, MemOk, PipeOk, Parts;
    var t := s.flusher.task;
    PopFacts(t, s.queue);
    OrderPop(s);
    w' := if t.isCompact then w else w.(cuts := w.cuts[1..]);
    if !t.isCompact {
      PopVptr(s.log, t, Pipeline(Popped(t), s.queue), w.cuts, strict);
      PopMem(s.log, s.mt, s.imm, s.applied, w.cuts);
    }
  }

  lemma PopVptr(log: seq<Entry>, t: Task, p: seq<Task>, cuts: seq<nat>, strict: bool)
    requires VptrOk(log, [t] + p, cuts, strict) && CutsOk(log, cuts, strict)
    ensures |cuts| > 1 && VptrOk(log, p, cuts[1..], strict) && CutsOk(log, cuts[1..], strict)
  {
    hide Parts;
    forall i | 0 <= i < |p| ensures p[i].vptr <= cuts[1..][i + 1] && Parts(log, p[i].vptr, strict) {
      assert p[i] == ([t] + p)[i + 1];
    }
  }

  lemma PopMem(log: seq<Entry>, mt: Run, imm: seq<Run>, applied: nat, cuts: seq<nat>)
    requires MemOk(log, mt, imm, applied, cuts) && imm != []
    ensures MemOk(log, mt, imm[1..], applied, cuts[1..])
  {
    hide HoldsSpan;
    forall i | 0 <= i < |imm[1..]| ensures HoldsSpan(imm[1..][i], log, cuts[1..][i], cuts[1..][i + 1]) {
      assert HoldsSpan(imm[i + 1], log, cuts[i + 1], cuts[i + 2]);
    }
  }

  lemma StepPublish(s: State, w: Witness, strict: bool) returns (w': Witness)
    requires Inv(s, w, strict) && Enabled(s, Publish)
    ensures Content(After(s, Publish), w', strict) && w.cuts != [] && Advances(s, w, After(s, Publish), w')
    ensures Grows(s, w, After(s, Publish), w')
  {
    hide Order, MemOk, TablesOk, CompactionOk, Unbuilt, Best, Span, Pipeline, VptrOk, CutsOk, Parts;
    PopFacts(s.flusher.task, s.queue);
    w' := if s.tables == [] then w else w.(pubCut := Base(s.flusher, w.cuts), pubHi := w.hi);
    CompactionWaiting(s.log, s.tables, Unbuilt(s.flusher, s.queue), s.compaction, Base(s.flusher, w.cuts), w.hi,
        w.compCut, strict);
  }

  lemma CompactionWaiting(log: seq<Entry>, ts: seq<Table>, u: seq<Task>, c: Compaction, base: nat, hi: nat, cut: nat,
                          strict: bool)
    requires CompactionOk(log, ts, u, c, base, hi, cut, strict)
    ensures c.Compacting? ==> forall n :: CompactionOk(log, ts, u, c.(waiting := n), base, hi, cut, strict)
  {
  }

  // ---------- compaction ----------

  lemma StepCompactStart(s: State, w: Witness, chunks: seq<Run>, strict: bool) returns (w': Witness)
    requires Inv(s, w, strict) && Enabled(s, CompactStart(chunks))
    ensures Content(After(s, CompactStart(chunks)), w', strict) && w.cuts != [] &&
            Advances(s, w, After(s, CompactStart(chunks)), w') && Grows(s, w, After(s, CompactStart(chunks)), w')
  {
    hide MemOk, PipeOk, OutputsOk, Best, Span, Pipeline, TablesOk, CompactionOk, InRuns, InTables, VptrOk, CutsOk,
         Parts;
    w' := w.(compCut := Base(s.flusher, w.cuts));
    NoneUnbuilt(s.flusher, s.queue);
    StartCompaction(s.log, s.tables, chunks, Base(s.flusher, w.cuts), w.hi, strict);
  }

  lemma StartCompaction(log: seq<Entry>, ts: seq<Table>, chunks: seq<Run>, base: nat, hi: nat, strict: bool)
    requires TablesOk(log, ts, base, hi, strict)
    requires (forall r :: r in chunks ==> Sorted(r)) && InRuns(chunks) == Survivors(InTables(ts))
    ensures CompactionOk(log, ts, [], Compacting(|ts|, chunks, 0), base, hi, base, strict)
  {
    hide Best, Span, Survivors, InRuns, Covers;
    CoversIn(InTables(ts), log, base, hi);
    var n := |ts|;
    assert ts[..n] == ts && ts[n..] == [];
    assert InTables([]) == {};
    SpanEmpty(log, base); NoRuns(); SurvivorsSubset(InTables(ts));
  }

  lemma CoversIn(t: set<Entry>, log: seq<Entry>, p: nat, q: nat)
    requires Covers(t, log, p, q)
    ensures p <= q <= |log|
  {
  }

  lemma SpanEmpty(log: seq<Entry>, a: nat)
    requires a <= |log|
    ensures Span(log, a, a) == {}
  {
  }

  lemma NoRuns()
    ensures InRuns(RunsOf([])) == {} && InRuns([]) == {}
  {
  }

  lemma SurvivorsSubset(t: set<Entry>)
    ensures Survivors(t) <= t
  {
  }

  lemma StepCompactEnqueue(s: State, w: Witness, strict: bool)
    requires Inv(s, w, strict) && Enabled(s, CompactEnqueue)
    ensures Content(After(s, CompactEnqueue), w, strict)
  {
    hide Order, MemOk, TablesOk, Span, Best, Pipeline, Unbuilt, CompactionOk, VptrOk, CutsOk, Parts;
    var s' := After(s, CompactEnqueue);
    CompactionIn(s.log, s.tables, Unbuilt(s.flusher, s.queue), s.compaction, Base(s.flusher, w.cuts), w.hi, w.compCut,
        strict);
    var t := s'.queue[|s.queue|];
    EnqueueFacts(s.flusher, s.queue, t);
    EnqueueOutput(s.log, s.tables, Unbuilt(s.flusher, s.queue), s.compaction, t, Base(s.flusher, w.cuts), w.hi,
        w.compCut, strict);
    CompactionWaiting(s.log, s.tables, Unbuilt(s'.flusher, s'.queue), s.compaction.(todo := s.compaction.todo[1..]),
                      Base(s.flusher, w.cuts), w.hi, w.compCut, strict);
  }

  lemma CompactionIn(log: seq<Entry>, ts: seq<Table>, u: seq<Task>, c: Compaction, base: nat, hi: nat, cut: nat,
                     strict: bool)
    requires c.Compacting? && CompactionOk(log, ts, u, c, base, hi, cut, strict)
    ensures c.inputs <= |ts|
  {
  }

  lemma EnqueueOutput(log: seq<Entry>, ts: seq<Table>, u: seq<Task>, c: Compaction, t: Task, base: nat, hi: nat,
      cut: nat, strict: bool)
    requires c.Compacting? && c.todo != [] && CompactionOk(log, ts, u, c, base, hi, cut, strict)
    requires t.mt == c.todo[0]
    ensures CompactionOk(log, ts, u + [t], c.(todo := c.todo[1..]), base, hi, cut, strict)
  {
    hide Covers, Survivors, Span, Best, InTables, InRuns;
    assert RunsOf(u + [t]) == RunsOf(u) + [t.mt];
    InRunsAppend(RunsOf(u), [t.mt]);
    assert c.todo == [t.mt] + c.todo[1..];
    InRunsAppend([t.mt], c.todo[1..]);
  }

  /** The inputs leave the list. */
  lemma StepCompactFinish(s: State, w: Witness, strict: bool) returns (w': Witness)
    requires Inv(s, w, strict) && Enabled(s, CompactFinish)
    ensures Content(After(s, CompactFinish), w', strict) && w.cuts != [] && Advances(s, w, After(s, CompactFinish), w')
  {
    hide PipeOk, OutputsOk, MemOk, Span, Best, Pipeline, Covers, CompactionOk, TablesOk, VptrOk, CutsOk, Parts;
    var n, base := s.compaction.inputs, Base(s.flusher, w.cuts);
    var rest := s.tables[Min(n, |s.tables|)..];
    NoneUnbuilt(s.flusher, s.queue);
    FinishTables(s.log, s.tables, s.compaction, base, w.hi, w.compCut, strict);
    w' := if rest == [] then w else w.(pubCut := base, pubHi := w.hi);
    NoCompactionOk(s.log, rest, Unbuilt(s.flusher, s.queue), NoCompaction, base, w.hi, w.compCut, strict);
  }

  lemma FinishTables(log: seq<Entry>, ts: seq<Table>, c: Compaction, base: nat, hi: nat, cut: nat, strict: bool)
    requires c.Compacting? && c.todo == [] && CompactionOk(log, ts, [], c, base, hi, cut, strict)
    requires TablesOk(log, ts, base, hi, strict)
    ensures c.inputs <= |ts| && TablesOk(log, ts[c.inputs..], base, hi, strict)
  {
    hide Survivors, Span, InTables, InRuns, Best, Covers, Parts;
    var rest := ts[c.inputs..];
    NoRuns();
    CoversIn(InTables(ts), log, base, hi);
    PartsSafe(log, cut, strict);
    CoversCompact(InTables(ts[..c.inputs]), log, cut, hi);
    CoversAbsorb(Survivors(InTables(ts[..c.inputs])), log, cut, base, hi);
    BestIsMax(ts);
    BestBound(rest, base, Best(ts).seqNum);
  }

  // ---------- crash ----------

  lemma StepCrash(s: State, w: Witness, strict: bool) returns (w': Witness)
    requires Inv(s, w, strict)
    ensures Content(Reopened(s), w', strict)
  {
    hide Order, MemOk, Span, Best, CompactionOk, TablesOk, Parts;
    var v := Best(s.published).vp;
    CrashTables(s.log, s.published, w.pubCut, w.pubHi, strict);
    PartsEnd(s.log, [], strict); NoTasks();
    w' := Witness([v], w.pubHi, w.pubCut, w.pubHi, 0);
    OneMem(s.log, v);
    NoCompactionOk(s.log, s.published, [], NoCompaction, v, w.pubHi, 0, strict);
  }

  lemma CrashTables(log: seq<Entry>, ts: seq<Table>, cut: nat, hi: nat, strict: bool)
    requires TablesOk(log, ts, cut, hi, strict)
    ensures Best(ts).vp <= |log| && TablesOk(log, ts, Best(ts).vp, hi, strict) && Parts(log, Best(ts).vp, strict)
  {
    hide Best, Covers, Parts;
    BestParts(log, ts, strict); PartsSafe(log, Best(ts).vp, strict);
    CoversFromEarlier(InTables(ts), log, Best(ts).vp, cut, hi);
    CoversIn(InTables(ts), log, Best(ts).vp, hi);
  }

  lemma OneMem(log: seq<Entry>, v: nat)
    requires v <= |log|
    ensures MemOk(log, [], [], v, [v])
  {
  }

  // ---------- every run ----------

  lemma StepClose(s: State, w: Witness, strict: bool) returns (w': Witness)
    requires Inv(s, w, strict) && Enabled(s, Close)
    ensures Content(After(s, Close), w', strict) && w.cuts != [] && Advances(s, w, After(s, Close), w')
    ensures Grows(s, w, After(s, Close), w')
  {
    hide Inv, Content, Enabled, After, Advances, Grows;
    if s.mt == [] {
      CloseEmpty(s, w, strict);
      w' := w;
    } else {
      CloseRotates(s, strict);
      w' := StepRotate(s, w, Close, strict);
    }
  }

  lemma CloseEmpty(s: State, w: Witness, strict: bool)
    requires Inv(s, w, strict) && Enabled(s, Close) && s.mt == []
    ensures Content(After(s, Close), w, strict) && w.cuts != [] && Advances(s, w, After(s, Close), w)
    ensures Grows(s, w, After(s, Close), w)
  {
    hide Order, MemOk, TablesOk, CompactionOk, VptrOk, CutsOk, Best, Pipeline, Unbuilt, LogOk, Parts, Span, InTables;
  }

  lemma CloseRotates(s: State, strict: bool)
    ensures RotationOk(s, Close, strict)
  {
  }

  lemma StepBuild(s: State, w: Witness, strict: bool) returns (w': Witness)
    requires Inv(s, w, strict) && Enabled(s, Build)
    ensures Content(After(s, Build), w', strict) && w.cuts != [] && Advances(s, w, After(s, Build), w')
    ensures Grows(s, w, After(s, Build), w')
  {
    hide Inv, Content, After, Advances, Grows;
    if s.flusher.task.isCompact {
      StepBuildCompact(s, w, strict);
      w' := w;
    } else {
      w' := StepBuildFlush(s, w, strict);
    }
  }

  /** Steps that move no cut. */
  predicate Still(step: Step)
  {
    step.LogAppend? || step.NoRoom? || step.Stamp? || step.ApplyBatch? || step.ReplaySee? || step.ReplayStore? ||
    step.StartServing? || step.Take? || step.CompactEnqueue?
  }

  lemma StepStill(s: State, w: Witness, step: Step, strict: bool)
    requires Inv(s, w, strict) && Enabled(s, step) && Still(step)
    ensures Content(After(s, step), w, strict)
  {
    hide Inv, Content, Enabled, After;
    match step
    case LogAppend(batch, starts) => StepLogAppend(s, w, batch, starts, strict);
    case NoRoom => StepModes(s, w, step, strict);
    case Stamp => StepModes(s, w, step, strict);
    case ApplyBatch(order) => StepApplyBatch(s, w, order, strict);
    case ReplaySee => StepModes(s, w, step, strict);
    case ReplayStore => StepReplayStore(s, w, strict);
    case StartServing => StepModes(s, w, step, strict);
    case Take => StepTake(s, w, strict);
    case CompactEnqueue => StepCompactEnqueue(s, w, strict);
  }

  lemma StepMoves(s: State, w: Witness, step: Step, strict: bool) returns (w': Witness)
    requires Inv(s, w, strict) && Enabled(s, step) && RotationOk(s, step, strict) && !Still(step) && !step.Crash?
    ensures Content(After(s, step), w', strict) && w.cuts != [] && w'.cuts != []
    ensures Advances(s, w, After(s, step), w') && (!step.CompactFinish? ==> Grows(s, w, After(s, step), w'))
  {
    hide Inv, Content, Enabled, After, RotationOk, Advances, Grows;
    match step {
      case Rotate => w' := StepRotate(s, w, step, strict);
      case Close => w' := StepClose(s, w, strict);
      case Build => w' := StepBuild(s, w, strict);
      case Pop => w' := StepPop(s, w, strict);
      case Publish => w' := StepPublish(s, w, strict);
      case CompactStart(chunks) => w' := StepCompactStart(s, w, chunks, strict);
      case CompactFinish => w' := StepCompactFinish(s, w, strict);
    }
    SomeCut(After(s, step), w', strict);
  }

  lemma StepInv(s: State, w: Witness, step: Step, strict: bool) returns (w': Witness)
    requires Inv(s, w, strict) && Enabled(s, step) && RotationOk(s, step, strict)
    ensures Inv(After(s, step), w', strict)
    ensures w.cuts != [] && w'.cuts != [] && (!step.Crash? ==> Advances(s, w, After(s, step), w'))
    ensures !step.Crash? && !step.CompactFinish? ==> Grows(s, w, After(s, step), w')
  {
    hide Inv, Content, Enabled, After, RotationOk, Advances, Grows, Order, Still;
    InvParts(s, w, strict); SomeCut(s, w, strict);
    StepOrder(s, step);
    w' := w;
    if step.Crash? {
      w' := StepCrash(s, w, strict); Crashed(s);
    } else if Still(step) {
      StepStill(s, w, step, strict); Stays(s, w, step);
    } else {
      w' := StepMoves(s, w, step, strict);
    }
    InvParts(After(s, step), w', strict); SomeCut(After(s, step), w', strict);
  }

  lemma Crashed(s: State)
    ensures Enabled(s, Crash) && After(s, Crash) == Reopened(s)
  {
  }

  lemma InvParts(s: State, w: Witness, strict: bool)
    ensures Inv(s, w, strict) <==> Order(s) && Content(s, w, strict)
  {
  }

  lemma SomeCut(s: State, w: Witness, strict: bool)
    requires Content(s, w, strict)
    ensures w.cuts != []
  {
  }

  lemma Stays(s: State, w: Witness, step: Step)
    requires Enabled(s, step) && w.cuts != [] && Still(step)
    ensures Advances(s, w, After(s, step), w) && Grows(s, w, After(s, step), w)
  {
  }

  lemma InitialInv(strict: bool)
    ensures Inv(INITIAL, Witness([0], 0, 0, 0, 0), strict)
  {
    hide Order, MemOk, TablesOk, CompactionOk, Span, Pipeline, Unbuilt, Best, VptrOk, LogOk;
    InitialOrder(); InitialLog(strict);
    OneMem([], 0);
    NoTables(strict); NoTasks();
    NoCompactionOk([], [], [], NoCompaction, 0, 0, 0, strict);
  }

  lemma InitialLog(strict: bool)
    ensures LogOk([], []) && VptrOk([], [], [0], strict)
  {
  }

  lemma NoTables(strict: bool)
    ensures TablesOk([], [], 0, 0, strict)
  {
    assert InTables([]) == {};
  }

  /** Witnesses for the moments of a run up to some moment, each got from the one before. */
  ghost predicate Linked(states: seq<State>, steps: seq<Step>, ws: seq<Witness>, strict: bool)
    requires |states| == |steps| + 1
  {
    && 0 < |ws| <= |states|
    && (forall k :: 0 <= k < |ws| ==> Inv(states[k], ws[k], strict) && ws[k].cuts != [])
    && (forall k :: 0 <= k < |ws| - 1 ==> Link(states[k], ws[k], steps[k], states[k + 1], ws[k + 1]))
  }

  ghost predicate Link(s: State, w: Witness, step: Step, s': State, w': Witness)
  {
    && w.cuts != [] && w'.cuts != [] && (!step.Crash? ==> Advances(s, w, s', w'))
    && (!step.Crash? && !step.CompactFinish? ==> Grows(s, w, s', w'))
  }

  lemma {:induction false} RunLinked(states: seq<State>, steps: seq<Step>, n: nat, strict: bool)
    returns (ws: seq<Witness>)
    requires IsRun(states, steps) && Rotations(states, steps, strict) && n < |states|
    ensures |ws| == n + 1 && Linked(states, steps, ws, strict)
  {
    hide Inv, Enabled, After, RotationOk, Advances, Grows;
    if n == 0 {
      InitialInv(strict);
      ws := [Witness([0], 0, 0, 0, 0)];
    } else {
      var vs := RunLinked(states, steps, n - 1, strict);
      assert Enabled(states[n - 1], steps[n - 1]) && states[(n - 1) + 1] == After(states[n - 1], steps[n - 1]);
      assert RotationOk(states[n - 1], steps[n - 1], strict);
      var w := StepInv(states[n - 1], vs[n - 1], steps[n - 1], strict);
      ws := vs + [w];
      forall k | 0 <= k < n ensures Link(states[k], ws[k], steps[k], states[k + 1], ws[k + 1]) {
        if k < n - 1 { assert Link(states[k], vs[k], steps[k], states[k + 1], vs[k + 1]); }
      }
    }
  }

  lemma RunInv(states: seq<State>, steps: seq<Step>, n: nat, strict: bool) returns (w: Witness)
    requires IsRun(states, steps) && Rotations(states, steps, strict) && n < |states|
    ensures Inv(states[n], w, strict)
  {
    hide Inv;
    var ws := RunLinked(states, steps, n, strict);
    w := ws[n];
  }

  // ---------- what every run promises ----------

  /** What a reopened partition holds once replay is done. */
  ghost function Recoverable(s: State): set<Entry>
  {
    InTables(s.published) + Span(s.log, Best(s.published).vp, |s.log|)
  }

  /** Durability: at every moment of every run, a crash now and a replay show exactly what the whole
      log shows, and every acknowledged version is in the log. */
  lemma Durability(states: seq<State>, steps: seq<Step>, n: nat)
    requires IsRun(states, steps) && SafeRotations(states, steps) && n < |states|
    ensures var s := states[n];
            Faithful(Recoverable(s), Span(s.log, 0, |s.log|)) && s.acked <= Span(s.log, 0, |s.log|)
  {
    var w := RunInv(states, steps, n, false);
    DurableState(states[n], w, false);
  }

  lemma DurableState(s: State, w: Witness, strict: bool)
    requires Inv(s, w, strict)
    ensures Faithful(Recoverable(s), Span(s.log, 0, |s.log|)) && s.acked <= Span(s.log, 0, |s.log|)
  {
    hide Order, MemOk, CompactionOk, Best, Parts;
    PartsSafe(s.log, w.pubHi, strict);
    CoversExtend(InTables(s.published), s.log, w.pubCut, w.pubHi, |s.log|);
    BestParts(s.log, s.published, strict); PartsSafe(s.log, Best(s.published).vp, strict);
    CoversFromEarlier(InTables(s.published), s.log, Best(s.published).vp, w.pubCut, |s.log|);
  }

  /** An acknowledged version is recovered, or a newer version of its key is logged, or it is a deletion. */
  lemma AckedSurvives(states: seq<State>, steps: seq<Step>, n: nat, e: Entry)
    requires IsRun(states, steps) && SafeRotations(states, steps) && n < |states| && e in states[n].acked
    ensures var s := states[n];
            e in Recoverable(s) || Tomb(e) ||
            exists f :: f in Span(s.log, 0, |s.log|) && User(f) == User(e) && Ts(f) > Ts(e)
  {
    Durability(states, steps, n);
    var s := states[n];
    var l := Span(s.log, 0, |s.log|);
    assert Shows(Recoverable(s), e) <==> Shows(l, e);
  }

  /** The memtables and tables a reader sees. */
  ghost function Stored(s: State): set<Entry> { InTables(s.tables) + InRuns(s.imm) + Elements(s.mt) }

  /** While serving, memtables and tables together show what the applied part of the log shows; the
      acknowledged versions are in that part. */
  lemma ServingShowsLog(states: seq<State>, steps: seq<Step>, n: nat)
    requires IsRun(states, steps) && SafeRotations(states, steps) && n < |states| && states[n].mode != Replaying
    ensures var s := states[n];
            s.applied <= |s.log| && Faithful(Stored(s), Span(s.log, 0, s.applied)) &&
                s.acked <= Span(s.log, 0, s.applied)
  {
    var w := RunInv(states, steps, n, false);
    ServingState(states[n], w, false);
  }

  lemma ServingState(s: State, w: Witness, strict: bool)
    requires Inv(s, w, strict) && s.mode != Replaying
    ensures s.applied <= |s.log| && Faithful(Stored(s), Span(s.log, 0, s.applied)) &&
            s.acked <= Span(s.log, 0, s.applied)
  {
    hide Order, CompactionOk, Best, Pipeline, Parts;
    MemSpan(s.log, s.mt, s.imm, s.applied, w.cuts, 0);
    BaseAfter(s, w, strict);
    PartsSafe(s.log, w.hi, strict); PartsSafe(s.log, w.cuts[0], strict);
    CoversExtend(InTables(s.tables), s.log, Base(s.flusher, w.cuts), w.hi, s.applied);
    CoversFromEarlier(InTables(s.tables), s.log, w.cuts[0], Base(s.flusher, w.cuts), s.applied);
    assert s.imm[0..] == s.imm;
    assert Stored(s) == InTables(s.tables) + Span(s.log, w.cuts[0], s.applied);
  }

  lemma BaseAfter(s: State, w: Witness, strict: bool)
    requires Inv(s, w, strict)
    ensures w.cuts[0] <= Base(s.flusher, w.cuts) <= s.applied
  {
    if HalfDone(s.flusher) && |w.cuts| > 1 {
      assert HoldsSpan(s.imm[0], s.log, w.cuts[0], w.cuts[0 + 1]);
      CutsGrow(s.log, s.mt, s.imm, s.applied, w.cuts, 1);
    } else {
      CutsGrow(s.log, s.mt, s.imm, s.applied, w.cuts, 0);
    }
  }

  /** The memtables from i on hold the log from their first cut to the end of what is applied. */
  lemma {:induction false} MemSpan(log: seq<Entry>, mt: Run, imm: seq<Run>, applied: nat, cuts: seq<nat>, i: nat)
    requires MemOk(log, mt, imm, applied, cuts) && i <= |imm|
    ensures cuts[i] <= applied <= |log|
    ensures InRuns(imm[i..]) + Elements(mt) == Span(log, cuts[i], applied)
    decreases |imm| - i
  {
    hide Sorted;
    if i == |imm| {
      assert imm[i..] == [] && InRuns([]) == {};
    } else {
      MemSpan(log, mt, imm, applied, cuts, i + 1);
      assert imm[i..] == [imm[i]] + imm[i + 1..];
      InRunsAppend([imm[i]], imm[i + 1..]); InRunsOne(imm[i]);
      assert HoldsSpan(imm[i], log, cuts[i], cuts[i + 1]);
      SpanJoin(log, cuts[i], cuts[i + 1], applied);
    }
  }

  /** Whatever the rotations, the log of a run is well formed. */
  lemma {:induction false} RunLog(states: seq<State>, steps: seq<Step>, n: nat)
    requires IsRun(states, steps) && n < |states|
    ensures LogOk(states[n].log, states[n].starts)
  {
    hide LogOk;
    if n == 0 {
      InitialLog(true);
    } else {
      RunLog(states, steps, n - 1);
      var s, step := states[n - 1], steps[n - 1];
      assert Enabled(s, step) && states[(n - 1) + 1] == After(s, step);
      if step.LogAppend? { LogPrefix(s.log, s.starts, step.batch, step.starts); }
    }
  }

  // ---------- how the memtable is rotated ----------

  lemma CleanIsSafe(states: seq<State>, steps: seq<Step>)
    requires CleanRotations(states, steps)
    ensures SafeRotations(states, steps)
  {
    forall i | 0 <= i < |steps| && i < |states| ensures RotationOk(states[i], steps[i], false) {
      assert RotationOk(states[i], steps[i], true);
    }
  }

  /** No batch logs a deletion ahead of an older live version of the same key. */
  ghost predicate OrderlyBatches(steps: seq<Step>)
  {
    forall i :: 0 <= i < |steps| && steps[i].LogAppend? ==> DeletesInOrder(steps[i].batch)
  }

  lemma {:induction false} LogInOrder(states: seq<State>, steps: seq<Step>, n: nat)
    requires IsRun(states, steps) && OrderlyBatches(steps) && n < |states|
    ensures DeletesInOrder(states[n].log)
  {
    if n > 0 {
      LogInOrder(states, steps, n - 1);
      var s, step := states[n - 1], steps[n - 1];
      assert Enabled(s, step) && states[(n - 1) + 1] == After(s, step);
      if step.LogAppend? { OrderAppend(s.log, step.batch); }
    }
  }

  /** Then every rotation is safe, wherever the memtable fills up during a replay. */
  lemma OrderlyIsSafe(states: seq<State>, steps: seq<Step>)
    requires IsRun(states, steps) && OrderlyBatches(steps)
    ensures SafeRotations(states, steps)
  {
    forall i | 0 <= i < |steps| ensures RotationOk(states[i], steps[i], false) { LogInOrder(states, steps, i); }
  }

  // ---------- which versions are acknowledged ----------

  /** A version is acknowledged exactly when a batch it belongs to has been logged and applied, and it stays so. */
  lemma {:induction false} AckedExactly(states: seq<State>, steps: seq<Step>, n: nat, e: Entry)
    requires IsRun(states, steps) && n < |states|
    ensures e in states[n].acked <==> exists k :: 0 <= k < n && Applies(states[k], steps[k], e)
  {
    hide Enabled, After, Applies;
    if n > 0 {
      AckedExactly(states, steps, n - 1, e);
      var s, step := states[n - 1], steps[n - 1];
      assert Enabled(s, step) && states[(n - 1) + 1] == After(s, step);
      AckedStep(s, step, e);
      if e in states[n].acked && e !in s.acked { assert Applies(states[n - 1], steps[n - 1], e); }
    }
  }

  /** The step applies a logged batch that holds e. */
  ghost predicate Applies(s: State, step: Step, e: Entry)
  {
    step.ApplyBatch? && exists i :: s.applied <= i < |s.log| && s.log[i] == e
  }

  lemma AckedStep(s: State, step: Step, e: Entry)
    requires Enabled(s, step)
    ensures e in After(s, step).acked <==> e in s.acked || Applies(s, step, e)
  {
    if step.ApplyBatch? {
      assert s.log[s.applied..] == s.log[s.applied..|s.log|];
      OrderSpan(s.log, s.applied, |s.log|, step.order);
    }
  }

  /** A batch that may be logged while serving can be logged, applied and acknowledged, all of it. */
  lemma WriteSucceeds(states: seq<State>, steps: seq<Step>, batch: seq<Entry>, starts: seq<nat>)
    returns (states': seq<State>, steps': seq<Step>)
    requires IsRun(states, steps) && Enabled(states[|steps|], LogAppend(batch, starts))
    ensures IsRun(states', steps') && states <= states'
    ensures var s, s' := states[|steps|], states'[|steps'|];
            s'.mode == Serving && s'.log == s.log + batch && s'.applied == s'.vhead == |s'.log| &&
            forall e :: e in s'.acked <==> e in s.acked || e in batch
  {
    var s := states[|steps|];
    hide IsRun, SafeRotations;
    states', steps' := Extended(states, steps, LogAppend(batch, starts));
    var s1 := states'[|steps'|];
    assert s1.log[s1.applied..] == batch;
    states', steps' := Extended(states', steps', ApplyBatch(batch));
  }

  // ---------- an append cut short ----------

  lemma PrefixEnabled(s: State, batch: seq<Entry>, starts: seq<nat>, m: nat)
    requires Enabled(s, LogAppend(batch, starts)) && 0 < m <= |batch|
    ensures Enabled(s, LogAppend(batch[..m], starts[..m]))
  {
  }

  lemma Extended(states: seq<State>, steps: seq<Step>, step: Step) returns (states': seq<State>, steps': seq<Step>)
    requires IsRun(states, steps) && Enabled(states[|steps|], step)
    requires step.Rotate? ==> states[|steps|].mode != Replaying
    ensures IsRun(states', steps') && steps' == steps + [step] && states' == states + [After(states[|steps|], step)]
    ensures |states'| == |steps'| + 1 && states'[|steps'|] == After(states[|steps|], step)
    ensures SafeRotations(states, steps) ==> SafeRotations(states', steps')
  {
    hide Enabled, After, RotationOk;
    var s := states[|steps|];
    states', steps' := states + [After(s, step)], steps + [step];
    NoRotation(s, step);
    forall i | 0 <= i < |steps'|
      ensures Enabled(states'[i], steps'[i]) && states'[i + 1] == After(states'[i], steps'[i])
      ensures SafeRotations(states, steps) ==> RotationOk(states'[i], steps'[i], false)
    {
      if i < |steps| {
        assert Enabled(states[i], steps[i]) && states[i + 1] == After(states[i], steps[i]);
        assert SafeRotations(states, steps) ==> RotationOk(states[i], steps[i], false);
      }
    }
  }

  lemma NoRotation(s: State, step: Step)
    requires step.Rotate? ==> s.mode != Replaying
    ensures RotationOk(s, step, false)
  {
  }

  /** An append that fails after the first m versions of the batch are logged ends the process, so the next thing
      is a restart with exactly these versions more in the log: such runs are runs, all of the above holds in
      them, and nothing acknowledged is affected. */
  lemma PartialAppend(states: seq<State>, steps: seq<Step>, batch: seq<Entry>, starts: seq<nat>, m: nat)
    returns (states': seq<State>, steps': seq<Step>)
    requires IsRun(states, steps) && SafeRotations(states, steps) && m <= |batch|
    requires Enabled(states[|steps|], LogAppend(batch, starts))
    ensures IsRun(states', steps') && SafeRotations(states', steps')
    ensures var s, s' := states[|steps|], states'[|steps'|];
            && s'.log == s.log + batch[..m] && s'.mode == Replaying && s'.acked == s.acked
            && s'.acked <= Span(s'.log, 0, |s.log|) && Faithful(Recoverable(s'), Span(s'.log, 0, |s'.log|))
  {
    var s := states[|steps|];
    Durability(states, steps, |steps|);
    var more := batch[..m];
    SpanPrefix(s.log, more, 0, |s.log|);
    hide IsRun, SafeRotations, Faithful, Recoverable, Span;
    states', steps' := states, steps;
    if m > 0 {
      PrefixEnabled(s, batch, starts, m);
      states', steps' := Extended(states, steps, LogAppend(more, starts[..m]));
    } else {
      assert s.log + more == s.log;
    }
    states', steps' := Extended(states', steps', Crash);
    Durability(states', steps', |steps'|);
  }

  // ---------- what compaction promises ----------

  /** Removing the inputs changes neither what a reader sees nor what a crash would recover. */
  lemma CompactionPreserves(states: seq<State>, steps: seq<Step>, n: nat)
    requires IsRun(states, steps) && SafeRotations(states, steps) && n < |steps| && steps[n].CompactFinish? &&
             states[n].mode != Replaying
    ensures Faithful(Stored(states[n]), Stored(states[n + 1]))
    ensures Faithful(Recoverable(states[n]), Recoverable(states[n + 1]))
  {
    assert Enabled(states[n], steps[n]) && states[n + 1] == After(states[n], steps[n]);
    ServingShowsLog(states, steps, n); ServingShowsLog(states, steps, n + 1);
    Durability(states, steps, n); Durability(states, steps, n + 1);
  }
}
