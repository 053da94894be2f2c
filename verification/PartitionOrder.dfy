/** The order of tasks and tables, which holds in every run whatever the log looks like. */
module PartitionOrder {
  import opened Runs
  import opened Versions
  import opened Partition

  /** The compactions, or the memtable flushes, among some tasks. */
  function Select(q: seq<Task>, compact: bool): seq<Task>
  {
    if q == [] then [] else (if q[0].isCompact == compact then [q[0]] else []) + Select(q[1..], compact)
  }

  function Flushes(q: seq<Task>): seq<Task> { Select(q, false) }

  function Compacts(q: seq<Task>): seq<Task> { Select(q, true) }

  /** The flushes that are queued or in the flusher's hand. */
  function Pipeline(f: Flusher, queue: seq<Task>): seq<Task>
  {
    Flushes(if f.Holding? || f.Built? then [f.task] else []) + Flushes(queue)
  }

  /** The oldest memtable has its table but has not left the list of memtables. */
  predicate HalfDone(f: Flusher) { f.Built? && !f.task.isCompact }

  /** The pipeline is the list of immutable memtables, oldest first, with growing sequence numbers. */
  ghost predicate PipeOk(p: seq<Task>, imm: seq<Run>, top: nat, half: bool, best: nat)
  {
    && |p| == |imm| && best <= top
    && (forall i :: 0 <= i < |p| ==> p[i].mt == imm[i] && p[i].seqNum <= top)
    && (forall i, j :: 0 <= i < j < |p| ==> p[i].seqNum < p[j].seqNum)
    && (forall i :: (if half then 1 else 0) <= i < |p| ==> p[i].seqNum > best)
  }

  /** Compactions whose table does not exist yet. */
  function Unbuilt(f: Flusher, queue: seq<Task>): seq<Task>
  {
    Compacts(if f.Holding? then [f.task] else []) + Compacts(queue)
  }

  /** Compactions not yet reported back. */
  function Unreported(f: Flusher, queue: seq<Task>): nat
  {
    |Compacts(if f == Idle then [] else [f.task])| + |Compacts(queue)|
  }

  /** A table added after a compaction started: an output, or a newer flush. */
  predicate SinceInputs(b: Point, t: Table)
  {
    (t.lastSeq == b.seqNum && t.vp == b.vp) || t.lastSeq > b.seqNum
  }

  /** A compaction's outputs carry the recovery point of its inputs. */
  ghost predicate OutputsOk(ts: seq<Table>, unbuilt: seq<Task>, c: Compaction)
  {
    c.Compacting? ==>
      var n := c.inputs;
      && n <= |ts| && (forall t :: t in ts[n..] ==> SinceInputs(Best(ts[..n]), t))
      && (forall t :: t in unbuilt ==> t.vptr == Best(ts[..n]).vp && t.seqNum == Best(ts[..n]).seqNum)
  }

  /** The greatest sequence number handed out; closing uses one more without counting it. */
  function Top(s: State): nat { s.seqNumber + if s.mode == Closed then 1 else 0 }

  ghost predicate Order(s: State)
  {
    && PipeOk(Pipeline(s.flusher, s.queue), s.imm, Top(s), HalfDone(s.flusher), Best(s.tables).seqNum)
    && OutputsOk(s.tables, Unbuilt(s.flusher, s.queue), s.compaction)
    && Unreported(s.flusher, s.queue) == (if s.compaction.Compacting? then s.compaction.waiting else 0)
  }

  // ---------- facts about lists ----------

  lemma {:induction false} SelectAppend(q: seq<Task>, r: seq<Task>, compact: bool)
    ensures Select(q + r, compact) == Select(q, compact) + Select(r, compact)
  {
    if q == [] {
      assert q + r == r;
    } else {
      assert (q + r)[0] == q[0] && (q + r)[1..] == q[1..] + r;
      SelectAppend(q[1..], r, compact);
    }
  }

  lemma FlushesAppend(q: seq<Task>, r: seq<Task>)
    ensures Flushes(q + r) == Flushes(q) + Flushes(r)
    ensures Compacts(q + r) == Compacts(q) + Compacts(r)
  {
    hide Select;
    SelectAppend(q, r, false); SelectAppend(q, r, true);
  }

  lemma BestAppend(ts: seq<Table>, t: Table)
    ensures Best(ts + [t]) == if t.lastSeq > Best(ts).seqNum then Point(t.lastSeq, t.vp) else Best(ts)
  {
    assert (ts + [t])[..|ts|] == ts;
  }

  lemma {:induction false} BestBound(ts: seq<Table>, c: nat, n: nat)
    requires forall t :: t in ts ==> t.vp <= c && t.lastSeq <= n
    ensures Best(ts).vp <= c && Best(ts).seqNum <= n
  {
    if ts != [] { BestBound(ts[..|ts| - 1], c, n); }
  }

  lemma {:induction false} BestIsMax(ts: seq<Table>)
    ensures forall t :: t in ts ==> t.lastSeq <= Best(ts).seqNum
  {
    if ts != [] {
      BestIsMax(ts[..|ts| - 1]);
      assert forall t :: t in ts ==> t in ts[..|ts| - 1] || t == ts[|ts| - 1];
    }
  }

  /** Best of a longer list is at least that of a prefix. */
  lemma BestPrefix(ts: seq<Table>, n: nat)
    requires n <= |ts|
    ensures Best(ts[..n]).seqNum <= Best(ts).seqNum
  {
    BestIsMax(ts);
    BestAttained(ts[..n]);
  }

  lemma {:induction false} BestAttained(ts: seq<Table>)
    ensures Best(ts) == Point(0, 0) || exists t :: t in ts && Best(ts) == Point(t.lastSeq, t.vp)
  {
    if ts != [] { BestAttained(ts[..|ts| - 1]); }
  }

  /** A memtable flush at the end of the queue. */
  lemma RotateFacts(f: Flusher, q: seq<Task>, t: Task)
    requires !t.isCompact
    ensures Pipeline(f, q + [t]) == Pipeline(f, q) + [t]
    ensures Unbuilt(f, q + [t]) == Unbuilt(f, q) && Unreported(f, q + [t]) == Unreported(f, q)
  {
    FlushesAppend(q, [t]);
    SingleTask(t);
  }

  lemma TakeFacts(q: seq<Task>)
    requires q != []
    ensures Pipeline(Holding(q[0]), q[1..]) == Pipeline(Idle, q)
    ensures Unbuilt(Holding(q[0]), q[1..]) == Unbuilt(Idle, q)
    ensures Unreported(Holding(q[0]), q[1..]) == Unreported(Idle, q)
  {
    hide Flushes, Compacts;
    assert q == [q[0]] + q[1..];
    FlushesAppend([q[0]], q[1..]);
    SingleTask(q[0]);
  }

  lemma SingleTask(t: Task)
    ensures Flushes([t]) == if t.isCompact then [] else [t]
    ensures Compacts([t]) == if t.isCompact then [t] else []
    ensures Flushes([]) == [] && Compacts([]) == []
  {
    assert [t][1..] == [];
    assert Select([t][1..], true) == [] && Select([t][1..], false) == [];
    assert Select([t], true) == (if t.isCompact then [t] else []) + Select([t][1..], true);
    assert Select([t], false) == (if t.isCompact then [] else [t]) + Select([t][1..], false);
  }

  lemma BuildFacts(t: Task, q: seq<Task>)
    ensures !t.isCompact ==> Pipeline(Holding(t), q) != [] && Pipeline(Holding(t), q)[0] == t
    ensures Pipeline(Built(t), q) == Pipeline(Holding(t), q)
    ensures Unbuilt(Holding(t), q) == if t.isCompact then [t] + Unbuilt(Built(t), q) else Unbuilt(Built(t), q)
    ensures Unreported(Built(t), q) == Unreported(Holding(t), q)
  {
    hide Flushes, Compacts;
    SingleTask(t);
  }

  lemma PopFacts(t: Task, q: seq<Task>)
    ensures Pipeline(Built(t), q) == if t.isCompact then Pipeline(Popped(t), q) else [t] + Pipeline(Popped(t), q)
    ensures Unbuilt(Built(t), q) == Unbuilt(Popped(t), q)
    ensures Unreported(Built(t), q) == Unreported(Popped(t), q)
    ensures Pipeline(Popped(t), q) == Pipeline(Idle, q) && Unbuilt(Popped(t), q) == Unbuilt(Idle, q)
    ensures Unreported(Popped(t), q) == Unreported(Idle, q) + if t.isCompact then 1 else 0
  {
    hide Flushes, Compacts;
    SingleTask(t);
  }

  lemma EnqueueFacts(f: Flusher, q: seq<Task>, t: Task)
    requires t.isCompact
    ensures Pipeline(f, q + [t]) == Pipeline(f, q)
    ensures Unbuilt(f, q + [t]) == Unbuilt(f, q) + [t] && Unreported(f, q + [t]) == Unreported(f, q) + 1
  {
    hide Flushes, Compacts;
    FlushesAppend(q, [t]);
    SingleTask(t);
  }

  // ---------- every step ----------

  lemma OrderRotate(s: State, step: Step)
    requires Order(s) && Enabled(s, step) && (step.Rotate? || (step.Close? && s.mt != []))
    ensures Order(After(s, step))
  {
    hide Best, Unreported, Unbuilt, Pipeline, OutputsOk;
    var s' := After(s, step);
    var t := s'.queue[|s.queue|];
    RotateFacts(s.flusher, s.queue, t);
    PipeSnoc(Pipeline(s.flusher, s.queue), s.imm, Top(s), HalfDone(s.flusher), Best(s.tables).seqNum, t);
  }

  lemma PipeSnoc(p: seq<Task>, imm: seq<Run>, top: nat, half: bool, best: nat, t: Task)
    requires PipeOk(p, imm, top, half, best) && t.seqNum == top + 1
    ensures PipeOk(p + [t], imm + [t.mt], top + 1, half, best)
  {
  }

  lemma OrderTake(s: State)
    requires Order(s) && Enabled(s, Take)
    ensures Order(After(s, Take))
  {
    hide Best, PipeOk, Pipeline, Unbuilt, Unreported, OutputsOk;
    TakeFacts(s.queue);
  }

  lemma OrderBuild(s: State)
    requires Order(s) && Enabled(s, Build)
    ensures Order(After(s, Build))
  {
    hide Best, PipeOk, Pipeline, Unbuilt, Unreported, OutputsOk;
    var t := s.flusher.task;
    BuildFacts(t, s.queue);
    if t.isCompact {
      NowCompacting(s);
      BuildOutput(s.tables, t, Unbuilt(Built(t), s.queue), s.compaction);
    } else {
      var p := Pipeline(s.flusher, s.queue);
      NewestTask(p, s.imm, Top(s), Best(s.tables).seqNum);
      TableLast(s.tables, t);
      PipeHalf(p, s.imm, Top(s), Best(s.tables).seqNum, Best(s.tables + TableOf(t)).seqNum);
      BuildBeside(s.tables, t, Unbuilt(s.flusher, s.queue), s.compaction);
    }
  }

  lemma NowCompacting(s: State)
    requires Order(s) && s.flusher.Holding? && s.flusher.task.isCompact
    ensures s.compaction.Compacting?
  {
    SingleTask(s.flusher.task);
  }

  lemma NewestTask(p: seq<Task>, imm: seq<Run>, top: nat, best: nat)
    requires PipeOk(p, imm, top, false, best) && p != []
    ensures p[0].seqNum > best
  {
  }

  /** A flushed table becomes the newest. */
  lemma TableLast(ts: seq<Table>, t: Task)
    ensures t.mt == [] ==> ts + TableOf(t) == ts
    ensures t.mt != [] && t.seqNum > Best(ts).seqNum ==> Best(ts + TableOf(t)) == Point(t.seqNum, t.vptr)
    ensures t.seqNum <= Best(ts).seqNum ==> Best(ts + TableOf(t)) == Best(ts)
  {
    if t.mt != [] { BestAppend(ts, Table(t.mt, t.seqNum, t.vptr)); } else { assert ts + TableOf(t) == ts; }
  }

  lemma PipeHalf(p: seq<Task>, imm: seq<Run>, top: nat, best: nat, best': nat)
    requires PipeOk(p, imm, top, false, best) && p != []
    requires best' == best || best' == p[0].seqNum
    ensures PipeOk(p, imm, top, true, best')
  {
  }

  lemma BuildBeside(ts: seq<Table>, t: Task, unbuilt: seq<Task>, c: Compaction)
    requires OutputsOk(ts, unbuilt, c) && t.seqNum > Best(ts).seqNum
    ensures OutputsOk(ts + TableOf(t), unbuilt, c)
  {
    hide Best;
    if c.Compacting? {
      var n, ts' := c.inputs, ts + TableOf(t);
      assert ts'[..n] == ts[..n] && ts'[n..] == ts[n..] + TableOf(t);
      BestPrefix(ts, n);
    }
  }

  lemma BuildOutput(ts: seq<Table>, t: Task, rest: seq<Task>, c: Compaction)
    requires c.Compacting? && OutputsOk(ts, [t] + rest, c)
    ensures OutputsOk(ts + TableOf(t), rest, c) && Best(ts + TableOf(t)) == Best(ts)
  {
    hide Best;
    var n, ts' := c.inputs, ts + TableOf(t);
    assert t in [t] + rest;
    assert ts'[..n] == ts[..n] && ts'[n..] == ts[n..] + TableOf(t);
    BestPrefix(ts, n);
    TableLast(ts, t);
  }

  lemma OrderPop(s: State)
    requires Order(s) && Enabled(s, Pop)
    ensures !s.flusher.task.isCompact ==> s.imm != [] && s.imm[0] == s.flusher.task.mt
    ensures Order(After(s, Pop))
  {
    hide Best, PipeOk, Pipeline, Unbuilt, Unreported, OutputsOk;
    var t := s.flusher.task;
    PopFacts(t, s.queue);
    if !t.isCompact { PopPipe(t, Pipeline(Popped(t), s.queue), s.imm, Top(s), Best(s.tables).seqNum); }
  }

  lemma PopPipe(t: Task, p: seq<Task>, imm: seq<Run>, top: nat, best: nat)
    requires PipeOk([t] + p, imm, top, true, best)
    ensures imm != [] && imm[0] == t.mt && PipeOk(p, imm[1..], top, false, best)
  {
    var q := [t] + p;
    assert q[0] == t;
    forall i | 0 <= i < |p| ensures p[i].mt == imm[1..][i] && best < p[i].seqNum <= top { assert p[i] == q[i + 1]; }
    forall i, j | 0 <= i < j < |p| ensures p[i].seqNum < p[j].seqNum { assert p[i] == q[i + 1] && p[j] == q[j + 1]; }
  }

  lemma OrderPublish(s: State)
    requires Order(s) && Enabled(s, Publish)
    ensures Order(After(s, Publish))
  {
    hide Best, PipeOk, Pipeline, Unbuilt, Unreported, OutputsOk;
    PopFacts(s.flusher.task, s.queue);
    OutputsWaiting(s.tables, Unbuilt(s.flusher, s.queue), s.compaction);
  }

  lemma OutputsWaiting(ts: seq<Table>, unbuilt: seq<Task>, c: Compaction)
    requires OutputsOk(ts, unbuilt, c)
    ensures c.Compacting? ==> forall n :: OutputsOk(ts, unbuilt, c.(waiting := n))
  {
  }

  lemma OrderCompactStart(s: State, step: Step)
    requires Order(s) && Enabled(s, step) && step.CompactStart?
    ensures Order(After(s, step))
  {
    hide Best, Pipeline, PipeOk, InRuns, InTables, Survivors, Unbuilt, Unreported;
    NoneUnbuilt(s.flusher, s.queue);
    assert s.tables[|s.tables|..] == [];
  }

  lemma NoneUnbuilt(f: Flusher, q: seq<Task>)
    requires Unreported(f, q) == 0
    ensures Unbuilt(f, q) == []
  {
  }

  lemma OrderCompactEnqueue(s: State)
    requires Order(s) && Enabled(s, CompactEnqueue)
    ensures Order(After(s, CompactEnqueue))
  {
    hide Best, Pipeline, PipeOk, Unbuilt, Unreported;
    var s' := After(s, CompactEnqueue);
    EnqueueFacts(s.flusher, s.queue, s'.queue[|s.queue|]);
  }

  lemma OrderCompactFinish(s: State)
    requires Order(s) && Enabled(s, CompactFinish)
    ensures Order(After(s, CompactFinish))
  {
    hide Best, Pipeline, Unbuilt, PipeOk, Unreported;
    var rest := s.tables[s.compaction.inputs..];
    RestOlder(s.tables, s.compaction.inputs);
    PipeLower(Pipeline(s.flusher, s.queue), s.imm, Top(s), HalfDone(s.flusher), Best(s.tables).seqNum,
        Best(rest).seqNum);
  }

  lemma RestOlder(ts: seq<Table>, n: nat)
    requires n <= |ts|
    ensures Best(ts[n..]).seqNum <= Best(ts).seqNum
  {
    hide Best;
    BestIsMax(ts);
    BestBound(ts[n..], MaxVp(ts), Best(ts).seqNum);
  }

  lemma PipeLower(p: seq<Task>, imm: seq<Run>, top: nat, half: bool, best: nat, lower: nat)
    requires PipeOk(p, imm, top, half, best) && lower <= best
    ensures PipeOk(p, imm, top, half, lower)
  {
  }

  /** A bound on the log positions of some tables. */
  function MaxVp(ts: seq<Table>): (m: nat)
    ensures forall t :: t in ts ==> t.vp <= m
  {
    if ts == [] then 0
    else
      var m, t := MaxVp(ts[..|ts| - 1]), ts[|ts| - 1];
      assert forall u :: u in ts ==> u in ts[..|ts| - 1] || u == t;
      if t.vp > m then t.vp else m
  }

  lemma StepOrder(s: State, step: Step)
    requires Order(s) && Enabled(s, step)
    ensures Order(After(s, step))
  {
    hide Order, Enabled, After;
    match step
    case LogAppend(_, _) => OrderKept(s, step);
    case Rotate => OrderRotate(s, step);
    case NoRoom => OrderKept(s, step);
    case Stamp => OrderKept(s, step);
    case ApplyBatch(_) => OrderKept(s, step);
    case ReplaySee => OrderKept(s, step);
    case ReplayStore => OrderKept(s, step);
    case StartServing => OrderKept(s, step);
    case Close => if s.mt == [] { OrderKept(s, step); } else { OrderRotate(s, step); }
    case Take => OrderTake(s);
    case Build => OrderBuild(s);
    case Pop => OrderPop(s);
    case Publish => OrderPublish(s);
    case CompactStart(_) => OrderCompactStart(s, step);
    case CompactEnqueue => OrderCompactEnqueue(s);
    case CompactFinish => OrderCompactFinish(s);
    case Crash => OrderCrash(s);
  }

  /** Steps that leave tasks and tables alone. */
  lemma OrderKept(s: State, step: Step)
    requires Order(s) && Enabled(s, step)
    requires step.LogAppend? || step.NoRoom? || step.Stamp? || step.ApplyBatch? || step.ReplaySee? ||
             step.ReplayStore? || step.StartServing? || (step.Close? && s.mt == [])
    ensures Order(After(s, step))
  {
    hide Best, Pipeline, Unbuilt, Unreported, OutputsOk;
  }

  lemma OrderCrash(s: State)
    ensures Order(After(s, Crash))
  {
    NoTasks();
    hide Pipeline, Unbuilt, Unreported, Best;
  }

  lemma NoTasks()
    ensures Pipeline(Idle, []) == [] && Unbuilt(Idle, []) == [] && Unreported(Idle, []) == 0
  {
  }

  lemma {:induction false} RunOrder(states: seq<State>, steps: seq<Step>, n: nat)
    requires IsRun(states, steps) && n < |states|
    ensures Order(states[n])
  {
    hide Order, Enabled, After;
    if n == 0 {
      assert Order(INITIAL) by { InitialOrder(); }
    } else {
      RunOrder(states, steps, n - 1);
      assert Enabled(states[n - 1], steps[n - 1]) && states[(n - 1) + 1] == After(states[n - 1], steps[n - 1]);
      StepOrder(states[n - 1], steps[n - 1]);
    }
  }

  lemma InitialOrder()
    ensures Order(INITIAL)
  {
  }

  // ---------- what follows for every run ----------

  /** The flusher's assertion never fails: the memtable it has flushed is the oldest immutable one. */
  lemma PipelineOrder(states: seq<State>, steps: seq<Step>, n: nat)
    requires IsRun(states, steps) && n < |states|
    ensures var s := states[n];
            |Pipeline(s.flusher, s.queue)| == |s.imm| &&
            (forall i :: 0 <= i < |s.imm| ==> Pipeline(s.flusher, s.queue)[i].mt == s.imm[i]) &&
            (HalfDone(s.flusher) ==> s.imm != [] && s.imm[0] == s.flusher.task.mt)
  {
    hide Best, Unreported, Unbuilt, Pipeline, OutputsOk;
    RunOrder(states, steps, n);
    var s := states[n];
    if HalfDone(s.flusher) { PopFacts(s.flusher.task, s.queue); }
  }

  /** As long as any table is left, the recovery point stays where it was. */
  lemma CompactionKeepsRecoveryPoint(states: seq<State>, steps: seq<Step>, n: nat)
    requires IsRun(states, steps) && n < |steps| && steps[n].CompactFinish? && states[n + 1].tables != []
    ensures Best(states[n + 1].tables) == Best(states[n].tables)
  {
    hide PipeOk, Unreported, Unbuilt, Pipeline, Best;
    assert Enabled(states[n], steps[n]) && states[n + 1] == After(states[n], steps[n]);
    RunOrder(states, steps, n);
    var ts, k := states[n].tables, states[n].compaction.inputs;
    BestSince(ts[..k], ts[k..]);
    assert ts[..k] + ts[k..] == ts;
  }

  lemma {:induction false} BestSince(inputs: seq<Table>, rest: seq<Table>)
    requires rest != [] && forall t :: t in rest ==> SinceInputs(Best(inputs), t)
    ensures Best(inputs + rest) == Best(rest)
  {
    assert Best([]) == Point(0, 0);
    hide Best;
    var m := |rest| - 1;
    var t := rest[m];
    assert inputs + rest == (inputs + rest[..m]) + [t];
    BestAppend(inputs + rest[..m], t); BestAppend(rest[..m], t);
    assert rest == rest[..m] + [t];
    if m > 0 {
      BestSince(inputs, rest[..m]);
    } else {
      assert inputs + rest[..m] == inputs && rest[..m] == [];
      assert SinceInputs(Best(inputs), t);
      ZeroBest(inputs);
    }
  }

  lemma {:induction false} ZeroBest(ts: seq<Table>)
    ensures Best(ts).seqNum == 0 ==> Best(ts) == Point(0, 0)
  {
    if ts != [] { ZeroBest(ts[..|ts| - 1]); }
  }
}
