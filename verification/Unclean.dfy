/** What happens when the memtable is rotated at any two positions of the log during replay: the runs in which a
    deleted key returns. */
module Unclean {
  import opened Runs
  import opened Versions
  import opened Partition
  import opened PartitionProof

  // ---------- runs, step by step ----------

  datatype Trail = Trail(states: seq<State>, steps: seq<Step>)

  ghost predicate Valid(t: Trail) { IsRun(t.states, t.steps) }

  function Last(t: Trail): State { if t.states == [] then INITIAL else t.states[|t.states| - 1] }

  /** A run that goes on from t and rotates only while it replays, at positions c and p. */
  ghost predicate Onward(t: Trail, t': Trail, c: nat, p: nat)
  {
    && Valid(t') && t.states <= t'.states && t.steps <= t'.steps
    && forall k :: |t.steps| <= k < |t'.steps| && t'.steps[k].Rotate? ==>
         t'.states[k].mode == Replaying && (t'.states[k].applied == c || t'.states[k].applied == p)
  }

  ghost predicate Reach(t: Trail, c: nat, p: nat, s: State)
  {
    exists t' :: Onward(t, t', c, p) && Last(t') == s
  }

  lemma Start(t: Trail, c: nat, p: nat)
    requires Valid(t)
    ensures Reach(t, c, p, Last(t))
  {
    assert Onward(t, t, c, p);
  }

  lemma Go(t: Trail, c: nat, p: nat, s: State, step: Step)
    requires Reach(t, c, p, s) && Enabled(s, step)
    requires step.Rotate? ==> s.mode == Replaying && (s.applied == c || s.applied == p)
    ensures Reach(t, c, p, After(s, step))
  {
    hide Enabled, After;
    var u :| Onward(t, u, c, p) && Last(u) == s;
    var v := Trail(u.states + [After(s, step)], u.steps + [step]);
    forall i | 0 <= i < |v.steps|
      ensures Enabled(v.states[i], v.steps[i]) && v.states[i + 1] == After(v.states[i], v.steps[i])
    {
      if i < |u.steps| { assert Enabled(u.states[i], u.steps[i]) && u.states[i + 1] == After(u.states[i], u.steps[i]); }
    }
    assert Onward(t, v, c, p) && Last(v) == After(s, step);
  }

  // ---------- replaying ----------

  /** Replay has reached position n, with the log from lo on in the memtable and nothing flushed. */
  ghost predicate Replayed(s: State, log: seq<Entry>, starts: seq<nat>, lo: nat, n: nat, imm: seq<Run>,
                           queue: seq<Task>)
  {
    && s.log == log && s.starts == starts && s.published == [] && s.applied == n && !s.seen && s.mode == Replaying
    && HoldsSpan(s.mt, log, lo, n) && s.imm == imm && s.queue == queue && s.flusher == Idle && s.tables == []
    && s.compaction == NoCompaction
  }

  lemma ReplayOne(t: Trail, c: nat, p: nat, s: State, log: seq<Entry>, starts: seq<nat>, lo: nat, n: nat,
                  imm: seq<Run>, queue: seq<Task>) returns (s': State)
    requires Reach(t, c, p, s) && Replayed(s, log, starts, lo, n, imm, queue) && n < |log| && Distinct(log)
    ensures Reach(t, c, p, s') && Replayed(s', log, starts, lo, n + 1, imm, queue) && s'.seqNumber >= s.seqNumber
  {
    hide HoldsSpan, Reach, Distinct, Put;
    Go(t, c, p, s, ReplaySee);
    var s1 := After(s, ReplaySee);
    Go(t, c, p, s1, ReplayStore);
    s' := After(s1, ReplayStore);
    PutSpan(s.mt, log, lo, n);
  }

  lemma {:induction false} ReplayTo(t: Trail, c: nat, p: nat, s: State, log: seq<Entry>, starts: seq<nat>, lo: nat,
      n: nat, m: nat, imm: seq<Run>, queue: seq<Task>) returns (s': State)
    requires Reach(t, c, p, s) && Replayed(s, log, starts, lo, n, imm, queue) && n <= m <= |log| && Distinct(log)
    ensures Reach(t, c, p, s') && Replayed(s', log, starts, lo, m, imm, queue) && s'.seqNumber >= s.seqNumber
    decreases m - n
  {
    hide Reach, Replayed, Distinct;
    s' := s;
    if n < m {
      var s1 := ReplayOne(t, c, p, s, log, starts, lo, n, imm, queue);
      s' := ReplayTo(t, c, p, s1, log, starts, lo, n + 1, m, imm, queue);
    }
  }

  /** The memtable is rotated at position n, before the entry there is stored. */
  lemma RotateAt(t: Trail, c: nat, p: nat, s: State, log: seq<Entry>, starts: seq<nat>, lo: nat, n: nat,
                 imm: seq<Run>, queue: seq<Task>) returns (s': State, task: Task)
    requires Reach(t, c, p, s) && Replayed(s, log, starts, lo, n, imm, queue) && n < |log| == |starts| && Distinct(log)
    requires (n == c || n == p) && |queue| < FLUSH_CHAN_CAPACITY
    ensures !task.isCompact && task.vptr == starts[n] && s.seqNumber < task.seqNum <= s'.seqNumber
    ensures HoldsSpan(task.mt, log, lo, n)
    ensures Reach(t, c, p, s') && Replayed(s', log, starts, n, n + 1, imm + [task.mt], queue + [task])
  {
    HoldsEmpty(log, n);
    hide HoldsSpan, Reach, Distinct, Put;
    Go(t, c, p, s, ReplaySee);
    var s1 := After(s, ReplaySee);
    Go(t, c, p, s1, Rotate);
    var s2 := After(s1, Rotate);
    Go(t, c, p, s2, ReplayStore);
    s' := After(s2, ReplayStore);
    task := Task(s.mt, starts[n], s2.seqNumber, false);
    PutSpan([], log, n, n);
  }

  // ---------- flushing and compacting ----------

  lemma Flush(t: Trail, c: nat, p: nat, s: State, task: Task, queue: seq<Task>, imm: seq<Run>) returns (s': State)
    requires Reach(t, c, p, s) && s.flusher == Idle && s.queue == [task] + queue && s.imm == [task.mt] + imm
    requires !task.isCompact && task.mt != []
    ensures Reach(t, c, p, s')
    ensures var ts := s.tables + TableOf(task); s' == s.(queue := queue, imm := imm, tables := ts, published := ts)
  {
    hide Reach;
    Go(t, c, p, s, Take);
    var s1 := After(s, Take);
    Go(t, c, p, s1, Build);
    var s2 := After(s1, Build);
    Go(t, c, p, s2, Pop);
    var s3 := After(s2, Pop);
    Go(t, c, p, s3, Publish);
    s' := After(s3, Publish);
  }

  /** Compacting two tables, the survivors going to one output if there are any. */
  lemma Compact(t: Trail, c: nat, p: nat, s: State, x: Table, y: Table, out: Run) returns (s': State)
    requires Reach(t, c, p, s) && s.mode == Serving && s.flusher == Idle && s.queue == [] && s.tables == [x, y]
    requires s.published == [x, y] && s.compaction == NoCompaction && 0 < x.lastSeq < y.lastSeq
    requires Sorted(out) && Elements(out) == Survivors(InTables([x, y]))
    ensures Reach(t, c, p, s')
    ensures var ts := if out == [] then [] else [Table(out, y.lastSeq, y.vp)];
            s' == s.(tables := ts, published := PublishList(s.published, ts))
  {
    hide Reach, Sorted, Survivors, InTables, Best;
    BestOfTwo(x, y);
    if out == [] {
      assert InRuns([]) == {};
      Go(t, c, p, s, CompactStart([]));
      var s1 := After(s, CompactStart([]));
      Go(t, c, p, s1, CompactFinish);
      s' := After(s1, CompactFinish);
    } else {
      InRunsOne(out);
      Go(t, c, p, s, CompactStart([out]));
      var s1 := After(s, CompactStart([out]));
      s' := Output(t, c, p, s1, x, y, out);
    }
  }

  lemma Output(t: Trail, c: nat, p: nat, s: State, x: Table, y: Table, out: Run) returns (s': State)
    requires Reach(t, c, p, s) && s.flusher == Idle && s.queue == [] && s.tables == [x, y] && out != []
    requires s.compaction == Compacting(2, [out], 0) && Best([x, y]) == Point(y.lastSeq, y.vp)
    ensures Reach(t, c, p, s')
    ensures var ts := [Table(out, y.lastSeq, y.vp)]; s' == s.(tables := ts, published := ts, compaction := NoCompaction)
  {
    hide Reach, Best, Enabled, After;
    var task := Task(out, y.vp, y.lastSeq, true);
    var s1 := Outgoing(t, c, p, s, x, y, out, task);
    s' := Done(t, c, p, s1, x, y, out, task);
  }

  lemma Outgoing(t: Trail, c: nat, p: nat, s: State, x: Table, y: Table, out: Run, task: Task) returns (s': State)
    requires Reach(t, c, p, s) && s.flusher == Idle && s.queue == [] && s.tables == [x, y] && out != []
    requires s.compaction == Compacting(2, [out], 0) && Best([x, y]) == Point(y.lastSeq, y.vp)
    requires task == Task(out, y.vp, y.lastSeq, true)
    ensures Reach(t, c, p, s')
    ensures s' == s.(flusher := Built(task), tables := [x, y] + TableOf(task), compaction := Compacting(2, [], 1))
  {
    hide Reach, Best;
    assert [x, y][..Min(2, 2)] == [x, y];
    Go(t, c, p, s, CompactEnqueue);
    var s1 := After(s, CompactEnqueue);
    assert s1.queue == [task] && s1.compaction == Compacting(2, [], 1);
    Go(t, c, p, s1, Take);
    var s2 := After(s1, Take);
    assert s2.queue == [];
    Go(t, c, p, s2, Build);
    s' := After(s2, Build);
  }

  lemma Done(t: Trail, c: nat, p: nat, s: State, x: Table, y: Table, out: Run, task: Task) returns (s': State)
    requires Reach(t, c, p, s) && s.flusher == Built(task) && task == Task(out, y.vp, y.lastSeq, true) && out != []
    requires s.tables == [x, y] + TableOf(task) && s.compaction == Compacting(2, [], 1)
    ensures Reach(t, c, p, s')
    ensures var ts := [Table(out, y.lastSeq, y.vp)];
            s' == s.(flusher := Idle, tables := ts, published := ts, compaction := NoCompaction)
  {
    hide Reach;
    Go(t, c, p, s, Pop);
    var s1 := After(s, Pop);
    Go(t, c, p, s1, Publish);
    var s2 := After(s1, Publish);
    Go(t, c, p, s2, CompactFinish);
    s' := After(s2, CompactFinish);
    assert s.tables[2..] == TableOf(task);
  }

  lemma BestOfTwo(x: Table, y: Table)
    requires 0 < x.lastSeq < y.lastSeq
    ensures Best([x, y]) == Point(y.lastSeq, y.vp)
  {
    assert [x, y][..1] == [x] && [x][..0] == [];
    assert Best([x]) == Point(x.lastSeq, x.vp);
  }

  /** The survivors of the log before p, among its first n. */
  ghost function Live(log: seq<Entry>, p: nat, n: nat): (r: seq<Entry>)
    requires n <= p <= |log|
    ensures forall e :: e in r <==> e in Span(log, 0, n) && Shows(Span(log, 0, p), e)
  {
    if n == 0 then []
    else
      SpanJoin(log, 0, n - 1, n);
      Live(log, p, n - 1) + if Shows(Span(log, 0, p), log[n - 1]) then [log[n - 1]] else []
  }

  lemma SortedSurvivors(log: seq<Entry>, p: nat) returns (out: Run)
    requires Distinct(log) && p <= |log|
    ensures Sorted(out) && Elements(out) == Survivors(Span(log, 0, p))
  {
    var es := Live(log, p, p);
    out := PutAll([], es);
    LogConsistent(log, 0, p);
    PutAllElements([], es);
  }

  // ---------- the whole story ----------

  /** The tables of the two rotated memtables. */
  ghost predicate Rotated(a: Task, b: Task, log: seq<Entry>, starts: seq<nat>, c: nat, p: nat)
  {
    && c < p < |log| == |starts| && HoldsSpan(a.mt, log, 0, c) && HoldsSpan(b.mt, log, c, p)
    && 0 < a.seqNum < b.seqNum && b.vptr == starts[p] && !a.isCompact && !b.isCompact
  }

  lemma CrashAt(t: Trail, c: nat, p: nat) returns (s': State)
    requires Valid(t) && Last(t).published == []
    ensures var s := Last(t); Reach(t, c, p, s') && Replayed(s', s.log, s.starts, 0, 0, [], [])
  {
    var s := Last(t);
    hide Reach, Valid, IsRun;
    Start(t, c, p);
    Go(t, c, p, s, Crash);
    s' := After(s, Crash);
  }

  lemma LogOf(t: Trail)
    requires Valid(t)
    ensures Distinct(Last(t).log) && |Last(t).starts| == |Last(t).log|
    ensures forall i :: 0 <= i < |Last(t).log| ==> Last(t).starts[i] <= i
  {
    RunLog(t.states, t.steps, |t.steps|);
  }

  lemma ReplayBoth(t: Trail, c: nat, p: nat) returns (s': State, a: Task, b: Task)
    requires Valid(t) && Last(t).published == [] && 0 < c < p < |Last(t).log|
    ensures var s := Last(t);
            Rotated(a, b, s.log, s.starts, c, p) && Reach(t, c, p, s') &&
            Replayed(s', s.log, s.starts, p, |s.log|, [a.mt, b.mt], [a, b])
  {
    hide Reach, HoldsSpan, Distinct, Valid, IsRun, LogOk, Replayed, Last;
    var log, starts := Last(t).log, Last(t).starts;
    LogOf(t);
    var s0 := CrashAt(t, c, p);
    var s1 := ReplayTo(t, c, p, s0, log, starts, 0, 0, c, [], []);
    var s2; s2, a := RotateAt(t, c, p, s1, log, starts, 0, c, [], []);
    assert [] + [a.mt] == [a.mt] && [] + [a] == [a];
    var s3 := ReplayTo(t, c, p, s2, log, starts, c, c + 1, p, [a.mt], [a]);
    var s4; s4, b := RotateAt(t, c, p, s3, log, starts, c, p, [a.mt], [a]);
    assert [a.mt] + [b.mt] == [a.mt, b.mt] && [a] + [b] == [a, b];
    s' := ReplayTo(t, c, p, s4, log, starts, p, p + 1, |log|, [a.mt, b.mt], [a, b]);
  }

  /** What the partition looks like in the end, `out` being the compaction's output. */
  ghost predicate Ended(s: State, log: seq<Entry>, p: nat, a: Task, b: Task, out: Run)
  {
    && s.mode == Serving && s.log == log && s.applied == |log| && s.imm == [] && HoldsSpan(s.mt, log, p, |log|)
    && Elements(out) == Survivors(Span(log, 0, p))
    && s.tables == (if out == [] then [] else [Table(out, b.seqNum, b.vptr)])
    && s.published == PublishList(TableOf(a) + TableOf(b), s.tables)
  }

  lemma NotEmpty(r: Run, log: seq<Entry>, a: nat, b: nat)
    requires HoldsSpan(r, log, a, b) && a < b
    ensures r != []
  {
    InSpan(log, a, b, a);
  }

  lemma TwoTables(a: Task, b: Task, log: seq<Entry>, starts: seq<nat>, c: nat, p: nat)
    requires Rotated(a, b, log, starts, c, p) && 0 < c
    ensures a.mt != [] && b.mt != [] && TableOf(a) + TableOf(b) == [TableOf(a)[0], TableOf(b)[0]]
    ensures InTables(TableOf(a) + TableOf(b)) == Span(log, 0, p)
  {
    hide InTables, Span;
    NotEmpty(a.mt, log, 0, c); NotEmpty(b.mt, log, c, p);
    InTablesAppend(TableOf(a), TableOf(b)); InTableOf(a); InTableOf(b);
    SpanJoin(log, 0, c, p);
  }

  lemma ServeBoth(t: Trail, c: nat, p: nat, s: State, log: seq<Entry>, starts: seq<nat>, a: Task, b: Task)
    returns (s': State, out: Run)
    requires Reach(t, c, p, s) && Replayed(s, log, starts, p, |log|, [a.mt, b.mt], [a, b])
    requires Rotated(a, b, log, starts, c, p) && Distinct(log) && 0 < c
    ensures Reach(t, c, p, s') && Ended(s', log, p, a, b, out)
  {
    hide Reach, HoldsSpan, Distinct, InTables, Survivors, Span, Sorted;
    TwoTables(a, b, log, starts, c, p);
    Go(t, c, p, s, StartServing);
    var s1 := After(s, StartServing);
    assert [a, b] == [a] + [b] && [a.mt, b.mt] == [a.mt] + [b.mt];
    var s2 := Flush(t, c, p, s1, a, [b], [b.mt]);
    assert [b] == [b] + [] && [b.mt] == [b.mt] + [] && [] + TableOf(a) == TableOf(a);
    var s3 := Flush(t, c, p, s2, b, [], []);
    out := SortedSurvivors(log, p);
    s' := Compact(t, c, p, s3, TableOf(a)[0], TableOf(b)[0], out);
  }

  /** Any run that has published no table goes on like this: a crash, a replay that rotates at c and at p, and a
      compaction of both tables before anything else is flushed. Then the partition shows what the log shows
      exactly when that compaction uncovers nothing. So does what it would recover, counted from the block at p;
      when nothing survives the compaction, the old tables stay published and are recovered. */
  lemma CompactedAfterReplay(t: Trail, c: nat, p: nat) returns (t': Trail)
    requires Valid(t) && Last(t).published == [] && 0 < c < p < |Last(t).log|
    ensures Onward(t, t', c, p)
    ensures var s, s' := Last(t), Last(t');
            && s'.mode == Serving && s'.log == s.log && s'.applied == |s.log|
            && Stored(s') == Survivors(Span(s.log, 0, p)) + Span(s.log, p, |s.log|)
            && (Faithful(Stored(s'), Span(s.log, 0, |s.log|)) <==> !Uncovers(s.log, p))
            && p < |s.starts| && s.starts[p] <= p
            && (Faithful(Recoverable(s'), Span(s.log, 0, |s.log|)) <==>
                Survivors(Span(s.log, 0, p)) == {} || !Uncovers(s.log, s.starts[p]))
  {
    hide Replayed, HoldsSpan, Uncovers, Survivors, Span, Recoverable, Stored, Valid, Shows, Distinct, InTables, Last,
         Onward;
    var s1, a, b := ReplayBoth(t, c, p);
    var log, starts := Last(t).log, Last(t).starts;
    LogOf(t);
    var s2, out := ServeBoth(t, c, p, s1, log, starts, a, b);
    t' :| Onward(t, t', c, p) && Last(t') == s2;
    CompactExact(log, p); CompactExactFrom(log, starts[p], p);
    StoredEnd(s2, log, p, a, b, out);
    RecoverableEnd(s2, log, starts, c, p, a, b, out);
  }

  lemma OneTable(r: Run, n: nat, vp: nat)
    requires n > 0
    ensures InTables([Table(r, n, vp)]) == Elements(r) && Best([Table(r, n, vp)]).vp == vp
  {
    var ts := [Table(r, n, vp)];
    forall e | e in r ensures e in InTables(ts) { assert e in ts[0].run; }
    assert ts[..0] == [];
  }

  lemma StoredEnd(s: State, log: seq<Entry>, p: nat, a: Task, b: Task, out: Run)
    requires Ended(s, log, p, a, b, out) && b.seqNum > 0 && p <= |log|
    ensures Stored(s) == Survivors(Span(log, 0, p)) + Span(log, p, |log|)
  {
    hide InTables, Survivors, Span;
    assert InRuns([]) == {} && InTables([]) == {} by { NoRuns(); NoneInTables(); }
    if out != [] { OneTable(out, b.seqNum, b.vptr); }
  }

  lemma NoneInTables()
    ensures InTables([]) == {}
  {
  }

  lemma RecoverableEnd(s: State, log: seq<Entry>, starts: seq<nat>, c: nat, p: nat, a: Task, b: Task, out: Run)
    requires Ended(s, log, p, a, b, out) && Rotated(a, b, log, starts, c, p) && 0 < c && starts[p] <= p
    ensures if Survivors(Span(log, 0, p)) == {} then Recoverable(s) == Span(log, 0, |log|)
            else Recoverable(s) == Survivors(Span(log, 0, p)) + Span(log, starts[p], |log|)
  {
    hide InTables, Survivors, Span, Best, HoldsSpan;
    if out == [] {
      TwoTables(a, b, log, starts, c, p);
      BestOfTwo(TableOf(a)[0], TableOf(b)[0]);
      SpanJoin(log, 0, p, |log|); SpanJoin(log, starts[p], p, |log|); SpanMono(log, starts[p], p, 0, p);
    } else {
      assert out[0] in Elements(out);
      OneTable(out, b.seqNum, b.vptr);
    }
  }

  // ---------- a deleted key that returns ----------

  ghost predicate BatchOk(batch: seq<Entry>, starts: seq<nat>)
  {
    && Distinct(batch) && |starts| == |batch| > 0 && (forall i :: 0 <= i < |batch| ==> starts[i] <= i)
    && forall e :: e in batch ==> |e.key| > 8 && Ts(e) > 0 && e.vs.expiresAt == 0
  }

  ghost function TopTs(es: seq<Entry>): (m: nat)
    ensures forall e :: e in es ==> Ts(e) <= m
  {
    if es == [] then 0
    else
      var m, last := TopTs(es[..|es| - 1]), Ts(es[|es| - 1]);
      assert forall e :: e in es ==> e in es[..|es| - 1] || e == es[|es| - 1];
      if last > m then last else m
  }

  lemma {:induction false} Stamped(t: Trail, s: State, n: nat) returns (s': State)
    requires Reach(t, 0, 0, s) && s.mode == Serving && s.seqNumber <= n
    ensures s' == s.(seqNumber := n) && Reach(t, 0, 0, s')
    decreases n - s.seqNumber
  {
    hide Reach;
    s' := s;
    if s.seqNumber < n {
      Go(t, 0, 0, s, Stamp);
      s' := Stamped(t, After(s, Stamp), n);
    }
  }

  /** Any batch can be the whole log. */
  lemma Logged(batch: seq<Entry>, starts: seq<nat>) returns (t: Trail)
    requires BatchOk(batch, starts)
    ensures Valid(t) && Last(t).log == batch && Last(t).starts == starts && Last(t).published == []
  {
    hide Reach, Distinct;
    var o := Trail([INITIAL], []);
    Start(o, 0, 0);
    Go(o, 0, 0, INITIAL, StartServing);
    var s1 := Stamped(o, After(INITIAL, StartServing), TopTs(batch));
    Go(o, 0, 0, s1, LogAppend(batch, starts));
    var s2 := After(s1, LogAppend(batch, starts));
    assert [] + batch == batch && [] + starts == starts;
    t := TrailTo(o, s2);
  }

  lemma TrailTo(o: Trail, s: State) returns (t: Trail)
    requires Reach(o, 0, 0, s)
    ensures Valid(t) && Last(t) == s
  {
    t :| Onward(o, t, 0, 0) && Last(t) == s;
  }

  /** For every batch and every position p where a deletion before p is what hides the newest version behind p,
      there is a run that logs the batch, crashes, and in the end shows the deleted version. A key that is written
      and deleted in one batch makes such positions, since the deletion has no value and is logged first. */
  lemma DeletedKeyReturns(log: seq<Entry>, starts: seq<nat>, c: nat, p: nat, i: nat, j: nat) returns (t: Trail)
    requires BatchOk(log, starts) && 0 < c < p && i < p <= j < |log|
    requires Tomb(log[i]) && !Tomb(log[j]) && Buries(log, p, i, j)
    ensures Valid(t) && !SafeRotations(t.states, t.steps) && Last(t).mode == Serving && Last(t).log == log
    ensures Last(t).applied == |log| && Shows(Stored(Last(t)), log[j]) && !Shows(Span(log, 0, |log|), log[j])
  {
    assert Distinct(log) && Uncovers(log, p);
    hide *;
    var o := Logged(log, starts);
    t := CompactedAfterReplay(o, c, p);
    OnwardValid(o, t, c, p);
    UncoveredShows(log, p, i, j);
    NotSafe(t);
  }

  lemma OnwardValid(t: Trail, t': Trail, c: nat, p: nat)
    requires Onward(t, t', c, p)
    ensures Valid(t')
  {
  }

  lemma NotSafe(t: Trail)
    requires Valid(t) && Last(t).mode == Serving && Last(t).applied == |Last(t).log|
    requires !Faithful(Stored(Last(t)), Span(Last(t).log, 0, |Last(t).log|))
    ensures !SafeRotations(t.states, t.steps)
  {
    hide Faithful, Stored, Rotations;
    if SafeRotations(t.states, t.steps) { ServingShowsLog(t.states, t.steps, |t.steps|); }
  }
}
