/** Emptying the memtables: a forced rotation, or closing the partition, followed by the flusher. */
module Shutdown {
  import opened Versions
  import opened Partition
  import opened PartitionOrder
  import opened PartitionProof

  /** The queue holds the immutable memtables, in order, and the flusher has nothing in hand. */
  ghost predicate Waiting(s: State)
  {
    && s.flusher == Idle && |s.queue| == |s.imm|
    && forall i :: 0 <= i < |s.queue| ==> !s.queue[i].isCompact && s.queue[i].mt == s.imm[i]
  }

  /** Without a compaction, that is what the queue always holds. */
  lemma IdleWaiting(s: State)
    requires Order(s) && s.flusher == Idle && s.compaction == NoCompaction
    ensures Waiting(s)
  {
    OnlyFlushes(s.queue);
    assert [] + Flushes(s.queue) == Flushes(s.queue);
  }

  lemma {:induction false} OnlyFlushes(queue: seq<Task>)
    requires Compacts(queue) == []
    ensures Flushes(queue) == queue && forall i :: 0 <= i < |queue| ==> !queue[i].isCompact
  {
    if queue != [] {
      OnlyFlushes(queue[1..]);
      assert queue == [queue[0]] + queue[1..];
    }
  }

  function Flushed(s: State): State
    requires s.queue != [] && s.imm != []
  {
    var ts := s.tables + TableOf(s.queue[0]);
    s.(queue := s.queue[1..], imm := s.imm[1..], tables := ts, published := PublishList(s.published, ts))
  }

  /** The flusher takes the oldest memtable, builds its table, drops it and publishes the list. */
  lemma FlushNext(states: seq<State>, steps: seq<Step>) returns (states': seq<State>, steps': seq<Step>)
    requires IsRun(states, steps) && Waiting(states[|steps|]) && states[|steps|].queue != []
    ensures IsRun(states', steps') && states <= states'
    ensures SafeRotations(states, steps) ==> SafeRotations(states', steps')
    ensures Waiting(states'[|steps'|]) && states'[|steps'|] == Flushed(states[|steps|])
  {
    assert |states| == |steps| + 1;
    hide IsRun, SafeRotations, Enabled, After, Waiting, Flushed;
    FourSteps(states[|steps|]);
    states', steps' := Extended(states, steps, Take);
    states', steps' := Extended(states', steps', Build);
    states', steps' := Extended(states', steps', Pop);
    states', steps' := Extended(states', steps', Publish);
  }

  lemma FourSteps(s: State)
    requires Waiting(s) && s.queue != []
    ensures Enabled(s, Take)
    ensures var s1 := After(s, Take);
            Enabled(s1, Build) &&
            var s2 := After(s1, Build);
            Enabled(s2, Pop) &&
            var s3 := After(s2, Pop);
            Enabled(s3, Publish) && After(s3, Publish) == Flushed(s) && Waiting(Flushed(s))
  {
  }

  /** It does so until no memtable is left. */
  lemma {:induction false} Drain(states: seq<State>, steps: seq<Step>)
    returns (states': seq<State>, steps': seq<Step>)
    requires IsRun(states, steps) && Waiting(states[|steps|])
    ensures IsRun(states', steps') && states <= states'
    ensures SafeRotations(states, steps) ==> SafeRotations(states', steps')
    ensures var s, s' := states[|steps|], states'[|steps'|];
            s' == s.(queue := [], imm := [], tables := s'.tables, published := s'.published) &&
            (if s.queue == [] then s' == s else s'.tables != [] ==> s'.published == s'.tables) &&
            (s.queue != [] && Youngest(s).mt != [] ==>
               s'.tables != [] && Best(s'.tables) == Point(Youngest(s).seqNum, Youngest(s).vptr))
    decreases |states[|steps|].queue|
  {
    assert |states| == |steps| + 1;
    var s := states[|steps|];
    RunOrder(states, steps, |steps|);
    hide IsRun, SafeRotations, Waiting, Best, Order;
    states', steps' := states, steps;
    if s.queue != [] {
      if |s.queue| == 1 && s.queue[0].mt != [] { LastIsBest(s); }
      states', steps' := FlushNext(states, steps);
      states', steps' := Drain(states', steps');
    }
  }

  function Youngest(s: State): Task
    requires s.queue != []
  {
    s.queue[|s.queue| - 1]
  }

  /** The table of the last memtable is the newest. */
  lemma LastIsBest(s: State)
    requires Order(s) && Waiting(s) && |s.queue| == 1 && s.queue[0].mt != []
    ensures Best(s.tables + TableOf(s.queue[0])) == Point(s.queue[0].seqNum, s.queue[0].vptr)
  {
    hide Best;
    var t := s.queue[0];
    assert s.queue == [t] && [t][1..] == [];
    assert Pipeline(s.flusher, s.queue) == [t] by { assert Flushes([]) == [] && [] + Flushes([t]) == [t]; }
    assert Pipeline(s.flusher, s.queue)[0].seqNum > Best(s.tables).seqNum;
    BestAppend(s.tables, Table(t.mt, t.seqNum, t.vptr));
  }

  /** While serving, with the flusher idle and no compaction running, a forced rotation or a close followed by the
      flusher's work moves everything into tables: afterwards the tables alone show what the log shows, and no
      memtable is left. If the last memtable held anything, these tables are the published ones, and opened again the
      partition replays only what was logged after the last batch it applied while serving. */
  lemma FlushEverything(states: seq<State>, steps: seq<Step>, close: bool)
    returns (states': seq<State>, steps': seq<Step>)
    requires IsRun(states, steps) && SafeRotations(states, steps)
    requires var s := states[|steps|];
             && s.mode == Serving && s.applied == |s.log| && s.flusher == Idle && s.compaction == NoCompaction
             && |s.queue| < FLUSH_CHAN_CAPACITY
    ensures IsRun(states', steps') && SafeRotations(states', steps') && states <= states'
    ensures var s, s' := states[|steps|], states'[|steps'|];
            && s'.mode == (if close then Closed else Serving) && s'.log == s.log && s'.acked == s.acked
            && s'.mt == [] && s'.imm == [] && s'.queue == []
            && Faithful(InTables(s'.tables), Span(s'.log, 0, |s'.log|))
            && (s.mt != [] ==> s'.published == s'.tables && Best(s'.published).vp == s.vhead)
  {
    hide IsRun, SafeRotations, Order, Faithful, InTables, Span, Enabled, After, Waiting, Best, Youngest;
    RunLength(states, steps);
    var s, step := states[|steps|], if close then Close else Rotate;
    RunOrder(states, steps, |steps|);
    IdleWaiting(s);
    LastMemtable(s, step);
    var ts, us := Extended(states, steps, step);
    states', steps' := Drain(ts, us);
    RunLength(states', steps');
    ServingShowsLog(states', steps', |steps'|);
    OnlyTables(states'[|steps'|]);
  }

  lemma RunLength(states: seq<State>, steps: seq<Step>)
    requires IsRun(states, steps)
    ensures |states| == |steps| + 1
  {
  }

  lemma LastMemtable(s: State, step: Step)
    requires Waiting(s) && s.mode == Serving && s.applied == |s.log| && |s.queue| < FLUSH_CHAN_CAPACITY
    requires step == Close || step == Rotate
    ensures Enabled(s, step)
    ensures var s' := After(s, step);
            && Waiting(s') && (s.mt != [] ==> s'.queue != [] && Youngest(s').mt == s.mt && Youngest(s').vptr == s.vhead)
            && s'.mt == [] && s'.log == s.log && s'.applied == s.applied
            && s'.acked == s.acked && s'.mode == if step == Close then Closed else Serving
  {
  }

  lemma OnlyTables(s: State)
    requires s.mt == [] && s.imm == []
    ensures Stored(s) == InTables(s.tables)
  {
    assert InRuns([]) == {};
  }
}
