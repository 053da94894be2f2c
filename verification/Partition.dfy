/** One range partition as a state machine: the write-ahead log, the memtables, the flush pipeline,
    the tables and the table list published to the manager. Crashes may happen at any step. */
module Partition {
  import opened Runs
  import opened Versions

  const FLUSH_CHAN_CAPACITY: nat := 16

  /** A table remembers the position in the log from which to replay when it is the newest. */
  datatype Table = Table(run: Run, lastSeq: nat, vp: nat)

  datatype Task = Task(mt: Run, vptr: nat, seqNum: nat, isCompact: bool)

  /** What the flusher holds: a task it has taken, one whose table is in the list, one already
      removed from the immutable memtables. */
  datatype Flusher = Idle | Holding(task: Task) | Built(task: Task) | Popped(task: Task)

  datatype Mode = Replaying | Serving | Closed

  /** A running major compaction of the first `inputs` tables: chunks still to be queued and builds
      not yet reported back. */
  datatype Compaction = NoCompaction | Compacting(inputs: nat, todo: seq<Run>, waiting: nat)

  /** `log` lists the logged versions; `starts[i]` is the position of the first version in the block
      that holds version i. The log, its block starts and `published` survive a crash; `acked` is
      what clients have been told is written. While replaying, `seen` says that the counter has taken note of the
      entry that is to be stored next. */
  datatype State = State(
    log: seq<Entry>,
    starts: seq<nat>,
    acked: set<Entry>,
    published: seq<Table>,
    applied: nat,
    seen: bool,
    mode: Mode,
    mt: Run,
    imm: seq<Run>,
    queue: seq<Task>,
    flusher: Flusher,
    tables: seq<Table>,
    vhead: nat,
    seqNumber: nat,
    compaction: Compaction)

  // ---------- the recovery point ----------

  datatype Point = Point(seqNum: nat, vp: nat)

  /** The newest table by LastSeq, the first one on ties; the start of the log if there is none. */
  function Best(ts: seq<Table>): Point
  {
    if ts == [] then Point(0, 0)
    else
      var b, t := Best(ts[..|ts| - 1]), ts[|ts| - 1];
      if t.lastSeq > b.seqNum then Point(t.lastSeq, t.vp) else b
  }

  // ---------- steps ----------

  datatype Step =
    | LogAppend(batch: seq<Entry>, starts: seq<nat>)
    | Rotate
    | NoRoom
    | Stamp
    | ApplyBatch(order: seq<Entry>)
    | ReplaySee
    | ReplayStore
    | StartServing
    | Close
    | Take
    | Build
    | Pop
    | Publish
    | CompactStart(chunks: seq<Run>)
    | CompactEnqueue
    | CompactFinish
    | Crash

  function PutAll(r: Run, es: seq<Entry>): Run
    decreases |es|
  {
    if es == [] then r else PutAll(Put(r, es[0].key, es[0].vs), es[1..])
  }

  function TableOf(t: Task): seq<Table>
  {
    if t.mt == [] then [] else [Table(t.mt, t.seqNum, t.vptr)]
  }

  function Elements(r: Run): set<Entry> { set e | e in r }

  ghost function InRuns(rs: seq<Run>): set<Entry> { set i, e | 0 <= i < |rs| && e in rs[i] :: e }

  ghost function InTables(ts: seq<Table>): set<Entry> { set i, e | 0 <= i < |ts| && e in ts[i].run :: e }

  /** The list goes to the manager unless it is empty. */
  function PublishList(before: seq<Table>, ts: seq<Table>): seq<Table> { if ts == [] then before else ts }

  /** Where a rotated memtable says to replay from: the end of the last completed batch, or while
      replaying the block being read. */
  function RotationPoint(s: State): nat
    requires s.mode == Replaying ==> s.applied < |s.starts|
  {
    if s.mode == Replaying then s.starts[s.applied] else s.vhead
  }

  ghost predicate Enabled(s: State, step: Step)
  {
    match step
    case LogAppend(batch, starts) =>
      && s.mode == Serving && s.applied == |s.log|
      && |starts| == |batch| > 0 && (forall i :: 0 <= i < |batch| ==> |s.log| <= starts[i] <= |s.log| + i)
      && (forall e :: e in batch ==> |e.key| > 8 && 0 < Ts(e) <= s.seqNumber && e.vs.expiresAt == 0)
      && Distinct(batch) && Newer(s.log, batch)
    case Rotate =>
      && s.mode != Closed && |s.queue| < FLUSH_CHAN_CAPACITY
      && (s.mode == Replaying ==> s.seen && s.applied < |s.log| == |s.starts|)
    case NoRoom => s.mode == Serving || (s.mode == Replaying && s.seen)
    case Stamp => s.mode != Replaying
    case ApplyBatch(order) => s.mode == Serving && s.applied < |s.log| &&
         multiset(order) == multiset(s.log[s.applied..])
    case ReplaySee => s.mode == Replaying && !s.seen && s.applied < |s.log|
    case ReplayStore => s.mode == Replaying && s.seen && s.applied < |s.log|
    case StartServing => s.mode == Replaying && s.applied == |s.log|
    case Close => s.mode == Serving && s.applied == |s.log| && (s.mt == [] || |s.queue| < FLUSH_CHAN_CAPACITY)
    case Take => s.flusher == Idle && s.queue != []
    case Build => s.flusher.Holding?
    case Pop => s.flusher.Built?
    case Publish => s.flusher.Popped?
    case CompactStart(chunks) =>
      && s.mode == Serving && s.compaction == NoCompaction && |s.tables| > 1
      && (forall r :: r in chunks ==> Sorted(r)) && InRuns(chunks) == Survivors(InTables(s.tables))
    case CompactEnqueue => s.compaction.Compacting? && s.compaction.todo != [] && |s.queue| < FLUSH_CHAN_CAPACITY
    case CompactFinish => s.compaction.Compacting? && s.compaction.todo == [] && s.compaction.waiting == 0
    case Crash => true
  }

  ghost function After(s: State, step: Step): State
    requires Enabled(s, step)
  {
    match step
    case LogAppend(batch, starts) => s.(log := s.log + batch, starts := s.starts + starts)
    case Rotate =>
      s.(seqNumber := s.seqNumber + 1,
         queue := s.queue + [Task(s.mt, RotationPoint(s), s.seqNumber + 1, false)],
         imm := s.imm + [s.mt], mt := [])
    case NoRoom => s.(seqNumber := s.seqNumber + 1)
    case Stamp => s.(seqNumber := s.seqNumber + 1)
    case ApplyBatch(order) =>
      s.(mt := PutAll(s.mt, order), applied := |s.log|, vhead := |s.log|, acked := s.acked + Elements(order))
    case ReplaySee =>
      s.(seen := true, seqNumber := if Ts(s.log[s.applied]) > s.seqNumber then s.seqNumber + 1 else s.seqNumber)
    case ReplayStore =>
      s.(seen := false, mt := Put(s.mt, s.log[s.applied].key, s.log[s.applied].vs), applied := s.applied + 1)
    case StartServing => s.(mode := Serving)
    case Close =>
      if s.mt == [] then s.(mode := Closed)
      else s.(mode := Closed,
              queue := s.queue + [Task(s.mt, s.vhead, s.seqNumber + 1, false)],
              imm := s.imm + [s.mt], mt := [])
    case Take => s.(flusher := Holding(s.queue[0]), queue := s.queue[1..])
    case Build => s.(flusher := Built(s.flusher.task), tables := s.tables + TableOf(s.flusher.task))
    case Pop =>
      s.(flusher := Popped(s.flusher.task),
         imm := if s.flusher.task.isCompact || s.imm == [] then s.imm else s.imm[1..])
    case Publish =>
      s.(flusher := Idle, published := PublishList(s.published, s.tables),
         compaction := if s.flusher.task.isCompact && s.compaction.Compacting? && s.compaction.waiting > 0
                       then s.compaction.(waiting := s.compaction.waiting - 1) else s.compaction)
    case CompactStart(chunks) => s.(compaction := Compacting(|s.tables|, chunks, 0))
    case CompactEnqueue =>
      var b := Best(s.tables[..Min(s.compaction.inputs, |s.tables|)]);
      s.(queue := s.queue + [Task(s.compaction.todo[0], b.vp, b.seqNum, true)],
         compaction := s.compaction.(todo := s.compaction.todo[1..], waiting := s.compaction.waiting + 1))
    case CompactFinish =>
      var rest := s.tables[Min(s.compaction.inputs, |s.tables|)..];
      s.(tables := rest, published := PublishList(s.published, rest), compaction := NoCompaction)
    case Crash => Reopened(s)
  }

  function Min(a: nat, b: nat): nat { if a < b then a else b }

  /** What a crash leaves, as OpenRangePartition finds it before replay. */
  function Reopened(s: State): State
  {
    State(s.log, s.starts, s.acked, s.published, Min(Best(s.published).vp, |s.log|), false, Replaying,
          [], [], [], Idle, s.published, 0, Best(s.published).seqNum, NoCompaction)
  }

  const INITIAL: State := State([], [], {}, [], 0, false, Replaying, [], [], [], Idle, [], 0, 0, NoCompaction)

  /** While replaying, the memtable is rotated, and its table asks for a replay, only at positions that do not
      separate a newer version of a key from an older one, or, when not strict, a deletion from a live one. */
  ghost predicate RotationOk(s: State, step: Step, strict: bool)
  {
    step.Rotate? && s.mode == Replaying && s.applied < |s.starts| ==>
      Parts(s.log, s.applied, strict) && Parts(s.log, s.starts[s.applied], strict)
  }

  ghost predicate Rotations(states: seq<State>, steps: seq<Step>, strict: bool)
  {
    forall i :: 0 <= i < |steps| && i < |states| ==> RotationOk(states[i], steps[i], strict)
  }

  ghost predicate CleanRotations(states: seq<State>, steps: seq<Step>) { Rotations(states, steps, true) }

  ghost predicate SafeRotations(states: seq<State>, steps: seq<Step>) { Rotations(states, steps, false) }

  /** A run of the partition from an empty log. */
  ghost predicate IsRun(states: seq<State>, steps: seq<Step>)
  {
    && |states| == |steps| + 1 && states[0] == INITIAL
    && forall i :: 0 <= i < |steps| ==> Enabled(states[i], steps[i]) && states[i + 1] == After(states[i], steps[i])
  }
}
