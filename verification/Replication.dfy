/** Appending to three replicas: the primary writes its own copy and asks the other two. Requests may
    be lost, delayed past the end of the append, or delivered twice; replicas may crash. */
module Replication {
  import opened Bytes
  import opened Extents
  import opened ExtentOps

  /** One replica's extent: its blocks, and how many of them are known to be on disk. */
  datatype Replica = Replica(blocks: seq<Block>, synced: nat)

  /** ReplicateBlocksRequest: append these blocks if your length is this. */
  datatype Request = Request(commit: nat, blocks: seq<Block>)

  /** `requests[n]` is the n-th append; `offsets` holds every success a replica has reported. */
  datatype State = State(
    replicas: seq<Replica>,
    requests: seq<Request>,
    inFlight: Option<nat>,
    offsets: map<(nat, nat), seq<nat>>,
    acked: set<nat>)

  function Length(r: Replica): nat { SECTOR + TotalSize(r.blocks) }

  function File(id: nat, r: Replica): Bytes
    requires AllProper(r.blocks)
  {
    FileHeader(id) + Frames(r.blocks)
  }

  // ---------- steps ----------

  datatype Step =
    | Begin(blocks: seq<Block>)
    | Write(n: nat, replica: nat, wrote: nat)
    | Acknowledge
    | GiveUp
    | Crash(replica: nat, cut: nat)

  /** AppendBlocks under the request's length check, getting as far as `wrote` blocks. Block headers are
      taken to be written in full, without which AppendBlocks leaves no whole blocks. */
  function AppendTo(r: Replica, req: Request, wrote: nat): Replica
    requires wrote <= |req.blocks|
  {
    if Length(r) != req.commit then r
    else
      var blocks := r.blocks + req.blocks[..wrote];
      Replica(blocks, if wrote == |req.blocks| then |blocks| else r.synced)
  }

  ghost predicate Enabled(s: State, step: Step)
  {
    match step
    case Begin(blocks) => s.inFlight == None && |s.replicas| == 3
    case Write(n, replica, wrote) =>
      && n < |s.requests| && replica < |s.replicas| && wrote <= |s.requests[n].blocks|
      && AllProper(s.requests[n].blocks[..wrote])
      && (replica == 0 ==> s.inFlight == Some(n) && (n, 0) !in s.offsets)
    case Acknowledge =>
      s.inFlight.Some? && forall j: nat :: j < 3 ==> (s.inFlight.value, j) in s.offsets
    case GiveUp => s.inFlight.Some?
    case Crash(replica, cut) =>
      && replica < |s.replicas| && AllProper(s.replicas[replica].blocks)
      && s.replicas[replica].synced <= |s.replicas[replica].blocks|
      && |Frames(s.replicas[replica].blocks[..s.replicas[replica].synced])| <= cut
      && cut <= |Frames(s.replicas[replica].blocks)|
  }

  ghost function After(s: State, step: Step): State
    requires Enabled(s, step)
  {
    match step
    case Begin(blocks) =>
      s.(requests := s.requests + [Request(Length(s.replicas[0]), blocks)], inFlight := Some(|s.requests|))
    case Write(n, j, wrote) =>
      var req, r := s.requests[n], s.replicas[j];
      s.(replicas := s.replicas[j := AppendTo(r, req, wrote)],
         offsets := if Length(r) == req.commit && wrote == |req.blocks|
                    then s.offsets[(n, j) := Offsets(Length(r), req.blocks)] else s.offsets)
    case Acknowledge => s.(acked := s.acked + {s.inFlight.value}, inFlight := None)
    case GiveUp => s.(inFlight := None)
    case Crash(j, cut) =>
      var r := s.replicas[j];
      var blocks := r.blocks[..WholeBefore(r.blocks, cut)];
      s.(replicas := s.replicas[j := Replica(blocks, r.synced)], inFlight := if j == 0 then None else s.inFlight)
  }

  const EMPTY: Replica := Replica([], 0)
  const INITIAL: State := State([EMPTY, EMPTY, EMPTY], [], None, map[], {})

  ghost predicate IsRun(states: seq<State>, steps: seq<Step>)
  {
    && |states| == |steps| + 1 && states[0] == INITIAL
    && forall i :: 0 <= i < |steps| ==> Enabled(states[i], steps[i]) && states[i + 1] == After(states[i], steps[i])
  }

  /** A crash step leaves the replica with the file that reopening finds, when the disk kept any prefix of the file
      that holds the synced blocks; the other replicas are not affected. */
  lemma CrashIsRecovery(id: nat, s: State, j: nat, cut: nat)
    requires Enabled(s, Crash(j, cut))
    ensures var r, r' := s.replicas[j], After(s, Crash(j, cut)).replicas[j];
            var disk := File(id, r)[..SECTOR + cut];
            var n := RecoverLength(disk, SECTOR);
            AllProper(r'.blocks) && n <= |disk| && disk[..n] == File(id, r') && r'.synced == r.synced
    ensures forall i :: 0 <= i < |s.replicas| && i != j ==> After(s, Crash(j, cut)).replicas[i] == s.replicas[i]
  {
    hide RecoverLength, Frames, WholeBefore;
    CrashRecovery(id, s.replicas[j].blocks, SECTOR + cut);
  }

  /** A write step appends the frames of the blocks it got to, behind a file of the length the request names, and
      otherwise leaves the file alone; the other replicas are not affected. */
  lemma WriteIsAppend(id: nat, s: State, n: nat, j: nat, wrote: nat)
    requires Enabled(s, Write(n, j, wrote)) && AllProper(s.replicas[j].blocks)
    ensures var r, r', req := s.replicas[j], After(s, Write(n, j, wrote)).replicas[j], s.requests[n];
            AllProper(r'.blocks) && |File(id, r)| == Length(r) &&
            File(id, r') == File(id, r) + if |File(id, r)| == req.commit then Frames(req.blocks[..wrote]) else []
    ensures forall i :: 0 <= i < |s.replicas| && i != j ==> After(s, Write(n, j, wrote)).replicas[i] == s.replicas[i]
  {
    hide Frames, FileHeader, TotalSize;
    var r, req := s.replicas[j], s.requests[n];
    FramesSize(r.blocks);
    FramesAppend(r.blocks, req.blocks[..wrote]);
    assert FileHeader(id) + (Frames(r.blocks) + Frames(req.blocks[..wrote])) ==
           File(id, r) + Frames(req.blocks[..wrote]);
  }

  // ---------- the invariant ----------

  /** The synced part of the replica holds the request's blocks at the request's offset. */
  ghost predicate Holds(r: Replica, req: Request)
  {
    exists k: nat :: HoldsAt(r, req, k)
  }

  ghost predicate HoldsAt(r: Replica, req: Request, k: nat)
  {
    && k + |req.blocks| <= r.synced <= |r.blocks|
    && SECTOR + TotalSize(r.blocks[..k]) == req.commit
    && r.blocks[k..k + |req.blocks|] == req.blocks
  }

  ghost predicate ReplicasOk(rs: seq<Replica>)
  {
    |rs| == 3 && forall j :: 0 <= j < 3 ==> AllProper(rs[j].blocks) && rs[j].synced <= |rs[j].blocks|
  }

  ghost predicate Inv(s: State)
  {
    && ReplicasOk(s.replicas)
    && (s.inFlight.Some? ==> s.inFlight.value == |s.requests| - 1 && s.inFlight.value !in s.acked)
    && (forall p: (nat, nat) :: p in s.offsets ==> p.0 < |s.requests| && p.1 < 3)
    && (forall p: (nat, nat) :: p in s.offsets ==> Reported(s, p))
    && (forall n: nat, j: nat :: n in s.acked && j < 3 ==> (n, j) in s.offsets)
    && (forall n: nat, m: nat :: n in s.acked && n < m < |s.requests| ==>
          s.requests[n].commit + TotalSize(s.requests[n].blocks) <= s.requests[m].commit)
  }

  /** A reported success: the blocks are there, at the offsets that were reported. */
  ghost predicate Reported(s: State, p: (nat, nat))
    requires p in s.offsets && p.0 < |s.requests| && p.1 < |s.replicas|
  {
    Holds(s.replicas[p.1], s.requests[p.0]) && s.offsets[p] == Offsets(s.requests[p.0].commit, s.requests[p.0].blocks)
  }

  // ---------- lemmas about one replica ----------

  /** More blocks after the synced part, or fewer, leave the synced part alone. */
  lemma HoldsKept(r: Replica, r': Replica, req: Request)
    requires Holds(r, req) && r.synced <= r'.synced <= |r'.blocks| && r.synced <= |r.blocks|
    requires r'.blocks[..r.synced] == r.blocks[..r.synced]
    ensures Holds(r', req)
  {
    var k: nat :| HoldsAt(r, req, k);
    SamePart(r.blocks, r'.blocks, r.synced, 0, k);
    SamePart(r.blocks, r'.blocks, r.synced, k, k + |req.blocks|);
    assert r'.blocks[..k] == r'.blocks[0..k] && r.blocks[..k] == r.blocks[0..k];
    assert HoldsAt(r', req, k);
  }

  lemma SamePart(a: seq<Block>, b: seq<Block>, n: nat, i: nat, j: nat)
    requires i <= j <= n <= |a| && n <= |b| && a[..n] == b[..n]
    ensures a[i..j] == b[i..j]
  {
    assert a[i..j] == a[..n][i..j] && b[i..j] == b[..n][i..j];
  }

  /** A full append makes the replica hold the request. */
  lemma AppendHolds(r: Replica, req: Request)
    requires Length(r) == req.commit
    ensures Holds(AppendTo(r, req, |req.blocks|), req)
  {
    var r' := AppendTo(r, req, |req.blocks|);
    var k := |r.blocks|;
    assert req.blocks[..|req.blocks|] == req.blocks;
    assert r'.blocks[..k] == r.blocks && r'.blocks[k..k + |req.blocks|] == req.blocks;
    assert HoldsAt(r', req, k);
  }

  lemma AppendShape(r: Replica, req: Request, wrote: nat)
    requires AllProper(r.blocks) && r.synced <= |r.blocks| && wrote <= |req.blocks| && AllProper(req.blocks[..wrote])
    ensures var r' := AppendTo(r, req, wrote);
            AllProper(r'.blocks) && r.synced <= r'.synced <= |r'.blocks| &&
                r'.blocks[..r.synced] == r.blocks[..r.synced]
  {
  }

  /** A crash that keeps the synced bytes keeps the synced blocks. */
  lemma {:induction false} CrashKeeps(bs: seq<Block>, synced: nat, cut: nat)
    requires AllProper(bs) && synced <= |bs| && |Frames(bs[..synced])| <= cut
    ensures synced <= WholeBefore(bs, cut)
  {
    if synced > 0 {
      assert bs[..synced][1..] == bs[1..][..synced - 1];
      assert Frames(bs[..synced]) == Frame(bs[0]) + Frames(bs[1..][..synced - 1]);
      CrashKeeps(bs[1..], synced - 1, cut - |Frame(bs[0])|);
    }
  }

  lemma HoldsLength(r: Replica, req: Request)
    requires Holds(r, req)
    ensures req.commit + TotalSize(req.blocks) <= Length(r)
  {
    var k: nat :| HoldsAt(r, req, k);
    var n := k + |req.blocks|;
    assert r.blocks == r.blocks[..k] + r.blocks[k..n] + r.blocks[n..];
    SizesAppend(r.blocks[..k] + r.blocks[k..n], r.blocks[n..]);
    SizesAppend(r.blocks[..k], r.blocks[k..n]);
  }

  // ---------- every step keeps the invariant ----------

  /** Replica j changes without losing synced blocks; every report stays true. */
  lemma ReportsKept(s: State, j: nat, r': Replica, p: (nat, nat))
    requires Inv(s) && j < 3 && p in s.offsets
    requires s.replicas[j].synced <= r'.synced <= |r'.blocks| &&
             r'.blocks[..s.replicas[j].synced] == s.replicas[j].blocks[..s.replicas[j].synced]
    ensures Reported(s.(replicas := s.replicas[j := r']), p)
  {
    hide Holds;
    if p.1 == j { HoldsKept(s.replicas[j], r', s.requests[p.0]); }
  }

  lemma StepWrite(s: State, n: nat, j: nat, wrote: nat)
    requires Inv(s) && Enabled(s, Write(n, j, wrote))
    ensures Inv(After(s, Write(n, j, wrote)))
  {
    hide Holds, AppendTo, Offsets, TotalSize;
    var s' := After(s, Write(n, j, wrote));
    var r, req := s.replicas[j], s.requests[n];
    AppendShape(r, req, wrote);
    forall p: (nat, nat) | p in s'.offsets ensures Reported(s', p) {
      if p in s.offsets && s'.offsets[p] == s.offsets[p] {
        ReportsKept(s, j, AppendTo(r, req, wrote), p);
      } else {
        AppendHolds(r, req);
      }
    }
  }

  lemma StepCrash(s: State, j: nat, cut: nat)
    requires Inv(s) && Enabled(s, Crash(j, cut))
    ensures Inv(After(s, Crash(j, cut)))
  {
    hide Holds, Frames, WholeBefore, Offsets, TotalSize;
    var s' := After(s, Crash(j, cut));
    var r := s.replicas[j];
    CrashKeeps(r.blocks, r.synced, cut);
    var r' := s'.replicas[j];
    assert r'.blocks[..r.synced] == r.blocks[..r.synced];
    forall p: (nat, nat) | p in s'.offsets ensures Reported(s', p) { ReportsKept(s, j, r', p); }
  }

  lemma StepBegin(s: State, blocks: seq<Block>)
    requires Inv(s) && Enabled(s, Begin(blocks))
    ensures Inv(After(s, Begin(blocks)))
  {
    hide Holds, Offsets, TotalSize, Length;
    var s' := After(s, Begin(blocks));
    forall n: nat | n in s.acked ensures n < |s.requests| { assert (n, 0) in s.offsets; }
    forall p: (nat, nat) | p in s'.offsets ensures Reported(s', p) { assert Reported(s, p); }
    forall n: nat, m: nat | n in s'.acked && n < m < |s'.requests|
      ensures s'.requests[n].commit + TotalSize(s'.requests[n].blocks) <= s'.requests[m].commit
    {
      if m == |s.requests| { assert Reported(s, (n, 0)); HoldsLength(s.replicas[0], s.requests[n]); }
    }
  }

  lemma StepRest(s: State, step: Step)
    requires Inv(s) && Enabled(s, step) && (step.Acknowledge? || step.GiveUp?)
    ensures Inv(After(s, step))
  {
    hide Holds, Offsets, TotalSize;
    var s' := After(s, step);
    forall p: (nat, nat) | p in s'.offsets ensures Reported(s', p) { assert Reported(s, p); }
  }

  lemma {:induction false} RunInv(states: seq<State>, steps: seq<Step>, i: nat)
    requires IsRun(states, steps) && i < |states|
    ensures Inv(states[i])
  {
    hide Inv, Enabled, After;
    if i == 0 {
      InitialInv();
    } else {
      RunInv(states, steps, i - 1);
      var s, step := states[i - 1], steps[i - 1];
      assert Enabled(s, step) && states[(i - 1) + 1] == After(s, step);
      match step
      case Begin(blocks) => StepBegin(s, blocks);
      case Write(n, j, wrote) => StepWrite(s, n, j, wrote);
      case Crash(j, cut) => StepCrash(s, j, cut);
      case Acknowledge => StepRest(s, step);
      case GiveUp => StepRest(s, step);
    }
  }

  lemma InitialInv()
    ensures Inv(INITIAL)
  {
  }

  // ---------- what every run promises ----------

  /** Whatever the network and the replicas do, the blocks of an acknowledged append are on every
      replica, byte for byte, at the offset of the append, and reading there gives them back. */
  lemma AckedEverywhere(states: seq<State>, steps: seq<Step>, i: nat, n: nat, j: nat, id: nat)
    requires IsRun(states, steps) && i < |states| && n in states[i].acked && j < 3
    ensures n < |states[i].requests| && |states[i].replicas| == 3
    ensures var r, req := states[i].replicas[j], states[i].requests[n];
            AllProper(r.blocks) && AllProper(req.blocks) && req.commit <= |File(id, r)| &&
            Frames(req.blocks) <= File(id, r)[req.commit..] &&
            ReadUpTo(File(id, r), req.commit, |req.blocks|, TotalSize(req.blocks), 0, false) == (req.blocks, Fine)
  {
    hide Holds;
    RunInv(states, steps, i);
    var s := states[i];
    assert (n, j) in s.offsets;
    assert Reported(s, (n, j));
    HoldsBytes(s.replicas[j], s.requests[n], id);
  }

  lemma HoldsBytes(r: Replica, req: Request, id: nat)
    requires AllProper(r.blocks) && Holds(r, req)
    ensures AllProper(req.blocks) && req.commit <= |File(id, r)| && Frames(req.blocks) <= File(id, r)[req.commit..]
    ensures ReadUpTo(File(id, r), req.commit, |req.blocks|, TotalSize(req.blocks), 0, false) == (req.blocks, Fine)
  {
    hide Frames, FileHeader, ReadUpTo, Proper;
    var k: nat :| HoldsAt(r, req, k);
    var n := k + |req.blocks|;
    var a, c := r.blocks[..k], r.blocks[n..];
    assert r.blocks == a + req.blocks + c;
    assert AllProper(a) && AllProper(c);
    assert AllProper(req.blocks) by {
      forall i | 0 <= i < |req.blocks| ensures Proper(req.blocks[i]) {
        assert req.blocks[i] == r.blocks[k..n][i] == r.blocks[k + i];
      }
    }
    FramesAppend(a + req.blocks, c); FramesAppend(a, req.blocks);
    FramesSize(a);
    var pre := FileHeader(id) + Frames(a);
    assert File(id, r) == pre + Frames(req.blocks) + Frames(c);
    assert |pre| == req.commit;
    ReadsAppended(pre, req.blocks, Frames(c), TotalSize(req.blocks), 0, false);
    assert File(id, r)[req.commit..] == Frames(req.blocks) + Frames(c);
  }

  /** Replicas that report success for one append always report the same offsets, so the primary's
      comparison never refuses an append that all three have written. */
  lemma OffsetsAgree(states: seq<State>, steps: seq<Step>, i: nat, n: nat, j: nat, k: nat)
    requires IsRun(states, steps) && i < |states|
    requires (n, j) in states[i].offsets && (n, k) in states[i].offsets
    ensures states[i].offsets[(n, j)] == states[i].offsets[(n, k)]
  {
    RunInv(states, steps, i);
    assert Reported(states[i], (n, j)) && Reported(states[i], (n, k));
  }

  /** Acknowledged appends occupy disjoint stretches of the extent, in the order of the appends. */
  lemma AckedInOrder(states: seq<State>, steps: seq<Step>, i: nat, n: nat, m: nat)
    requires IsRun(states, steps) && i < |states| && n in states[i].acked && m in states[i].acked && n < m
    ensures m < |states[i].requests|
    ensures states[i].requests[n].commit + TotalSize(states[i].requests[n].blocks) <= states[i].requests[m].commit
  {
    RunInv(states, steps, i);
    assert (m, 0) in states[i].offsets;
  }

  // ---------- which appends are acknowledged ----------

  /** An append is acknowledged exactly when the primary has at some point found it reported by all three replicas,
      and it stays so. */
  lemma {:induction false} AckedExactly(states: seq<State>, steps: seq<Step>, i: nat, n: nat)
    requires IsRun(states, steps) && i < |states|
    ensures n in states[i].acked <==> exists k :: 0 <= k < i && steps[k] == Acknowledge && AllReport(states[k], n)
  {
    hide Enabled, After;
    if i > 0 {
      AckedExactly(states, steps, i - 1, n);
      var s, step := states[i - 1], steps[i - 1];
      assert Enabled(s, step) && states[(i - 1) + 1] == After(s, step);
      AckedStep(s, step, n);
      if n in states[i].acked && n !in s.acked { assert AllReport(states[i - 1], n); }
    }
  }

  /** The append is in flight and every replica has reported it. */
  ghost predicate AllReport(s: State, n: nat)
  {
    s.inFlight == Some(n) && forall j: nat :: j < 3 ==> (n, j) in s.offsets
  }

  lemma AckedStep(s: State, step: Step, n: nat)
    requires Enabled(s, step)
    ensures n in After(s, step).acked <==> n in s.acked || (step == Acknowledge && AllReport(s, n))
  {
  }

  lemma Extended(states: seq<State>, steps: seq<Step>, step: Step) returns (states': seq<State>, steps': seq<Step>)
    requires IsRun(states, steps) && Enabled(states[|steps|], step)
    ensures IsRun(states', steps') && steps' == steps + [step] && states' == states + [After(states[|steps|], step)]
    ensures |states'| == |steps'| + 1 && states'[|steps'|] == After(states[|steps|], step)
  {
    hide Enabled, After;
    states', steps' := states + [After(states[|steps|], step)], steps + [step];
    forall i | 0 <= i < |steps'|
      ensures Enabled(states'[i], steps'[i]) && states'[i + 1] == After(states'[i], steps'[i])
    {
      if i < |steps| { assert Enabled(states[i], steps[i]) && states[i + 1] == After(states[i], steps[i]); }
    }
  }

  function FullCopy(r: Replica, blocks: seq<Block>): Replica { Replica(r.blocks + blocks, |r.blocks| + |blocks|) }

  /** The first m replicas have written append n in full. */
  ghost predicate Written(s: State, o: State, blocks: seq<Block>, m: nat)
    requires |o.replicas| == 3 && m <= 3
  {
    var n, at := |o.requests|, Length(o.replicas[0]);
    && s.requests == o.requests + [Request(at, blocks)] && s.inFlight == Some(n) && s.acked == o.acked
    && |s.replicas| == 3
    && (forall j :: 0 <= j < 3 ==>
          s.replicas[j] == if j < m then FullCopy(o.replicas[j], blocks) else o.replicas[j])
    && (forall j: nat :: j < 3 ==> ((n, j) in s.offsets <==> j < m))
    && (forall j: nat :: j < m ==> s.offsets[(n, j)] == Offsets(at, blocks))
  }

  lemma WriteNext(states: seq<State>, steps: seq<Step>, o: State, blocks: seq<Block>, m: nat)
    returns (states': seq<State>, steps': seq<Step>)
    requires IsRun(states, steps) && |o.replicas| == 3 && m < 3 && AllProper(blocks)
    requires Written(states[|steps|], o, blocks, m) && Length(o.replicas[m]) == Length(o.replicas[0])
    ensures IsRun(states', steps') && steps' == steps + [Write(|o.requests|, m, |blocks|)] && states <= states'
    ensures |states'| == |steps'| + 1
    ensures Written(states'[|steps'|], o, blocks, m + 1)
  {
    hide Offsets, Length, Proper;
    var s, step := states[|steps|], Write(|o.requests|, m, |blocks|);
    assert blocks[..|blocks|] == blocks;
    states', steps' := Extended(states, steps, step);
  }

  /** From any moment with replicas of one length, once an append that is in flight is given up, an append of any
      proper blocks can go through: the three replicas write it and report the same offsets, those of the blocks
      behind the old length, and it is acknowledged. */
  lemma AppendSucceeds(states: seq<State>, steps: seq<Step>, blocks: seq<Block>)
    returns (states': seq<State>, steps': seq<Step>)
    requires IsRun(states, steps) && AllProper(blocks)
    requires forall j :: 0 <= j < |states[|steps|].replicas| ==>
               Length(states[|steps|].replicas[j]) == Length(states[|steps|].replicas[0])
    ensures IsRun(states', steps') && states <= states'
    ensures var s, s', n := states[|steps|], states'[|steps'|], |states[|steps|].requests|;
            && steps' == steps + (if s.inFlight.Some? then [GiveUp] else []) +
                           [Begin(blocks), Write(n, 0, |blocks|), Write(n, 1, |blocks|), Write(n, 2, |blocks|),
                            Acknowledge]
            && s'.acked == s.acked + {n} && s'.inFlight == None && |s.replicas| == |s'.replicas| == 3
            && forall j :: 0 <= j < 3 ==>
                 s'.replicas[j].blocks == s.replicas[j].blocks + blocks && (n, j) in s'.offsets &&
                 s'.offsets[(n, j)] == Offsets(Length(s.replicas[0]), blocks)
  {
    var vs, us := Free(states, steps);
    var o := vs[|us|];
    var ws, ts := WrittenByAll(vs, us, blocks);
    hide Offsets, Length, Written, Enabled, After, IsRun;
    AllWritten(ws[|ts|], o, blocks);
    states', steps' := Extended(ws, ts, Acknowledge);
  }

  lemma Free(states: seq<State>, steps: seq<Step>) returns (states': seq<State>, steps': seq<Step>)
    requires IsRun(states, steps)
    ensures IsRun(states', steps') && states <= states'
    ensures steps' == steps + if states[|steps|].inFlight.Some? then [GiveUp] else []
    ensures states'[|steps'|] == states[|steps|].(inFlight := None)
  {
    states', steps' := states, steps;
    if states[|steps|].inFlight.Some? { states', steps' := Extended(states, steps, GiveUp); }
  }

  lemma WrittenByAll(states: seq<State>, steps: seq<Step>, blocks: seq<Block>)
    returns (states': seq<State>, steps': seq<Step>)
    requires IsRun(states, steps) && AllProper(blocks) && states[|steps|].inFlight == None
    requires forall j :: 0 <= j < |states[|steps|].replicas| ==>
               Length(states[|steps|].replicas[j]) == Length(states[|steps|].replicas[0])
    ensures IsRun(states', steps') && states <= states' && |states'| == |steps'| + 1
    ensures var o := states[|steps|];
            steps' == steps + [Begin(blocks), Write(|o.requests|, 0, |blocks|), Write(|o.requests|, 1, |blocks|),
                               Write(|o.requests|, 2, |blocks|)]
    ensures |states[|steps|].replicas| == 3 && Written(states'[|steps'|], states[|steps|], blocks, 3)
  {
    var o := states[|steps|];
    RunInv(states, steps, |steps|);
    assert |states| == |steps| + 1 && |o.replicas| == 3;
    hide Inv, Offsets, Length, Written, Enabled, After, IsRun, Proper;
    Begun(o, blocks);
    states', steps' := Extended(states, steps, Begin(blocks));
    states', steps' := WriteNext(states', steps', o, blocks, 0);
    states', steps' := WriteNext(states', steps', o, blocks, 1);
    states', steps' := WriteNext(states', steps', o, blocks, 2);
  }

  lemma Begun(o: State, blocks: seq<Block>)
    requires Inv(o) && o.inFlight == None
    ensures Enabled(o, Begin(blocks)) && Written(After(o, Begin(blocks)), o, blocks, 0)
  {
  }

  lemma AllWritten(s: State, o: State, blocks: seq<Block>)
    requires |o.replicas| == 3 && Written(s, o, blocks, 3)
    ensures Enabled(s, Acknowledge) && After(s, Acknowledge).acked == o.acked + {|o.requests|}
    ensures After(s, Acknowledge).inFlight == None && |After(s, Acknowledge).replicas| == 3
    ensures forall j: nat :: j < 3 ==>
              After(s, Acknowledge).replicas[j].blocks == o.replicas[j].blocks + blocks &&
              (|o.requests|, j) in After(s, Acknowledge).offsets &&
              After(s, Acknowledge).offsets[(|o.requests|, j)] == Offsets(Length(o.replicas[0]), blocks)
  {
  }

  // ---------- the primary's answer ----------

  /** What one replica answered; no offsets come with a failure. */
  datatype Result = Result(failed: bool, offsets: seq<nat>)
  datatype Answer = Acked(offsets: seq<nat>) | Refused(failed: bool)

  /** The loop over the three results, in the order they arrive: the append is acknowledged exactly when
      none failed and every result repeats the offsets of each earlier one that has any. */
  method FoldResults(results: seq<Result>) returns (a: Answer)
    ensures a.Acked? <==> (forall i :: 0 <= i < |results| ==> !results[i].failed) &&
                          (forall i, j :: 0 <= i < j < |results| ==> results[i].offsets in [[], results[j].offsets])
    ensures a.Acked? && results != [] ==> a.offsets == results[|results| - 1].offsets
    ensures a == Refused(false) ==> exists i, j :: 0 <= i < j < |results| && results[i].offsets != results[j].offsets
  {
    var pre: seq<nat> := [];
    var i := 0;
    while i < |results|
      invariant 0 <= i <= |results|
      invariant forall k :: 0 <= k < i ==> !results[k].failed
      invariant forall k, j :: 0 <= k < j < i ==> results[k].offsets in [[], results[j].offsets]
      invariant pre == if i == 0 then [] else results[i - 1].offsets
    {
      if pre == [] { pre := results[i].offsets; }
      if results[i].failed || results[i].offsets != pre {
        return Refused(results[i].failed);
      }
      i := i + 1;
    }
    a := Acked(pre);
  }

  /** The refusal without an error, for results that differ, is never the answer to an append that all
      three replicas have written, in whatever order their results arrive. */
  lemma WrittenIsAcked(states: seq<State>, steps: seq<Step>, i: nat, n: nat, results: seq<Result>)
    requires IsRun(states, steps) && i < |states|
    requires forall k :: 0 <= k < |results| ==> !results[k].failed
    requires forall k :: 0 <= k < |results| ==>
               exists j: nat :: (n, j) in states[i].offsets && results[k].offsets == states[i].offsets[(n, j)]
    ensures forall k, l :: 0 <= k < l < |results| ==> results[k].offsets == results[l].offsets
  {
    forall k, l | 0 <= k < l < |results| ensures results[k].offsets == results[l].offsets {
      var a: nat :| (n, a) in states[i].offsets && results[k].offsets == states[i].offsets[(n, a)];
      var b: nat :| (n, b) in states[i].offsets && results[l].offsets == states[i].offsets[(n, b)];
      OffsetsAgree(states, steps, i, n, a, b);
    }
  }
}
