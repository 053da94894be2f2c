/** Get and Range in the states of a run, with the locks they take and the counter they read. */
module RunReads {
  import opened Bytes
  import opened Keys
  import opened Runs
  import opened Versions
  import opened Partition
  import opened PartitionOrder
  import opened PartitionProof
  import opened Reads
  import opened Recovery
  import opened Replay
  import opened Merges
  import opened Scans

  // ---------- the latest version ----------

  /** As long as the counter covers the log, which it does until the first crash, a read of the latest
      version returns exactly what the applied log shows. */
  lemma LatestShowsLog(states: seq<State>, steps: seq<Step>, i: nat, n: nat, user: Bytes, r: Option<Entry>)
    requires IsRun(states, steps) && SafeRotations(states, steps) && i <= n < |states| && states[n].mode != Replaying
    requires (i == 0 || Covered(states[i])) && forall k :: i <= k < n ==> !steps[k].Crash?
    requires IsAnswer(Stored(states[n]), user, states[n].seqNumber, r)
    ensures states[n].applied <= |states[n].log|
    ensures forall e :: User(e) == user ==>
              (Shows(Span(states[n].log, 0, states[n].applied), e) <==> r == Some(e) && !Tomb(e))
  {
    hide IsAnswer, Stored;
    CounterCovers(states, steps, i, n);
    assert forall e :: e in states[n].log ==> Ts(e) <= states[n].seqNumber;
    ReadsShowLog(states, steps, n, user, states[n].seqNumber, r);
  }

  // ---------- memtables and tables under two locks ----------

  lemma {:induction false} LogGrows(states: seq<State>, steps: seq<Step>, i: nat, n: nat)
    requires IsRun(states, steps) && i <= n < |states|
    ensures states[i].log <= states[n].log
  {
    hide Enabled, After;
    if i < n {
      LogGrows(states, steps, i, n - 1);
      assert Enabled(states[n - 1], steps[n - 1]) && states[(n - 1) + 1] == After(states[n - 1], steps[n - 1]);
      StepLog(states[n - 1], steps[n - 1]);
    }
  }

  lemma StepLog(s: State, step: Step)
    requires Enabled(s, step)
    ensures s.log <= After(s, step).log
    ensures !step.Crash? && s.mode != Replaying ==> After(s, step).mode != Replaying
  {
  }

  /** Position x was where the log was applied at some moment from i to n. */
  ghost predicate WasApplied(states: seq<State>, i: nat, n: nat, x: nat)
    requires n < |states|
  {
    exists k :: i <= k <= n && states[k].applied == x && states[k].mode != Replaying
  }

  /** What has moved since moment i: the tables are no further back, no cut is older than the oldest one
      then, and every cut and table end beyond what was applied then was a moment's end of the applied log. */
  ghost predicate Tracked(states: seq<State>, i: nat, n: nat, oldest: nat, w: Witness)
    requires i <= n < |states| && w.cuts != []
  {
    var s, a := states[n], states[i].applied;
    && s.mode != Replaying && oldest <= Base(s.flusher, w.cuts)
    && (forall x :: x in w.cuts ==> oldest <= x && (x <= a || WasApplied(states, i, n, x)))
    && (w.hi <= a || (w.hi == Base(s.flusher, w.cuts) && WasApplied(states, i, n, w.hi)))
  }

  lemma {:induction false} Track(states: seq<State>, steps: seq<Step>, ws: seq<Witness>, i: nat, n: nat)
    requires IsRun(states, steps) && Linked(states, steps, ws, true) && i <= n < |ws|
    requires states[i].mode != Replaying && forall k :: i <= k < n ==> !steps[k].Crash?
    ensures Tracked(states, i, n, ws[i].cuts[0], ws[n])
  {
    hide Inv, Enabled, After, Advances, Grows, Tracked;
    if i == n {
      TrackStart(states, i, ws[i]);
    } else {
      Track(states, steps, ws, i, n - 1);
      assert Enabled(states[n - 1], steps[n - 1]) && states[(n - 1) + 1] == After(states[n - 1], steps[n - 1]);
      assert Link(states[n - 1], ws[n - 1], steps[n - 1], states[(n - 1) + 1], ws[(n - 1) + 1]);
      TrackedMode(states, i, n - 1, ws[i].cuts[0], ws[n - 1]);
      StepLog(states[n - 1], steps[n - 1]);
      BaseAfter(states[n - 1], ws[n - 1], true);
      TrackStep(states, i, n, ws[i].cuts[0], ws[n - 1], ws[n]);
    }
  }

  lemma TrackedMode(states: seq<State>, i: nat, n: nat, oldest: nat, w: Witness)
    requires i <= n < |states| && w.cuts != [] && Tracked(states, i, n, oldest, w)
    ensures states[n].mode != Replaying
  {
  }

  lemma TrackStart(states: seq<State>, i: nat, v: Witness)
    requires i < |states| && Inv(states[i], v, true) && states[i].mode != Replaying
    ensures v.cuts != [] && Tracked(states, i, i, v.cuts[0], v)
  {
    hide Order, TablesOk, CompactionOk, Pipeline, Unbuilt, Parts, Span, MemOk, VptrOk;
    var s := states[i];
    BaseAfter(s, v, true);
    PartitionProof.CutsIn(s.log, s.mt, s.imm, s.applied, v.cuts);
    forall x | x in v.cuts ensures v.cuts[0] <= x {
      var k :| 0 <= k < |v.cuts| && v.cuts[k] == x;
      CutsFrom(s.log, s.mt, s.imm, s.applied, v.cuts, k);
    }
  }

  lemma {:induction false} CutsFrom(log: seq<Entry>, mt: Run, imm: seq<Run>, applied: nat, cuts: seq<nat>, k: nat)
    requires MemOk(log, mt, imm, applied, cuts) && k < |cuts|
    ensures cuts[0] <= cuts[k]
  {
    if k > 0 {
      CutsFrom(log, mt, imm, applied, cuts, k - 1);
      assert HoldsSpan(imm[k - 1], log, cuts[k - 1], cuts[(k - 1) + 1]);
    }
  }

  lemma TrackStep(states: seq<State>, i: nat, n: nat, oldest: nat, u: Witness, w: Witness)
    requires i < n < |states| && u.cuts != [] && w.cuts != [] && Tracked(states, i, n - 1, oldest, u)
    requires Advances(states[n - 1], u, states[n], w) && states[n].mode != Replaying
    requires Base(states[n - 1].flusher, u.cuts) <= states[n - 1].applied
    ensures Tracked(states, i, n, oldest, w)
  {
    forall x | WasApplied(states, i, n - 1, x) ensures WasApplied(states, i, n, x) {}
    assert WasApplied(states, i, n, states[n - 1].applied);
    assert Base(states[n].flusher, w.cuts) in w.cuts;
  }

  /** Unless a compaction ends, the tables gain exactly the log they advance by. */
  lemma {:induction false} TablesTrack(states: seq<State>, steps: seq<Step>, ws: seq<Witness>, i: nat, n: nat)
    requires IsRun(states, steps) && Linked(states, steps, ws, true) && i <= n < |ws|
    requires forall k :: i <= k < n ==> !steps[k].Crash? && !steps[k].CompactFinish?
    ensures Gained(states[i], ws[i], states[n], ws[n])
  {
    hide Inv, Enabled, After, Advances, Grows, Gained;
    if i == n {
      GainedNothing(states[i], ws[i]);
    } else {
      TablesTrack(states, steps, ws, i, n - 1);
      assert Enabled(states[n - 1], steps[n - 1]) && states[(n - 1) + 1] == After(states[n - 1], steps[n - 1]);
      assert Link(states[n - 1], ws[n - 1], steps[n - 1], states[(n - 1) + 1], ws[(n - 1) + 1]);
      StepLog(states[n - 1], steps[n - 1]);
      GainedMore(states[i], ws[i], states[n - 1], ws[n - 1], states[n], ws[n]);
    }
  }

  ghost predicate Gained(s: State, w: Witness, s': State, w': Witness)
    requires w.cuts != [] && w'.cuts != []
  {
    var b, b' := Base(s.flusher, w.cuts), Base(s'.flusher, w'.cuts);
    b <= b' <= |s'.log| && InTables(s'.tables) == InTables(s.tables) + Span(s'.log, b, b')
  }

  lemma GainedNothing(s: State, w: Witness)
    requires Inv(s, w, true) && w.cuts != []
    ensures Gained(s, w, s, w)
  {
    hide Inv, InTables, Covers, Span;
    TablesCover(s, w, true);
    CoversIn(InTables(s.tables), s.log, Base(s.flusher, w.cuts), w.hi);
    SpanEmpty(s.log, Base(s.flusher, w.cuts));
  }

  lemma GainedMore(s: State, w: Witness, t: State, u: Witness, s': State, w': Witness)
    requires w.cuts != [] && u.cuts != [] && w'.cuts != [] && Gained(s, w, t, u) && Grows(t, u, s', w')
    requires t.log <= s'.log
    ensures Gained(s, w, s', w')
  {
    hide InTables, Span;
    var b, c, b' := Base(s.flusher, w.cuts), Base(t.flusher, u.cuts), Base(s'.flusher, w'.cuts);
    assert s'.log == t.log + s'.log[|t.log|..];
    SpanPrefix(t.log, s'.log[|t.log|..], b, c);
    if c < b' { SpanPrefix(t.log, s'.log[|t.log|..], c, b'); SpanJoin(s'.log, b, c, b'); }
  }

  /** A read that takes its memtables at one moment and its tables at a later one answers with what the
      applied log showed at some moment in between. */
  lemma TwoLocks(states: seq<State>, steps: seq<Step>, i: nat, j: nat, user: Bytes, v: nat, r: Option<Entry>)
    requires IsRun(states, steps) && CleanRotations(states, steps) && i <= j < |states| && states[i].mode != Replaying
    requires (forall k :: i <= k < j ==> !steps[k].Crash?) && user != [] && v <= MAX_UINT64
    requires forall e :: e in states[j].log ==> Ts(e) <= v
    requires SearchAnswer(Newest(states[i].mt, states[i].imm), InTables(states[j].tables), user, v, r)
    ensures exists k :: i <= k <= j && ShownAt(states[k], user, r)
  {
    hide Inv, Newest, InTables, IsAnswer, MemGet, Stored, ShownAt, InRuns, Linked, Tracked;
    LogGrows(states, steps, i, j);
    var s, t := states[i], states[j];
    var mts, key := Newest(s.mt, s.imm), KeyWithTs(user, v);
    ServingLayered(states, steps, i); CleanIsSafe(states, steps);
    NewestAll(s);
    assert forall e :: e in s.log ==> e in t.log;
    if MemGet(mts, key).Some? {
      SearchRight(mts, InTables(s.tables), user, v, r);
      assert ShownAt(s, user, r) by { ReadsShowLog(states, steps, i, user, v, r); ShownMeans(s, user, r); }
    } else {
      var ws := RunLinked(states, steps, j, true);
      LinkedAt(states, steps, ws, i); LinkedAt(states, steps, ws, j);
      Track(states, steps, ws, i, j);
      MissedInMems(s, ws[i], user, v, true);
      assert forall p :: ws[i].cuts[0] <= p < s.applied ==> s.log[p] in s.log;
      var k := MissAnswer(states, steps, i, j, ws[i], ws[j], user, v, r, true);
    }
  }

  lemma LinkedAt(states: seq<State>, steps: seq<Step>, ws: seq<Witness>, k: nat)
    requires |states| == |steps| + 1 && Linked(states, steps, ws, true) && k < |ws|
    ensures |ws| <= |states| && Inv(states[k], ws[k], true) && ws[k].cuts != []
  {
  }

  /** For any version, as long as no compaction ends in between, such a read answers what one that took
      both at some moment in between would answer. */
  lemma TwoLocksAnyVersion(states: seq<State>, steps: seq<Step>, i: nat, j: nat, user: Bytes, v: nat,
                           r: Option<Entry>)
    requires IsRun(states, steps) && CleanRotations(states, steps) && i <= j < |states| && states[i].mode != Replaying
    requires forall k :: i <= k < j ==> !steps[k].Crash? && !steps[k].CompactFinish?
    requires user != [] && v <= MAX_UINT64
    requires SearchAnswer(Newest(states[i].mt, states[i].imm), InTables(states[j].tables), user, v, r)
    ensures exists k :: i <= k <= j && IsAnswer(Stored(states[k]), user, v, r)
  {
    hide Inv, Newest, InTables, IsAnswer, MemGet, Stored, InRuns, Linked, Tracked, Gained;
    var s := states[i];
    var mts, key := Newest(s.mt, s.imm), KeyWithTs(user, v);
    ServingLayered(states, steps, i);
    NewestAll(s);
    if MemGet(mts, key).Some? {
      SearchRight(mts, InTables(s.tables), user, v, r);
    } else {
      var ws := RunLinked(states, steps, j, true);
      LinkedAt(states, steps, ws, i); LinkedAt(states, steps, ws, j);
      Track(states, steps, ws, i, j); TablesTrack(states, steps, ws, i, j);
      MissedInMems(s, ws[i], user, v, true);
      var k := MissAnyVersion(states, steps, ws, i, j, user, v, r);
    }
  }

  /** The read behaves as at the last moment whose log the tables end with, or as at moment i. */
  lemma MissAnyVersion(states: seq<State>, steps: seq<Step>, ws: seq<Witness>, i: nat, j: nat, user: Bytes, v: nat,
                       r: Option<Entry>) returns (k: nat)
    requires IsRun(states, steps) && Linked(states, steps, ws, true) && i <= j < |ws|
    requires forall k :: i <= k < j ==> !steps[k].Crash? && !steps[k].CompactFinish?
    requires ws[i].cuts != [] && ws[j].cuts != [] && Tracked(states, i, j, ws[i].cuts[0], ws[j])
    requires Gained(states[i], ws[i], states[j], ws[j])
    requires states[i].mode != Replaying && states[i].applied <= |states[i].log|
    requires Unseen(states[i], ws[i], user, v) && IsAnswer(InTables(states[j].tables), user, v, r)
    ensures i <= k <= j && IsAnswer(Stored(states[k]), user, v, r)
  {
    hide Inv, InTables, IsAnswer, Stored, Linked, Gained, Unseen;
    LinkedAt(states, steps, ws, j); TablesCover(states[j], ws[j], true);
    if ws[j].hi <= states[i].applied {
      k := i;
    } else {
      k :| i <= k <= j && states[k].applied == ws[j].hi && states[k].mode != Replaying;
    }
    LinkedAt(states, steps, ws, k); LinkedAt(states, steps, ws, i);
    Track(states, steps, ws, i, k); TablesTrack(states, steps, ws, i, k);
    LogGrows(states, steps, i, k); LogGrows(states, steps, k, j);
    OldestCut(states, i, k, ws[i].cuts[0], ws[k]);
    SameAnswers(states[i], ws[i], states[k], ws[k], states[j], ws[j], user, v, r);
  }

  lemma OldestCut(states: seq<State>, i: nat, n: nat, oldest: nat, w: Witness)
    requires i <= n < |states| && w.cuts != [] && Tracked(states, i, n, oldest, w)
    ensures oldest <= w.cuts[0]
  {
    assert w.cuts[0] in w.cuts;
  }

  /** The memtables of the state hold no version of the key up to v. */
  ghost predicate Unseen(s: State, w: Witness, user: Bytes, v: nat)
    requires w.cuts != [] && s.applied <= |s.log|
  {
    forall k :: w.cuts[0] <= k < s.applied && User(s.log[k]) == user ==> Ts(s.log[k]) > v
  }

  /** The tables of t and everything stored in s hold the same versions of the key up to v. */
  lemma SameAnswers(o: State, x: Witness, s: State, w: Witness, t: State, u: Witness, user: Bytes, v: nat,
                    r: Option<Entry>)
    requires Inv(o, x, true) && Inv(s, w, true) && x.cuts != [] && w.cuts != [] && u.cuts != []
    requires Gained(o, x, s, w) && Gained(o, x, t, u) && o.log <= s.log <= t.log && x.cuts[0] <= w.cuts[0]
    requires o.applied <= |o.log| && Unseen(o, x, user, v) && IsAnswer(InTables(t.tables), user, v, r)
    requires var b := Base(t.flusher, u.cuts); (b <= o.applied && s.applied <= o.applied) || b == s.applied
    ensures IsAnswer(Stored(s), user, v, r)
  {
    hide Inv, InTables, InRuns, MemOk, Span, Unseen, IsAnswer;
    MemShape(s, w, true); BaseAfter(s, w, true); BaseAfter(o, x, true);
    MemSpan(s.log, s.mt, s.imm, s.applied, w.cuts, 0);
    assert s.imm[0..] == s.imm;
    var bo, bs, bt := Base(o.flusher, x.cuts), Base(s.flusher, w.cuts), Base(t.flusher, u.cuts);
    assert t.log == s.log + t.log[|s.log|..];
    SpanPrefix(s.log, t.log[|s.log|..], bo, bs); SpanPrefix(s.log, t.log[|s.log|..], w.cuts[0], s.applied);
    UnseenLater(o, x, t.log, user, v);
    forall e | User(e) == user && Ts(e) <= v ensures e in InTables(t.tables) <==> e in Stored(s) {
      SameVersion(t.log, x.cuts[0], bo, o.applied, w.cuts[0], bs, s.applied, bt, user, v, e);
    }
    SameAnswer(InTables(t.tables), Stored(s), user, v, r);
  }

  lemma UnseenLater(s: State, w: Witness, log: seq<Entry>, user: Bytes, v: nat)
    requires w.cuts != [] && s.applied <= |s.log| && s.log <= log && Unseen(s, w, user, v)
    ensures forall k :: w.cuts[0] <= k < s.applied && User(log[k]) == user ==> Ts(log[k]) > v
  {
    assert forall k :: 0 <= k < |s.log| ==> log[k] == s.log[k];
  }

  /** What the tables gain is stored at the moment too, and what the memtables then repeat is newer than v. */
  lemma SameVersion(log: seq<Entry>, co: nat, bo: nat, ao: nat, cs: nat, bs: nat, at: nat, bt: nat, user: Bytes,
                    v: nat, e: Entry)
    requires co <= bo <= ao && co <= cs <= bs <= at <= |log| && bo <= bs && bo <= bt <= |log| && ao <= |log|
    requires forall k :: co <= k < ao && User(log[k]) == user ==> Ts(log[k]) > v
    requires (bt <= ao && at <= ao) || bt == at
    requires User(e) == user && Ts(e) <= v
    ensures e in Span(log, bo, bt) <==> e in Span(log, bo, bs) + Span(log, cs, at)
  {
    if e in Span(log, bo, bt) {
      var p: nat :| bo <= p < bt && log[p] == e;
      if p < bs { InSpan(log, bo, bs, p); } else { InSpan(log, cs, at, p); }
    }
    if e in Span(log, bo, bs) {
      var p: nat :| bo <= p < bs && log[p] == e;
      InSpan(log, bo, bt, p);
    }
    if e in Span(log, cs, at) {
      var p: nat :| cs <= p < at && log[p] == e;
      InSpan(log, bo, bt, p);
    }
  }

  lemma SameAnswer(s: set<Entry>, t: set<Entry>, user: Bytes, v: nat, r: Option<Entry>)
    requires IsAnswer(s, user, v, r) && forall e :: User(e) == user && Ts(e) <= v ==> (e in s <==> e in t)
    ensures IsAnswer(t, user, v, r)
  {
  }

  /** r is what the applied log of the state shows under the key. */
  ghost predicate ShownAt(s: State, user: Bytes, r: Option<Entry>)
  {
    s.applied <= |s.log| &&
    forall e :: User(e) == user ==> (Shows(Span(s.log, 0, s.applied), e) <==> r == Some(e) && !Tomb(e))
  }

  lemma ShownMeans(s: State, user: Bytes, r: Option<Entry>)
    requires s.applied <= |s.log|
    requires forall e :: User(e) == user ==> (Shows(Span(s.log, 0, s.applied), e) <==> r == Some(e) && !Tomb(e))
    ensures ShownAt(s, user, r)
  {
  }

  /** A miss in all memtables means that the log they hold has no version of the key up to v. */
  lemma MissedInMems(s: State, w: Witness, user: Bytes, v: nat, strict: bool)
    requires Inv(s, w, strict) && s.mode != Replaying && user != [] && v <= MAX_UINT64 && w.cuts != []
    requires MemGet(Newest(s.mt, s.imm), KeyWithTs(user, v)) == None
    requires KeysOk(Stored(s)) && forall m :: m in Newest(s.mt, s.imm) ==> Sorted(m)
    ensures s.applied <= |s.log| && Unseen(s, w, user, v)
  {
    hide Inv, MemGet, Lookup, KeyWithTs, InTables, MemOk, Sorted;
    var mts := Newest(s.mt, s.imm);
    MemShape(s, w, strict);
    MemSpan(s.log, s.mt, s.imm, s.applied, w.cuts, 0);
    NewestAll(s); NewestFrom(s.mt, s.imm, |s.imm|);
    assert s.imm[0..] == s.imm && mts[..|s.imm| + 1] == mts;
    NoneMissed(mts, KeyWithTs(user, v));
    MemMiss(mts, user, v);
    forall k | w.cuts[0] <= k < s.applied && User(s.log[k]) == user ensures Ts(s.log[k]) > v {
      InSpan(s.log, w.cuts[0], s.applied, k);
      assert s.log[k] in InRuns(mts);
    }
  }

  lemma {:induction false} NoneMissed(mts: seq<Run>, key: Key)
    requires MemGet(mts, key) == None
    ensures forall j :: 0 <= j < |mts| ==> Lookup(mts[j], key) == None
  {
    hide Lookup;
    if mts != [] {
      NoneMissed(mts[1..], key);
      forall j | 0 <= j < |mts| ensures Lookup(mts[j], key) == None { if j > 0 { assert mts[j] == mts[1..][j - 1]; } }
    }
  }

  /** Then the tables alone show what the log showed up to their end. */
  lemma MissAnswer(states: seq<State>, steps: seq<Step>, i: nat, j: nat, x: Witness, w: Witness, user: Bytes, v: nat,
                   r: Option<Entry>, strict: bool) returns (k: nat)
    requires IsRun(states, steps) && i <= j < |states| && states[i].log <= states[j].log
    requires Inv(states[i], x, strict) && Inv(states[j], w, strict) && x.cuts != [] && w.cuts != [] &&
             Tracked(states, i, j, x.cuts[0], w)
    requires states[i].applied <= |states[i].log| && states[i].mode != Replaying
    requires forall p :: x.cuts[0] <= p < states[i].applied ==> User(states[i].log[p]) != user
    requires (forall e :: e in states[j].log ==> Ts(e) <= v) && IsAnswer(InTables(states[j].tables), user, v, r)
    ensures i <= k <= j && ShownAt(states[k], user, r)
  {
    hide Inv, IsAnswer, InTables, Base;
    var t, a := states[j], states[i].applied;
    var b := Base(t.flusher, w.cuts);
    TablesCover(t, w, strict);
    if w.hi <= a {
      k := i;
      forall p | b <= p < a ensures User(t.log[p]) != user { assert t.log[p] == states[i].log[p]; }
      TablesShow(t.log, InTables(t.tables), b, w.hi, a, user, v, r);
      SamePrefix(states[i].log, t.log, a);
    } else {
      k :| i <= k <= j && states[k].applied == w.hi && states[k].mode != Replaying;
      TablesShow(t.log, InTables(t.tables), b, w.hi, w.hi, user, v, r);
      LogGrows(states, steps, k, j);
      AppliedBound(states, steps, k);
      SamePrefix(states[k].log, t.log, w.hi);
    }
  }

  lemma {:induction false} AppliedBound(states: seq<State>, steps: seq<Step>, n: nat)
    requires IsRun(states, steps) && n < |states|
    ensures states[n].applied <= |states[n].log|
  {
    if n > 0 {
      AppliedBound(states, steps, n - 1);
      assert Enabled(states[n - 1], steps[n - 1]) && states[(n - 1) + 1] == After(states[n - 1], steps[n - 1]);
    }
  }

  lemma SamePrefix(a: seq<Entry>, b: seq<Entry>, n: nat)
    requires a <= b && n <= |a|
    ensures Span(a, 0, n) == Span(b, 0, n)
  {
    assert b == a + b[|a|..];
    SpanPrefix(a, b[|a|..], 0, n);
  }

  lemma TablesCover(s: State, w: Witness, strict: bool)
    requires Inv(s, w, strict) && w.cuts != []
    ensures Covers(InTables(s.tables), s.log, Base(s.flusher, w.cuts), w.hi) && Distinct(s.log)
  {
    hide Order, Covers, Parts, MemOk, CompactionOk;
  }

  /** A set that covers the log up to q from p on shows the key as the log does, when the key does not
      occur between p and n. */
  lemma TablesShow(log: seq<Entry>, t: set<Entry>, p: nat, q: nat, n: nat, user: Bytes, v: nat, r: Option<Entry>)
    requires Covers(t, log, p, q) && q <= n <= |log| && Distinct(log)
    requires forall k :: p <= k < n ==> User(log[k]) != user
    requires (forall e :: e in log ==> Ts(e) <= v) && IsAnswer(t, user, v, r)
    ensures forall e :: User(e) == user ==> (Shows(Span(log, 0, n), e) <==> r == Some(e) && !Tomb(e))
  {
    hide IsAnswer;
    OneVersionPerTs(log, q);
    assert forall e :: e in Span(log, 0, q) ==> e in log;
    AnswerShows(t, user, v, r);
    SpanJoin(log, 0, q, n);
    forall e | User(e) == user ensures Shows(Span(log, 0, n), e) <==> Shows(t, e) {
      assert Shows(t + Span(log, p, q), e) <==> Shows(Span(log, 0, q), e);
    }
  }

  // ---------- range scans ----------

  /** The inputs of a scan: memtables newest first, then tables from the last to the first. */
  function ScanInputs(s: State): seq<Run> { Newest(s.mt, s.imm) + Backward(s.tables) }

  function Backward(ts: seq<Table>): seq<Run> { seq(|ts|, i requires 0 <= i < |ts| => ts[|ts| - 1 - i].run) }

  lemma InBackward(ts: seq<Table>)
    ensures InRuns(Backward(ts)) == InTables(ts)
  {
    var rs := Backward(ts);
    forall e ensures e in InRuns(rs) <==> e in InTables(ts) {
      if e in InRuns(rs) { var i :| 0 <= i < |rs| && e in rs[i]; assert e in ts[|ts| - 1 - i].run; }
      if e in InTables(ts) { var i :| 0 <= i < |ts| && e in ts[i].run; assert e in rs[|ts| - 1 - i]; }
    }
  }

  lemma ScanInputsHold(s: State)
    ensures InRuns(ScanInputs(s)) == Stored(s)
  {
    hide Newest, Backward, InRuns, InTables, Stored;
    InRunsAppend(Newest(s.mt, s.imm), Backward(s.tables));
    NewestAll(s);
    InBackward(s.tables);
  }

  /** While serving, the merge a scan walks holds exactly what is stored, sorted and fit to be scanned. */
  lemma ScanMerge(states: seq<State>, steps: seq<Step>, n: nat, m: Run)
    requires IsRun(states, steps) && SafeRotations(states, steps) && n < |states| && states[n].mode != Replaying
    requires IsMerge(false, ScanInputs(states[n]), m) && Covered(states[n])
    ensures Store(m, states[n].seqNumber) && Elements(m) == Stored(states[n])
  {
    hide Inv, Sorted, IsMerge, ScanInputs, Stored;
    var s := states[n];
    var w := RunInv(states, steps, n, false);
    ScanInputsHold(s);
    StoredEntries(s, w, false);
    MergeOfRuns(ScanInputs(s), m);
    forall e | e in m ensures |e.key| > 8 && e.vs.expiresAt == 0 && Ts(e) <= s.seqNumber { assert e in Elements(m); }
  }

  lemma StoredEntries(s: State, w: Witness, strict: bool)
    requires Inv(s, w, strict) && s.mode != Replaying && Covered(s)
    ensures Consistent(Stored(s))
    ensures forall e :: e in Stored(s) ==> |e.key| > 8 && e.vs.expiresAt == 0 && Ts(e) <= s.seqNumber
  {
    hide Order, MemOk, TablesOk, CompactionOk, VptrOk, CutsOk, Parts, Stored;
    StoredInLog(s, w, strict);
    LogConsistent(s.log, 0, s.applied);
  }

  /** A range request while serving, whatever its limit, answers right over what is stored. The keys it may list
      are those in range whose newest stored version is live; r is what a Get of the latest version answers whenever
      the layers it searches are in order. */
  lemma RangeFindsWhatGetFinds(states: seq<State>, steps: seq<Step>, n: nat, m: Run, prefix: Bytes, start: Bytes,
                               limit: nat, out: seq<Bytes>, now: nat)
    requires IsRun(states, steps) && SafeRotations(states, steps) && n < |states| && states[n].mode != Replaying
    requires IsMerge(false, ScanInputs(states[n]), m) && Covered(states[n]) && states[n].seqNumber <= MAX_UINT64
    requires Reaches(prefix, start)
    requires FirstOf(out, ScanFrom(Drop(false, m, KeyWithTs(start, states[n].seqNumber)), prefix, [], now), limit)
    ensures RangeAnswer(out, Stored(states[n]), prefix, start, limit)
    ensures forall u, r :: IsAnswer(Stored(states[n]), u, states[n].seqNumber, r) ==>
              (Listed(Stored(states[n]), prefix, start, u) <==>
               prefix <= u && Compare(start, u) <= 0 && r.Some? && !Tomb(r.value))
  {
    hide Inv, ScanInputs, Stored, ScanFrom, Drop, KeyWithTs, IsMerge, Sorted;
    var s := states[n];
    ScanMerge(states, steps, n, m);
    RangeIsLiveScan(m, prefix, start, s.seqNumber, now);
    FirstOfList(out, ScanFrom(Drop(false, m, KeyWithTs(start, s.seqNumber)), prefix, [], now), Stored(s), prefix, start,
                limit);
    var w := RunInv(states, steps, n, false);
    StoredEntries(s, w, false);
    forall u, r | IsAnswer(Stored(s), u, s.seqNumber, r)
      ensures (exists e :: Shows(Stored(s), e) && User(e) == u) <==> r.Some? && !Tomb(r.value)
    {
      OnePerStamp(Stored(s));
      AnswerShows(Stored(s), u, s.seqNumber, r);
    }
  }

  lemma OnePerStamp(s: set<Entry>)
    requires Consistent(s) && forall e :: e in s ==> |e.key| > 8
    ensures forall e, f :: e in s && f in s && User(e) == User(f) && Ts(e) == Ts(f) ==> e == f
  {
    forall e, f | e in s && f in s && User(e) == User(f) && Ts(e) == Ts(f) ensures e == f {
      KeyRebuild(e.key); KeyRebuild(f.key);
    }
  }
}
