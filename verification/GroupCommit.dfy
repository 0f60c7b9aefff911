/** Operations sharing one log transaction, as a machine whose steps are begin_op, log_write,
    end_op, the single block writes of commit and of recovery, and a crash at any moment. */
module GroupCommit {
  import opened Blocks
  import opened Journal
  import opened Log

  datatype Phase =
    | Running
    | Committing(base: Disk, done: nat)   // base: the disk when commit began; done: writes issued
    | Recovering(from: Disk, done: nat)   // from: the disk when recovery began

  /** ops holds, for every active operation, how many blocks it has added to the log; over says
      that one of the running group has added more than begin_op reserved for it. view is what
      readers of the cache see. past and open list the block updates of committed groups and of
      the group now running. */
  datatype State = State(l: Layout, disk: Disk, view: Disk, lh: seq<nat>, ops: seq<nat>, over: bool, phase: Phase, past: seq<Write>, open: seq<Write>)

  datatype Step =
    | Begin
    | LogBlock(op: nat, b: nat, data: Block)
    | End(op: nat)
    | CommitWrite
    | CommitDone
    | Crash
    | RecoverWrite
    | RecoverDone

  predicate Shaped(s: State) {
    && GoodHead(s.l, s.disk) && |s.view| == |s.disk| && GoodEntries(s.l, s.view, s.lh)
    && (s.phase.Committing? ==> |s.phase.base| == |s.disk| && s.phase.done <= |CommitWrites(s.l, s.view, s.lh)|)
    && (s.phase.Recovering? ==> |s.phase.from| == |s.disk| && GoodHead(s.l, s.phase.from) && s.phase.done <= |RecoveryWrites(s.l, s.phase.from)|)
  }

  // log_write refuses when the list or the log area is full.
  predicate GuardPasses(s: State) {
    |s.lh| < LOGSIZE && |s.lh| < s.l.size - 1
  }

  /** When a step may happen. */
  predicate Enabled(s: State, st: Step) {
    Shaped(s) && match st
      case Begin => s.phase.Running? && Admits(|s.lh|, |s.ops|)
      case LogBlock(op, b, _) => s.phase.Running? && op < |s.ops| && IsHome(s.l, s.disk, b) && GuardPasses(s)
      case End(op) => s.phase.Running? && op < |s.ops|
      case CommitWrite => s.phase.Committing? && s.phase.done < |CommitWrites(s.l, s.view, s.lh)|
      case CommitDone => s.phase.Committing? && s.phase.done == |CommitWrites(s.l, s.view, s.lh)|
      case Crash => true
      case RecoverWrite => s.phase.Recovering? && s.phase.done < |RecoveryWrites(s.l, s.phase.from)|
      case RecoverDone => s.phase.Recovering? && s.phase.done == |RecoveryWrites(s.l, s.phase.from)|
  }

  function Put(d: Disk, w: Write): Disk {
    if w.at < |d| then d[w.at := w.data] else d
  }

  function Do(s: State, st: Step): State
    requires Enabled(s, st)
  {
    match st
    case Begin => s.(ops := s.ops + [0])
    case LogBlock(op, b, data) =>
      s.(view := s.view[b := data], lh := Absorb(s.lh, b), open := s.open + [Write(b, data)],
         ops := if b in s.lh then s.ops else s.ops[op := s.ops[op] + 1],
         over := s.over || (b !in s.lh && s.ops[op] >= MAXOPBLOCKS))
    case End(op) =>
      var rest := s.ops[..op] + s.ops[op+1..];
      s.(ops := rest, phase := if rest == [] then Committing(s.disk, 0) else Running)
    case CommitWrite =>
      var s' := s.(disk := Put(s.disk, CommitWrites(s.l, s.view, s.lh)[s.phase.done]), phase := Committing(s.phase.base, s.phase.done + 1));
      // the header write is the point at which the group commits
      if s.phase.done == |s.lh| then s'.(past := s.past + s.open, open := []) else s'
    case CommitDone => s.(lh := [], over := false, phase := Running, view := s.view[s.l.start := s.disk[s.l.start]])
    case Crash => s.(phase := Recovering(s.disk, 0), lh := [], ops := [], over := false, open := [], view := s.disk)
    case RecoverWrite =>
      s.(disk := Put(s.disk, RecoveryWrites(s.l, s.phase.from)[s.phase.done]), phase := Recovering(s.phase.from, s.phase.done + 1))
    case RecoverDone => s.(phase := Running, view := s.disk)
  }

  // Blocks that active operations may still add.
  function Unused(ops: seq<nat>): int {
    if ops == [] then 0 else Unused(ops[1..]) + MAXOPBLOCKS - ops[0]
  }

  ghost predicate Fresh(s: State) {
    Shaped(s) && s.phase.Running? && HeadCount(s.disk[s.l.start]) == 0 && s.view == s.disk && s.lh == [] && s.ops == [] && !s.over && s.past == [] && s.open == []
  }

  // The blocks of d outside the log are those of d0 after the updates ws.
  ghost predicate Holds(l: Layout, d0: Disk, ws: seq<Write>, d: Disk) {
    SameHome(l, d, Apply(d0, ws))
  }

  // Off the listed blocks, readers see d.
  ghost predicate ViewOver(s: State, d: Disk)
    requires Shaped(s)
  {
    |d| == |s.view| && s.view[s.l.start] == d[s.l.start]
    && forall b :: 0 <= b < |d| && !InLog(s.l, b) && b !in s.lh ==> s.view[b] == d[b]
  }

  ghost predicate InvRunning(d0: Disk, s: State)
    requires Shaped(s)
  {
    && HeadCount(s.disk[s.l.start]) == 0 && ViewOver(s, s.disk)
    && Holds(s.l, d0, s.past, s.disk) && Holds(s.l, d0, s.past + s.open, s.view)
    && (s.ops == [] ==> s.lh == []) && (s.lh == [] ==> s.open == [])
  }

  ghost predicate InvCommitting(d0: Disk, s: State)
    requires Shaped(s) && s.phase.Committing?
  {
    var base, done := s.phase.base, s.phase.done;
    && s.ops == [] && GoodHead(s.l, base) && HeadCount(base[s.l.start]) == 0 && ViewOver(s, base)
    && s.disk == Apply(base, CommitWrites(s.l, s.view, s.lh)[..done])
    && Holds(s.l, d0, s.past + s.open, s.view)
    && (done <= |s.lh| ==> Holds(s.l, d0, s.past, base))
    && (done > |s.lh| || s.lh == [] ==> s.open == [])
  }

  ghost predicate InvRecovering(d0: Disk, s: State)
    requires Shaped(s) && s.phase.Recovering?
  {
    && s.lh == [] && s.ops == [] && s.open == []
    && s.disk == Apply(s.phase.from, RecoveryWrites(s.l, s.phase.from)[..s.phase.done])
    && Holds(s.l, d0, s.past, Recover(s.l, s.phase.from))
  }

  // The log space every active operation still counts on is there.
  ghost predicate Reserved(s: State) {
    (forall i :: 0 <= i < |s.ops| ==> s.ops[i] <= MAXOPBLOCKS) && |s.lh| + Unused(s.ops) <= LOGSIZE
  }

  /** The invariant: the three phases, and the reservations as long as every operation of the
      group keeps to its own. */
  ghost predicate Inv(d0: Disk, s: State) {
    && |d0| == |s.disk| && Shaped(s) && NoRepeat(s.lh)
    && (!s.over ==> Reserved(s))
    && match s.phase
       case Running => InvRunning(d0, s)
       case Committing(_, _) => InvCommitting(d0, s)
       case Recovering(_, _) => InvRecovering(d0, s)
  }

  lemma FreshInv(s: State)
    requires Fresh(s)
    ensures Inv(s.disk, s)
  {
  }

  lemma {:induction false} UnusedUpdate(ops: seq<nat>, i: nat, n: nat)
    requires i < |ops|
    ensures Unused(ops[i := n]) == Unused(ops) + ops[i] - n
    ensures Unused(ops[..i] + ops[i+1..]) == Unused(ops) - (MAXOPBLOCKS - ops[i])
  {
    if i == 0 {
      assert ops[0 := n][1..] == ops[1..] && ops[..0] + ops[1..] == ops[1..];
    } else {
      UnusedUpdate(ops[1..], i - 1, n);
      assert ops[i := n][1..] == ops[1..][i-1 := n];
      assert (ops[..i] + ops[i+1..])[1..] == ops[1..][..i-1] + ops[1..][i..];
    }
  }

  lemma {:induction false} UnusedAppend(ops: seq<nat>)
    ensures Unused(ops + [0]) == Unused(ops) + MAXOPBLOCKS
  {
    if ops != [] {
      UnusedAppend(ops[1..]);
      assert (ops + [0])[1..] == ops[1..] + [0];
    }
  }

  lemma {:induction false} UnusedBound(ops: seq<nat>)
    requires forall i :: 0 <= i < |ops| ==> ops[i] <= MAXOPBLOCKS
    ensures 0 <= Unused(ops) <= |ops| * MAXOPBLOCKS
    ensures forall i :: 0 <= i < |ops| ==> MAXOPBLOCKS - ops[i] <= Unused(ops)
  {
    if ops != [] {
      UnusedBound(ops[1..]);
      forall i | 0 <= i < |ops| ensures MAXOPBLOCKS - ops[i] <= Unused(ops) {
        if i > 0 {
          assert ops[i] == ops[1..][i-1];
        }
      }
    }
  }

  lemma BeginKeeps(d0: Disk, s: State)
    requires Inv(d0, s) && Enabled(s, Begin)
    ensures Inv(d0, Do(s, Begin))
  {
    UnusedAppend(s.ops);
    if !s.over {
      UnusedBound(s.ops);
    }
  }

  lemma LogBlockKeeps(d0: Disk, s: State, op: nat, b: nat, data: Block)
    requires Inv(d0, s) && Enabled(s, LogBlock(op, b, data))
    ensures Inv(d0, Do(s, LogBlock(op, b, data)))
  {
    var s' := Do(s, LogBlock(op, b, data));
    UnusedUpdate(s.ops, op, s.ops[op] + 1);
    assert s.past + s'.open == (s.past + s.open) + [Write(b, data)];
    ApplySnoc(d0, s.past + s.open, Write(b, data));
  }

  lemma EndKeeps(d0: Disk, s: State, op: nat)
    requires Inv(d0, s) && Enabled(s, End(op))
    ensures Inv(d0, Do(s, End(op)))
  {
    UnusedUpdate(s.ops, op, 0);
    if !s.over {
      UnusedBound(s.ops);
    }
    InstallNothing(s.disk);
    assert CommitWrites(s.l, s.view, s.lh)[..0] == [];
  }

  // Installing the listed blocks over the disk commit began with gives what readers see.
  lemma InstalledIsView(s: State, d: Disk)
    requires Shaped(s) && ViewOver(s, d)
    ensures SameHome(s.l, Apply(d, Installs(s.l, s.view, s.lh)), s.view)
  {
    var ws := Installs(s.l, s.view, s.lh);
    forall b | 0 <= b < |d| && !InLog(s.l, b) ensures At(ws, b, d[b]) == s.view[b] {
      if b in s.lh {
        var t :| 0 <= t < |s.lh| && s.lh[t] == b;
        assert ws[t].at == b;
        AtHit(ws, b, d[b], s.view[b]);
        InstallOwnAt(ws, s.view, b);
      } else {
        AtUntouched(ws, b, d[b]);
      }
    }
  }

  lemma CommitInRange(l: Layout, view: Disk, lh: seq<nat>, k: nat)
    requires Fits(l, view) && GoodEntries(l, view, lh) && k < |CommitWrites(l, view, lh)|
    ensures CommitWrites(l, view, lh)[k].at < |view|
  {
    var n := |lh|;
    if k < n {
      assert CommitWrites(l, view, lh)[k] == LogCopies(l, view, lh)[k];
    } else if n < k < 2 * n + 1 {
      assert CommitWrites(l, view, lh)[k] == Installs(l, view, lh)[k - n - 1];
    }
  }

  lemma CommitWriteKeeps(d0: Disk, s: State)
    requires Inv(d0, s) && Enabled(s, CommitWrite)
    ensures Inv(d0, Do(s, CommitWrite))
  {
    hide Apply, CommitWrites, EncodeHead, HeadCount, HeadBlocks;
    var ws, k, s' := CommitWrites(s.l, s.view, s.lh), s.phase.done, Do(s, CommitWrite);
    CommitInRange(s.l, s.view, s.lh, k);
    NextWrite(s.phase.base, [], ws, k);
    CrashInCommit(s.l, s.phase.base, s.view, s.lh, k + 1);
    assert s'.disk == Apply(s.phase.base, ws[..k+1]);
    assert k == |s.lh| ==> s'.past + s'.open == s.past + s.open;
    assert s.lh != [] by {
      CommitOfNothing(s.l, s.view, s.lh);
    }
  }

  lemma CommitOfNothing(l: Layout, view: Disk, lh: seq<nat>)
    requires Fits(l, view) && GoodEntries(l, view, lh)
    ensures lh == [] <==> CommitWrites(l, view, lh) == []
  {
  }

  lemma CommitDoneKeeps(d0: Disk, s: State)
    requires Inv(d0, s) && Enabled(s, CommitDone)
    ensures Inv(d0, Do(s, CommitDone))
  {
    hide Apply, CommitWrites, EncodeHead, HeadCount, HeadBlocks, Installs;
    var ws := CommitWrites(s.l, s.view, s.lh);
    CrashInCommit(s.l, s.phase.base, s.view, s.lh, |ws|);
    InstalledIsView(s, s.phase.base);
    assert s.open == [] by {
      if s.lh != [] {
        CommitLength(s.l, s.view, s.lh);
      }
    }
    assert s.past + s.open == s.past;
    assert ws[..|ws|] == ws;
  }

  lemma CommitLength(l: Layout, view: Disk, lh: seq<nat>)
    requires Fits(l, view) && GoodEntries(l, view, lh) && lh != []
    ensures |CommitWrites(l, view, lh)| == 2 * |lh| + 2
  {
  }

  /** Whatever was going on, the disk recovers to exactly the committed updates. */
  lemma RecoversPast(d0: Disk, s: State)
    requires Inv(d0, s)
    ensures Holds(s.l, d0, s.past, Recover(s.l, s.disk))
  {
    match s.phase {
      case Running => RecoverClean(s.l, s.disk);
      case Committing(base, done) =>
        CrashInCommit(s.l, base, s.view, s.lh, done);
        InstalledIsView(s, base);
        assert s.open == [] ==> s.past + s.open == s.past;
      case Recovering(from, done) => CrashInRecovery(s.l, from, done);
    }
  }

  lemma CrashKeeps(d0: Disk, s: State)
    requires Inv(d0, s)
    ensures Inv(d0, Do(s, Crash))
  {
    RecoversPast(d0, s);
    assert RecoveryWrites(s.l, s.disk)[..0] == [];
    InstallNothing(s.disk);
  }

  lemma RecoverWriteKeeps(d0: Disk, s: State)
    requires Inv(d0, s) && Enabled(s, RecoverWrite)
    ensures Inv(d0, Do(s, RecoverWrite))
  {
    hide Apply, EncodeHead, HeadCount, HeadBlocks, Recover;
    var ws, k := RecoveryWrites(s.l, s.phase.from), s.phase.done;
    assert ws[k].at < |s.disk|;
    NextWrite(s.phase.from, [], ws, k);
    CrashInRecovery(s.l, s.phase.from, k + 1);
  }

  lemma RecoverDoneKeeps(d0: Disk, s: State)
    requires Inv(d0, s) && Enabled(s, RecoverDone)
    ensures Inv(d0, Do(s, RecoverDone))
  {
    var ws := RecoveryWrites(s.l, s.phase.from);
    assert ws[..|ws|] == ws;
    RecoverMeaning(s.l, s.phase.from);
    assert s.past + s.open == s.past;
  }

  lemma StepKeeps(d0: Disk, s: State, st: Step)
    requires Inv(d0, s) && Enabled(s, st)
    ensures Inv(d0, Do(s, st))
  {
    match st
    case Begin => BeginKeeps(d0, s);
    case LogBlock(op, b, data) => LogBlockKeeps(d0, s, op, b, data);
    case End(op) => EndKeeps(d0, s, op);
    case CommitWrite => CommitWriteKeeps(d0, s);
    case CommitDone => CommitDoneKeeps(d0, s);
    case Crash => CrashKeeps(d0, s);
    case RecoverWrite => RecoverWriteKeeps(d0, s);
    case RecoverDone => RecoverDoneKeeps(d0, s);
  }

  /* Whole runs. */

  ghost predicate Moves(s: State, st: Step, s': State) {
    Enabled(s, st) && s' == Do(s, st)
  }

  ghost predicate IsRun(ss: seq<State>, sts: seq<Step>) {
    && |ss| == |sts| + 1 && Fresh(ss[0])
    && forall i {:trigger sts[i]} :: 0 <= i < |sts| ==> Moves(ss[i], sts[i], ss[i+1])
  }

  ghost predicate Reachable(s0: State, s: State) {
    exists ss, sts :: IsRun(ss, sts) && ss[0] == s0 && ss[|sts|] == s
  }

  lemma {:induction false} RunInv(ss: seq<State>, sts: seq<Step>)
    requires IsRun(ss, sts)
    ensures Inv(ss[0].disk, ss[|sts|]) && ss[|sts|].l == ss[0].l
  {
    if sts == [] {
      FreshInv(ss[0]);
    } else {
      var n := |sts| - 1;
      RunInv(ss[..n+1], sts[..n]);
      assert Moves(ss[n], sts[n], ss[n+1]);
      StepKeeps(ss[0].disk, ss[n], sts[n]);
    }
  }

  /** Crash safety over every run, crashes and interrupted recoveries included: stopped in any
      reachable state, the machine recovers to the initial home blocks with the updates of
      exactly the committed groups applied, in order. */
  lemma EveryCrashRecovers(s0: State, s: State)
    requires Reachable(s0, s)
    ensures GoodHead(s0.l, s.disk)
    ensures Holds(s0.l, s0.disk, s.past, Recover(s0.l, s.disk)) && HeadCount(Recover(s0.l, s.disk)[s0.l.start]) == 0
  {
    var ss, sts :| IsRun(ss, sts) && ss[0] == s0 && ss[|sts|] == s;
    RunInv(ss, sts);
    RecoversPast(s0.disk, s);
    RecoverMeaning(s0.l, s.disk);
  }

  /** An update becomes durable only together with every other one of its group, by the
      header write, and at that moment no operation is active. */
  lemma GroupsAreWhole(s0: State, s: State, st: Step)
    requires Reachable(s0, s) && Enabled(s, st)
    ensures var s' := Do(s, st);
      s'.past == s.past || (st.CommitWrite? && s.ops == [] && s'.past == s.past + s.open && s'.open == [])
  {
    var ss, sts :| IsRun(ss, sts) && ss[0] == s0 && ss[|sts|] == s;
    RunInv(ss, sts);
  }

  /** Reservations: while every operation of the group keeps to its share, one that has blocks of
      it left finds room in the list; with no active operation and no commit the list is empty, so
      begin_op is admitted at once; during a commit nobody is active and only commit's own steps,
      or a crash, can happen. */
  lemma Reservations(s0: State, s: State)
    requires Reachable(s0, s)
    ensures !s.over ==> |s.lh| + Unused(s.ops) <= LOGSIZE && forall op :: 0 <= op < |s.ops| && s.ops[op] < MAXOPBLOCKS ==> |s.lh| < LOGSIZE
    ensures s.phase.Running? && s.ops == [] ==> s.lh == [] && Enabled(s, Begin)
    ensures s.phase.Committing? ==> s.ops == [] && forall st :: Enabled(s, st) ==> st in {CommitWrite, CommitDone, Crash}
    ensures s.phase.Committing? && Enabled(s, CommitWrite) ==> Do(s, CommitWrite).lh == s.lh
  {
    var ss, sts :| IsRun(ss, sts) && ss[0] == s0 && ss[|sts|] == s;
    RunInv(ss, sts);
    if !s.over {
      UnusedBound(s.ops);
    }
  }

  lemma ReachStep(s0: State, s: State, st: Step)
    requires Reachable(s0, s) && Enabled(s, st)
    ensures Reachable(s0, Do(s, st))
  {
    var ss, sts :| IsRun(ss, sts) && ss[0] == s0 && ss[|sts|] == s;
    var ss', sts' := ss + [Do(s, st)], sts + [st];
    assert IsRun(ss', sts') && ss'[0] == s0 && ss'[|sts'|] == Do(s, st);
  }

  // What three operations have added once k blocks are logged, each filling up in turn.
  function Shares(k: nat): seq<nat>
    requires k <= LOGSIZE
  {
    [if k < 10 then k else 10, if k < 10 then 0 else if k < 20 then k - 10 else 10, if k < 20 then 0 else k - 20]
  }

  lemma ThreeBegin(s0: State)
    requires Fresh(s0)
    ensures Reachable(s0, s0.(ops := [0, 0, 0]))
  {
    var none: seq<Step> := [];
    assert IsRun([s0], none) && [s0][0] == s0 && [s0][|none|] == s0;
    ReachStep(s0, s0, Begin);
    var s1 := s0.(ops := [0]);
    assert s1 == Do(s0, Begin);
    ReachStep(s0, s1, Begin);
    var s2 := s0.(ops := [0, 0]);
    assert s2 == Do(s1, Begin);
    ReachStep(s0, s2, Begin);
    assert s0.(ops := [0, 0, 0]) == Do(s2, Begin);
  }

  // The k-th block used below: blocks behind the log area.
  function Spare(l: Layout, k: nat): nat {
    l.start + l.size + k
  }

  // The state after the operations have logged k blocks.
  function Filled(s0: State, k: nat): State
    requires k <= LOGSIZE
  {
    if k == 0 then s0.(ops := [0, 0, 0])
    else
      var p, b := Filled(s0, k - 1), Spare(s0.l, k - 1);
      p.(ops := Shares(k), lh := p.lh + [b], view := if b < |p.view| then p.view[b := ZeroBlock()] else p.view, open := p.open + [Write(b, ZeroBlock())])
  }

  // Room behind the log area for all the blocks used.
  ghost predicate Ample(s0: State) {
    Fresh(s0) && Spare(s0.l, LOGSIZE) < |s0.disk| && Spare(s0.l, LOGSIZE) < WORD_LIMIT
  }

  lemma {:induction false} FilledShape(s0: State, k: nat)
    requires Ample(s0) && k <= LOGSIZE
    ensures var s := Filled(s0, k);
      s.l == s0.l && s.disk == s0.disk && |s.view| == |s0.disk| && s.phase.Running? && !s.over && s.ops == Shares(k)
      && |s.lh| == k && forall i :: 0 <= i < k ==> s.lh[i] == Spare(s0.l, i)
  {
    if k > 0 {
      FilledShape(s0, k - 1);
    }
  }

  lemma {:induction false} ThreeFill(s0: State, k: nat)
    requires Ample(s0) && k <= LOGSIZE && k < s0.l.size
    ensures Reachable(s0, Filled(s0, k))
  {
    if k == 0 {
      ThreeBegin(s0);
    } else {
      ThreeFill(s0, k - 1);
      FilledShape(s0, k - 1);
      FillStep(s0, Filled(s0, k - 1), k);
    }
  }

  lemma FillStep(s0: State, p: State, k: nat)
    requires Reachable(s0, p) && 0 < k <= LOGSIZE && k < p.l.size && Spare(p.l, k) < |p.disk| && Spare(p.l, k) < WORD_LIMIT
    requires GoodHead(p.l, p.disk) && |p.view| == |p.disk| && p.phase.Running? && !p.over && p.ops == Shares(k - 1)
    requires |p.lh| == k - 1 && forall i :: 0 <= i < k - 1 ==> p.lh[i] == Spare(p.l, i)
    ensures var b := Spare(p.l, k - 1);
      Reachable(s0, p.(ops := Shares(k), lh := p.lh + [b], view := p.view[b := ZeroBlock()], open := p.open + [Write(b, ZeroBlock())]))
  {
    hide Reachable;
    var op := (k - 1) / 10;
    var st := LogBlock(op, Spare(p.l, k - 1), ZeroBlock());
    assert p.ops[op] < MAXOPBLOCKS;
    ReachStep(s0, p, st);
    assert p.ops[op := p.ops[op] + 1] == Shares(k);
  }

  /** The panic guard is not unreachable: with a log area of up to LOGSIZE blocks, one of them the
      header, as mkfs makes it, three operations that each stay within MAXOPBLOCKS reach a state in
      which one of them has a block of its share left and log_write refuses it. */
  lemma GuardCanRefuse(s0: State) returns (s: State, op: nat, b: nat)
    requires Ample(s0) && s0.l.size <= LOGSIZE
    ensures Reachable(s0, s) && s.phase.Running? && !s.over && op < |s.ops| && s.ops[op] < MAXOPBLOCKS
    ensures IsHome(s.l, s.disk, b) && b !in s.lh && !GuardPasses(s)
  {
    var k := s0.l.size - 1;
    ThreeFill(s0, k);
    FilledShape(s0, k);
    s, op, b := Filled(s0, k), k / 10, Spare(s0.l, k);
  }

  /** Nor is it with a larger log area: once three operations have used up their shares, writing a
      block again that is listed already, and needs no room, is refused too, for the guard comes
      before the search. */
  lemma RelogIsRefused(s0: State) returns (s: State, op: nat, b: nat)
    requires Ample(s0) && s0.l.size > LOGSIZE + 1
    ensures Reachable(s0, s) && s.phase.Running? && !s.over && op < |s.ops| && |s.lh| < s.l.size - 1
    ensures IsHome(s.l, s.disk, b) && b in s.lh && !GuardPasses(s)
  {
    ThreeFill(s0, LOGSIZE);
    FilledShape(s0, LOGSIZE);
    s, op, b := Filled(s0, LOGSIZE), 0, Spare(s0.l, 0);
    assert s.lh[0] == b;
  }

  /** When it refuses a write an operation is entitled to, to a listed block or to a new one within
      its share: exactly when the log area is full, or the list is full and the block is listed or
      some operation has added more than its share. */
  lemma GuardExactly(s0: State, s: State, op: nat, b: nat)
    requires Reachable(s0, s) && s.phase.Running? && op < |s.ops| && (b in s.lh || s.ops[op] < MAXOPBLOCKS)
    ensures GuardPasses(s) <==> |s.lh| < s.l.size - 1 && (b in s.lh || s.over ==> |s.lh| < LOGSIZE)
  {
    Reservations(s0, s);
  }

  // The machine can start from the disk mkfs makes.
  lemma ZeroDiskIsFresh(l: Layout, d: Disk)
    requires Fits(l, d) && forall b :: 0 <= b < |d| ==> d[b] == ZeroBlock()
    ensures Fresh(State(l, d, d, [], [], false, Running, [], []))
  {
    ZeroDiskIsClean(l, d);
  }
}
