/** fork, exit, wait, sleep, wakeup and kill as a machine over the process table. Each step is
    what runs between taking ptable.lock and giving it up, so its states are those in which
    the lock is free. */
module ExitWait {
  import opened Proc
  import Stride

  /** What a process is in the middle of: a fork that has taken slot child, or a wait. */
  datatype Act = Free | Forking(child: int) | Waiting

  /** exited: pids of processes that called exit; reaped: pids wait has returned, in order. */
  datatype State = State(ps: Table, acts: seq<Act>, init: int, nextpid: int, exited: set<int>, reaped: seq<int>)

  datatype Step =
    | ForkAlloc(p: int, k: int, tickets: int)  // allocproc takes slot k
    | ForkFail(p: int)                         // out of memory: the slot is given back
    | ForkLink(p: int)                         // np->parent = proc, without the lock
    | ForkReady(p: int)
    | Exit(p: int)
    | WaitReap(p: int, k: int)
    | WaitGiveUp(p: int)
    | WaitSleep(p: int)
    | SleepOn(p: int, addr: int)
    | WakeupOn(addr: int)
    | Kill(k: int)
    | Yield(p: int)
    | Run(p: int)                              // also of a sleeper, if nobody is runnable

  predicate Alive(s: State, i: int) {
    0 <= i < |s.ps| && s.ps[i].state in {SLEEPING, RUNNABLE, RUNNING}
  }

  predicate Runs(s: State, p: int) {
    0 <= p < |s.ps| && 0 <= p < |s.acts| && s.ps[p].state == RUNNING
  }

  predicate ForkingChild(s: State, p: int) {
    Runs(s, p) && s.acts[p].Forking? && 0 <= s.acts[p].child < |s.ps| && |s.acts| == |s.ps|
  }

  predicate HasChild(ps: Table, p: int) {
    exists i :: 0 <= i < |ps| && IsChild(ps, p, i)
  }

  predicate Enabled(s: State, st: Step) {
    |s.acts| == |s.ps| && match st
      case ForkAlloc(p, k, _) => Runs(s, p) && s.acts[p] == Free && 0 <= k < |s.ps| && s.ps[k].state == UNUSED && forall i :: 0 <= i < k ==> s.ps[i].state != UNUSED
      case ForkFail(p) => ForkingChild(s, p) && s.ps[s.acts[p].child].parent != p
      case ForkLink(p) => ForkingChild(s, p)
      case ForkReady(p) => ForkingChild(s, p) && s.ps[s.acts[p].child].parent == p
      case Exit(p) => Runs(s, p) && s.acts[p] == Free && p != s.init
      case WaitReap(p, k) => Runs(s, p) && !s.acts[p].Forking? && IsChild(s.ps, p, k) && s.ps[k].state == ZOMBIE && forall i :: 0 <= i < k ==> !(IsChild(s.ps, p, i) && s.ps[i].state == ZOMBIE)
      case WaitGiveUp(p) => Runs(s, p) && !s.acts[p].Forking? && !ZombieChild(s.ps, p, |s.ps|) && (s.ps[p].killed || !HasChild(s.ps, p))
      case WaitSleep(p) => Runs(s, p) && !s.acts[p].Forking? && !ZombieChild(s.ps, p, |s.ps|) && !s.ps[p].killed && HasChild(s.ps, p)
      case SleepOn(p, _) => Runs(s, p) && s.acts[p] == Free
      case WakeupOn(_) => true
      case Kill(k) => 0 <= k < |s.ps|
      case Yield(p) => Runs(s, p)
      case Run(p) => 0 <= p < |s.ps| && s.ps[p].state in {RUNNABLE, SLEEPING}
  }

  function Set(s: State, i: int, x: Proc): State
    requires 0 <= i < |s.ps|
  {
    s.(ps := s.ps[i := x])
  }

  function Do(s: State, st: Step): State
    requires Enabled(s, st)
  {
    match st
    case ForkAlloc(p, k, tickets) =>
      Set(s, k, s.ps[k].(state := EMBRYO, pid := s.nextpid, passo := StrideOf(tickets), passada := 0)).(nextpid := s.nextpid + 1, acts := s.acts[p := Forking(k)])
    case ForkFail(p) => Set(s, s.acts[p].child, s.ps[s.acts[p].child].(state := UNUSED)).(acts := s.acts[p := Free])
    case ForkLink(p) => Set(s, s.acts[p].child, s.ps[s.acts[p].child].(parent := p))
    case ForkReady(p) => Set(s, s.acts[p].child, s.ps[s.acts[p].child].(state := RUNNABLE)).(acts := s.acts[p := Free])
    case Exit(p) => s.(ps := ExitTable(s.ps, p, s.init), exited := s.exited + {s.ps[p].pid})
    case WaitReap(p, k) => Set(s, k, Cleared(s.ps[k])).(reaped := s.reaped + [s.ps[k].pid], acts := s.acts[p := Free])
    case WaitGiveUp(p) => s.(acts := s.acts[p := Free])
    case WaitSleep(p) => Set(s, p, s.ps[p].(state := SLEEPING, chan := OfSlot(p))).(acts := s.acts[p := Waiting])
    case SleepOn(p, addr) => Set(s, p, s.ps[p].(state := SLEEPING, chan := Other(addr)))
    case WakeupOn(addr) => s.(ps := WakeAll(s.ps, Other(addr)))
    case Kill(k) => Set(s, k, Killed(s.ps[k]))
    case Yield(p) => Set(s, p, s.ps[p].(state := RUNNABLE))
    case Run(p) => Set(s, p, s.ps[p].(state := RUNNING, chan := NoChan))
  }

  /* The invariant, slot by slot. */

  // Parents: an unused slot has none; an embryo has none or the process forking it; anybody
  // else but init has a live one. A zombie has no children.
  ghost predicate Family(s: State, i: int)
    requires 0 <= i < |s.ps| == |s.acts|
  {
    var x := s.ps[i];
    && x.parent != i
    && (x.state == UNUSED ==> x.parent == NOBODY)
    && (x.state == EMBRYO ==> x.parent == NOBODY || (Alive(s, x.parent) && s.acts[x.parent] == Forking(i)))
    && (x.state != UNUSED && x.state != EMBRYO && i != s.init ==> Alive(s, x.parent))
    && (i == s.init ==> Alive(s, i) && x.parent == NOBODY)
  }

  // A process in the middle of a fork is live and its child is an embryo nobody else is making.
  ghost predicate ForkOk(s: State, p: int)
    requires 0 <= p < |s.ps| == |s.acts|
  {
    && (!Alive(s, p) ==> s.acts[p] == Free)
    && (s.acts[p].Forking? ==> 0 <= s.acts[p].child < |s.ps| && s.ps[s.acts[p].child].state == EMBRYO)
    && forall q :: 0 <= q < |s.acts| && q != p && s.acts[p].Forking? ==> s.acts[q] != s.acts[p]
  }

  // Who sleeps on a slot's address is that slot, in wait, and has no zombie child.
  ghost predicate WaitOk(s: State, i: int)
    requires 0 <= i < |s.ps| == |s.acts|
  {
    s.ps[i].state == SLEEPING && s.ps[i].chan.OfSlot? ==> s.ps[i].chan == OfSlot(i) && s.acts[i] == Waiting && !ZombieChild(s.ps, i, |s.ps|)
  }

  ghost predicate Pids(s: State) {
    && (forall i :: 0 <= i < |s.ps| && s.ps[i].state != UNUSED ==> 0 < s.ps[i].pid < s.nextpid)
    && (forall i, j :: 0 <= i < j < |s.ps| && s.ps[i].state != UNUSED && s.ps[j].state != UNUSED ==> s.ps[i].pid != s.ps[j].pid)
  }

  // Every exit is waiting to be reaped or has been, once.
  ghost predicate Ledger(s: State) {
    && (forall a :: 0 <= a < |s.reaped| ==> 0 < s.reaped[a] < s.nextpid)
    && (forall a, b :: 0 <= a < b < |s.reaped| ==> s.reaped[a] != s.reaped[b])
    && (forall i :: 0 <= i < |s.ps| && s.ps[i].state != UNUSED ==> s.ps[i].pid !in s.reaped)
    && (forall pid :: pid in s.exited <==> pid in s.reaped || IsZombiePid(s, pid))
  }

  ghost predicate IsZombiePid(s: State, pid: int) {
    exists i :: 0 <= i < |s.ps| && s.ps[i].state == ZOMBIE && s.ps[i].pid == pid
  }

  ghost predicate Inv(s: State) {
    && |s.acts| == |s.ps| && 0 <= s.init < |s.ps| && 0 < s.nextpid
    && (forall i :: 0 <= i < |s.ps| ==> Family(s, i))
    && (forall i :: 0 <= i < |s.ps| ==> ForkOk(s, i))
    && (forall i :: 0 <= i < |s.ps| ==> WaitOk(s, i))
    && Pids(s) && Ledger(s)
  }

  ghost predicate Initial(s: State) {
    && |s.acts| == |s.ps| && 0 <= s.init < |s.ps| && s.exited == {} && s.reaped == [] && s.nextpid == 2
    && (forall i :: 0 <= i < |s.acts| ==> s.acts[i] == Free)
    && (forall i :: 0 <= i < |s.ps| ==> s.ps[i].parent == NOBODY && s.ps[i].state == if i == s.init then RUNNABLE else UNUSED)
    && s.ps[s.init].pid == 1
  }

  lemma InitialInv(s: State)
    requires Initial(s)
    ensures Inv(s)
  {
  }

  /* Steps that only move processes between the three live states. */

  ghost predicate Similar(s: State, t: State) {
    && |t.ps| == |s.ps| == |s.acts| == |t.acts| && t.init == s.init && t.nextpid == s.nextpid && t.exited == s.exited && t.reaped == s.reaped
    && (forall i :: 0 <= i < |s.ps| ==> t.ps[i].parent == s.ps[i].parent && t.ps[i].pid == s.ps[i].pid)
    && (forall i :: 0 <= i < |s.ps| ==> t.ps[i].state == s.ps[i].state || (Alive(s, i) && Alive(t, i)))
    && (forall i :: 0 <= i < |s.ps| ==> t.acts[i] == s.acts[i] || (Alive(s, i) && !s.acts[i].Forking? && !t.acts[i].Forking?))
  }

  lemma SimilarInv(s: State, t: State)
    requires Inv(s) && Similar(s, t) && forall i :: 0 <= i < |t.ps| ==> WaitOk(t, i)
    ensures Inv(t)
  {
    assert forall i :: Alive(t, i) <==> Alive(s, i);
    forall i | 0 <= i < |t.ps| ensures Family(t, i) {
      assert Family(s, i);
      if s.ps[i].state == EMBRYO && s.ps[i].parent != NOBODY {
        assert ForkOk(s, s.ps[i].parent);
      }
    }
    forall i | 0 <= i < |t.ps| ensures ForkOk(t, i) {
      assert ForkOk(s, i);
    }
    SameZombiePids(s, t);
  }

  // Same zombies under the same parents.
  lemma SimilarZombies(s: State, t: State, i: int)
    requires Similar(s, t)
    ensures ZombieChild(t.ps, i, |t.ps|) <==> ZombieChild(s.ps, i, |s.ps|)
  {
    if ZombieChild(s.ps, i, |s.ps|) {
      var j :| 0 <= j < |s.ps| && s.ps[j].parent == i && s.ps[j].state == ZOMBIE;
      assert t.ps[j].parent == i && t.ps[j].state == ZOMBIE;
    }
    if ZombieChild(t.ps, i, |t.ps|) {
      var j :| 0 <= j < |t.ps| && t.ps[j].parent == i && t.ps[j].state == ZOMBIE;
      assert s.ps[j].parent == i && s.ps[j].state == ZOMBIE;
    }
  }

  lemma LiveStepKeeps(s: State, st: Step)
    requires Inv(s) && Enabled(s, st) && (st.WaitGiveUp? || st.WaitSleep? || st.SleepOn? || st.WakeupOn? || st.Kill? || st.Yield? || st.Run?)
    ensures Inv(Do(s, st))
  {
    hide Family, ForkOk, Pids, Ledger;
    var t := Do(s, st);
    assert Similar(s, t);
    forall i | 0 <= i < |t.ps| ensures WaitOk(t, i) {
      assert WaitOk(s, i);
      SimilarZombies(s, t, i);
    }
    SimilarInv(s, t);
  }

  /* fork. */

  lemma ForkAllocKeeps(s: State, p: int, k: int, tickets: int)
    requires Inv(s) && Enabled(s, ForkAlloc(p, k, tickets))
    ensures Inv(Do(s, ForkAlloc(p, k, tickets)))
  {
    var t := Do(s, ForkAlloc(p, k, tickets));
    hide Pids, Ledger;
    assert Family(s, k) && ForkOk(s, k) && s.init != k by {
      assert Family(s, s.init);
    }
    assert forall i :: Alive(t, i) <==> Alive(s, i);
    forall q | 0 <= q < |s.acts| ensures s.acts[q] != Forking(k) {
      assert ForkOk(s, q);
    }
    forall i | 0 <= i < |t.ps| ensures Family(t, i) {
      assert Family(s, i);
    }
    forall i | 0 <= i < |t.ps| ensures ForkOk(t, i) {
      assert ForkOk(s, i);
    }
    forall i | 0 <= i < |t.ps| ensures WaitOk(t, i) {
      assert WaitOk(s, i);
      assert ZombieChild(t.ps, i, |t.ps|) ==> ZombieChild(s.ps, i, |s.ps|);
    }
    AllocLedger(s, t, p, k, tickets);
  }

  lemma AllocLedger(s: State, t: State, p: int, k: int, tickets: int)
    requires Inv(s) && Enabled(s, ForkAlloc(p, k, tickets)) && t == Do(s, ForkAlloc(p, k, tickets))
    ensures Pids(t) && Ledger(t)
  {
    hide Family, ForkOk, WaitOk;
    SameZombiePids(s, t);
  }

  lemma SameZombiePids(s: State, t: State)
    requires |t.ps| == |s.ps| && forall i :: 0 <= i < |s.ps| ==> (t.ps[i].state == ZOMBIE <==> s.ps[i].state == ZOMBIE) && (s.ps[i].state == ZOMBIE ==> t.ps[i].pid == s.ps[i].pid)
    ensures forall pid :: IsZombiePid(t, pid) <==> IsZombiePid(s, pid)
  {
    forall pid ensures IsZombiePid(t, pid) <==> IsZombiePid(s, pid) {
      if IsZombiePid(s, pid) {
        var i :| 0 <= i < |s.ps| && s.ps[i].state == ZOMBIE && s.ps[i].pid == pid;
        assert t.ps[i].state == ZOMBIE && t.ps[i].pid == pid;
      }
      if IsZombiePid(t, pid) {
        var i :| 0 <= i < |t.ps| && t.ps[i].state == ZOMBIE && t.ps[i].pid == pid;
        assert s.ps[i].state == ZOMBIE && s.ps[i].pid == pid;
      }
    }
  }

  // The rest of fork changes one embryo, and perhaps what its maker is doing.
  ghost predicate EmbryoStep(s: State, t: State, p: int, k: int) {
    && |t.ps| == |s.ps| == |s.acts| == |t.acts| && t.init == s.init && t.nextpid == s.nextpid && t.exited == s.exited && t.reaped == s.reaped
    && 0 <= p < |s.ps| && 0 <= k < |s.ps| && s.acts[p] == Forking(k) && Alive(s, p)
    && t.ps == s.ps[k := t.ps[k]] && t.ps[k].pid == s.ps[k].pid && t.acts == s.acts[p := t.acts[p]]
    && (if t.ps[k].state == EMBRYO then t.ps[k].parent == p && t.acts[p] == s.acts[p]
        else if t.ps[k].state == RUNNABLE then t.ps[k].parent == p && t.acts[p] == Free
        else t.ps[k].state == UNUSED && t.ps[k].parent == NOBODY && t.acts[p] == Free)
  }

  lemma EmbryoStepKeeps(s: State, t: State, p: int, k: int)
    requires Inv(s) && EmbryoStep(s, t, p, k)
    ensures Inv(t)
  {
    hide Pids, Ledger;
    assert ForkOk(s, p) && Family(s, s.init);
    assert forall i :: i != k ==> (Alive(t, i) <==> Alive(s, i));
    forall i | 0 <= i < |t.ps| ensures Family(t, i) {
      assert Family(s, i);
      assert s.ps[i].parent != k;
    }
    forall i | 0 <= i < |t.ps| ensures ForkOk(t, i) {
      assert ForkOk(s, i) && ForkOk(s, k);
    }
    forall i | 0 <= i < |t.ps| ensures WaitOk(t, i) {
      assert WaitOk(s, i);
      assert ZombieChild(t.ps, i, |t.ps|) ==> ZombieChild(s.ps, i, |s.ps|);
    }
    EmbryoLedger(s, t, p, k);
  }

  lemma EmbryoLedger(s: State, t: State, p: int, k: int)
    requires Inv(s) && EmbryoStep(s, t, p, k)
    ensures Pids(t) && Ledger(t)
  {
    hide Family, WaitOk;
    assert ForkOk(s, p);
    SameZombiePids(s, t);
  }

  lemma ForkRestKeeps(s: State, st: Step)
    requires Inv(s) && Enabled(s, st) && (st.ForkFail? || st.ForkLink? || st.ForkReady?)
    ensures Inv(Do(s, st))
  {
    var p := st.p;
    assert ForkOk(s, p) && Family(s, s.acts[p].child);
    EmbryoStepKeeps(s, Do(s, st), p, s.acts[p].child);
  }

  /* wait and exit. */

  lemma ReapKeeps(s: State, p: int, k: int)
    requires Inv(s) && Enabled(s, WaitReap(p, k))
    ensures Inv(Do(s, WaitReap(p, k)))
  {
    hide Ledger, IsZombiePid;
    var t := Do(s, WaitReap(p, k));
    assert ForkOk(s, k) && Family(s, s.init);
    assert forall i :: Alive(t, i) <==> Alive(s, i);
    forall i | 0 <= i < |t.ps| ensures Family(t, i) {
      assert Family(s, i);
    }
    forall i | 0 <= i < |t.ps| ensures ForkOk(t, i) {
      assert ForkOk(s, i);
    }
    forall i | 0 <= i < |t.ps| ensures WaitOk(t, i) {
      assert WaitOk(s, i);
      assert ZombieChild(t.ps, i, |t.ps|) ==> ZombieChild(s.ps, i, |s.ps|);
    }
    ReapLedger(s, t, k);
  }

  lemma ReapLedger(s: State, t: State, k: int)
    requires Pids(s) && Ledger(s) && 0 <= k < |s.ps| && s.ps[k].state == ZOMBIE && t.ps == s.ps[k := Cleared(s.ps[k])]
    requires t.reaped == s.reaped + [s.ps[k].pid] && t.exited == s.exited && t.nextpid == s.nextpid
    ensures Ledger(t)
  {
    forall pid ensures pid in t.exited <==> pid in t.reaped || IsZombiePid(t, pid) {
      if IsZombiePid(t, pid) {
        var i :| 0 <= i < |t.ps| && t.ps[i].state == ZOMBIE && t.ps[i].pid == pid;
        assert s.ps[i].state == ZOMBIE && s.ps[i].pid == pid;
      }
      if IsZombiePid(s, pid) && pid != s.ps[k].pid {
        var i :| 0 <= i < |s.ps| && s.ps[i].state == ZOMBIE && s.ps[i].pid == pid;
        assert t.ps[i].state == ZOMBIE && t.ps[i].pid == pid;
      }
      assert IsZombiePid(s, s.ps[k].pid);
    }
  }

  /** What exit leaves in each slot: the process itself a zombie; others at most moved from
      asleep on the parent's or init's address to runnable, and handed to init if they were
      its children. */
  lemma ExitSlots(ps: Table, p: nat, init: int, i: nat)
    requires p < |ps| && i < |ps|
    ensures var x := ExitTable(ps, p, init)[i];
      && |ExitTable(ps, p, init)| == |ps|
      && x.pid == ps[i].pid && x.chan == ps[i].chan
      && x.parent == (if ps[i].parent == p then init else ps[i].parent)
      && (if i == p then x.state == ZOMBIE
          else if ps[i].state == SLEEPING && ps[i].chan == OfSlot(ps[p].parent) then x.state == RUNNABLE
          else if ps[i].state == SLEEPING && ps[i].chan == OfSlot(init) && ZombieChild(ps, p, |ps|) then x.state == RUNNABLE
          else x.state == ps[i].state)
  {
    var qs := WakeAll(ps, OfSlot(ps[p].parent));
    if ZombieChild(ps, p, |ps|) {
      var j :| 0 <= j < |ps| && ps[j].parent == p && ps[j].state == ZOMBIE;
      assert qs[j].parent == p && qs[j].state == ZOMBIE;
    }
    if ZombieChild(qs, p, |qs|) {
      var j :| 0 <= j < |qs| && qs[j].parent == p && qs[j].state == ZOMBIE;
      assert ps[j].parent == p && ps[j].state == ZOMBIE;
    }
  }

  lemma ExitKeeps(s: State, p: int)
    requires Inv(s) && Enabled(s, Exit(p))
    ensures Inv(Do(s, Exit(p)))
  {
    var t := Do(s, Exit(p));
    forall i | 0 <= i < |s.ps| ensures t.ps[i].pid == s.ps[i].pid && t.ps[i].parent == (if s.ps[i].parent == p then s.init else s.ps[i].parent) {
      ExitSlots(s.ps, p, s.init, i);
    }
    forall i ensures Alive(t, i) <==> Alive(s, i) && i != p {
      if 0 <= i < |s.ps| {
        ExitSlots(s.ps, p, s.init, i);
      }
    }
    ExitFamily(s, p);
    ExitWaits(s, p);
    ExitLedger(s, p);
  }

  lemma ExitFamily(s: State, p: int)
    requires Inv(s) && Enabled(s, Exit(p))
    ensures var t := Do(s, Exit(p)); |t.ps| == |t.acts| && forall i :: 0 <= i < |t.ps| ==> Family(t, i) && ForkOk(t, i)
  {
    var t := Do(s, Exit(p));
    assert Family(s, s.init) && |t.ps| == |s.ps|;
    forall i ensures Alive(t, i) <==> Alive(s, i) && i != p {
      if 0 <= i < |s.ps| {
        ExitSlots(s.ps, p, s.init, i);
      }
    }
    forall i | 0 <= i < |t.ps| ensures Family(t, i) && ForkOk(t, i) {
      ExitSlots(s.ps, p, s.init, i);
      assert Family(s, i) && ForkOk(s, i);
      if s.acts[i].Forking? {
        ExitSlots(s.ps, p, s.init, s.acts[i].child);
      }
    }
  }

  lemma ExitWaits(s: State, p: int)
    requires Inv(s) && Enabled(s, Exit(p))
    ensures var t := Do(s, Exit(p)); |t.ps| == |t.acts| && forall i :: 0 <= i < |t.ps| ==> WaitOk(t, i)
  {
    var t := Do(s, Exit(p));
    assert Family(s, p);
    forall i | 0 <= i < |t.ps| ensures WaitOk(t, i) {
      ExitSlots(s.ps, p, s.init, i);
      assert WaitOk(s, i);
      if t.ps[i].state == SLEEPING && t.ps[i].chan == OfSlot(i) && ZombieChild(t.ps, i, |t.ps|) {
        var j :| 0 <= j < |t.ps| && t.ps[j].parent == i && t.ps[j].state == ZOMBIE;
        ExitSlots(s.ps, p, s.init, j);
      }
    }
  }

  lemma ExitLedger(s: State, p: int)
    requires Inv(s) && Enabled(s, Exit(p))
    ensures Pids(Do(s, Exit(p))) && Ledger(Do(s, Exit(p)))
  {
    var t := Do(s, Exit(p));
    forall i | 0 <= i < |s.ps| ensures t.ps[i].pid == s.ps[i].pid && (t.ps[i].state == UNUSED <==> s.ps[i].state == UNUSED) && (t.ps[i].state == ZOMBIE <==> i == p || s.ps[i].state == ZOMBIE) {
      ExitSlots(s.ps, p, s.init, i);
    }
    assert |t.ps| == |s.ps|;
    forall pid ensures IsZombiePid(t, pid) <==> pid == s.ps[p].pid || IsZombiePid(s, pid) {
      if IsZombiePid(s, pid) {
        var i :| 0 <= i < |s.ps| && s.ps[i].state == ZOMBIE && s.ps[i].pid == pid;
        assert t.ps[i].state == ZOMBIE && t.ps[i].pid == pid;
      }
      if IsZombiePid(t, pid) {
        var i :| 0 <= i < |t.ps| && t.ps[i].state == ZOMBIE && t.ps[i].pid == pid;
        assert i == p || (s.ps[i].state == ZOMBIE && s.ps[i].pid == pid);
      }
      assert t.ps[p].state == ZOMBIE && t.ps[p].pid == s.ps[p].pid;
    }
  }

  lemma StepKeeps(s: State, st: Step)
    requires Inv(s) && Enabled(s, st)
    ensures Inv(Do(s, st))
  {
    match st
    case ForkAlloc(p, k, tickets) => ForkAllocKeeps(s, p, k, tickets);
    case ForkFail(p) => ForkRestKeeps(s, st);
    case ForkLink(p) => ForkRestKeeps(s, st);
    case ForkReady(p) => ForkRestKeeps(s, st);
    case Exit(p) => ExitKeeps(s, p);
    case WaitReap(p, k) => ReapKeeps(s, p, k);
    case WaitGiveUp(p) => LiveStepKeeps(s, st);
    case WaitSleep(p) => LiveStepKeeps(s, st);
    case SleepOn(p, addr) => LiveStepKeeps(s, st);
    case WakeupOn(addr) => LiveStepKeeps(s, st);
    case Kill(k) => LiveStepKeeps(s, st);
    case Yield(p) => LiveStepKeeps(s, st);
    case Run(p) => LiveStepKeeps(s, st);
  }

  /* Whole runs. */

  ghost predicate Moves(s: State, st: Step, t: State) {
    Enabled(s, st) && t == Do(s, st)
  }

  ghost predicate IsRun(ss: seq<State>, sts: seq<Step>) {
    && |ss| == |sts| + 1 && Initial(ss[0])
    && forall i {:trigger sts[i]} :: 0 <= i < |sts| ==> Moves(ss[i], sts[i], ss[i+1])
  }

  lemma {:induction false} RunInv(ss: seq<State>, sts: seq<Step>)
    requires IsRun(ss, sts)
    ensures Inv(ss[|sts|])
  {
    if sts == [] {
      InitialInv(ss[0]);
    } else {
      var n := |sts| - 1;
      RunInv(ss[..n+1], sts[..n]);
      assert Moves(ss[n], sts[n], ss[n+1]);
      StepKeeps(ss[n], sts[n]);
    }
  }

  /** The exit/wait protocol, in every state of every run: nobody sleeps in wait while a child
      is a zombie; a zombie has no children; every process but init has a live parent; live
      pids are distinct; and the pids wait has returned are distinct pids of exited processes,
      the others of which are the zombies still in the table. */
  lemma ExitWaitProtocol(ss: seq<State>, sts: seq<Step>)
    requires IsRun(ss, sts)
    ensures var s := ss[|sts|];
      && (forall i :: 0 <= i < |s.ps| && s.ps[i].state == SLEEPING && s.ps[i].chan == OfSlot(i) ==> !ZombieChild(s.ps, i, |s.ps|))
      && (forall i, z :: 0 <= i < |s.ps| && 0 <= z < |s.ps| && s.ps[z].state == ZOMBIE ==> s.ps[i].parent != z)
      && (forall i :: 0 <= i < |s.ps| && i != s.init && s.ps[i].state !in {UNUSED, EMBRYO} ==> Alive(s, s.ps[i].parent))
      && (forall i, j :: 0 <= i < j < |s.ps| && s.ps[i].state != UNUSED && s.ps[j].state != UNUSED ==> s.ps[i].pid != s.ps[j].pid)
      && (forall a, b :: 0 <= a < b < |s.reaped| ==> s.reaped[a] != s.reaped[b])
      && (forall pid :: pid in s.exited <==> pid in s.reaped || IsZombiePid(s, pid))
  {
    var s := ss[|sts|];
    RunInv(ss, sts);
    forall i | 0 <= i < |s.ps| ensures (s.ps[i].state == SLEEPING && s.ps[i].chan == OfSlot(i) ==> !ZombieChild(s.ps, i, |s.ps|))
      && (0 <= s.ps[i].parent < |s.ps| ==> s.ps[s.ps[i].parent].state != ZOMBIE) && (i != s.init && s.ps[i].state !in {UNUSED, EMBRYO} ==> Alive(s, s.ps[i].parent)) {
      assert Family(s, i) && WaitOk(s, i);
    }
  }

  lemma Extend(ss: seq<State>, sts: seq<Step>, st: Step) returns (ss': seq<State>, sts': seq<Step>)
    requires IsRun(ss, sts) && Enabled(ss[|sts|], st)
    ensures IsRun(ss', sts') && ss' == ss + [Do(ss[|sts|], st)] && sts' == sts + [st]
  {
    ss', sts' := ss + [Do(ss[|sts|], st)], sts + [st];
    forall i | 0 <= i < |sts'| ensures Moves(ss'[i], sts'[i], ss'[i+1]) {
      assert i < |sts| ==> sts'[i] == sts[i];
    }
  }

  // init, in slot 0, runs and forks a child into slot 1.
  lemma InitForks(s0: State) returns (ss: seq<State>, sts: seq<Step>)
    requires Initial(s0) && |s0.ps| == 2 && s0.init == 0
    ensures IsRun(ss, sts) && ss[0] == s0 && |sts| == 4
    ensures var s := ss[4]; |s.ps| == |s.acts| == 2 && s.init == 0 && s.acts == [Free, Free]
    ensures var s := ss[4]; s.ps[0].state == RUNNING && s.ps[0].parent == NOBODY && s.ps[1].state == RUNNABLE && s.ps[1].parent == 0
  {
    hide IsRun;
    var none: seq<Step> := [];
    assert IsRun([s0], none) by { StartRun(s0); }
    ss, sts := Extend([s0], none, Run(0));
    ss, sts := Extend(ss, sts, ForkAlloc(0, 1, 0));
    ss, sts := Extend(ss, sts, ForkLink(0));
    ss, sts := Extend(ss, sts, ForkReady(0));
  }

  lemma StartRun(s0: State)
    requires Initial(s0)
    ensures IsRun([s0], [])
  {
  }

  // The slot the scheduler last chose.
  function LastChoice(sts: seq<Step>): int {
    if sts == [] then NOBODY else if sts[|sts|-1].Run? then sts[|sts|-1].p else LastChoice(sts[..|sts|-1])
  }

  /** A choice that is not reset can be a zombie: init forks and then waits for something else, and
      the child exits. Nobody is runnable, so the scheduler chooses the child again, and sets it
      running. */
  lemma ZombieIsNextChoice(s0: State, addr: int) returns (ss: seq<State>, sts: seq<Step>)
    requires Initial(s0) && |s0.ps| == 2 && s0.init == 0
    ensures IsRun(ss, sts) && ss[0] == s0 && |sts| == 7 && LastChoice(sts) == 1
    ensures var s := ss[7]; |s.ps| == 2 && s.ps[1].state == ZOMBIE && !Stride.AnyReady(s.ps, 2)
    ensures var s := ss[7]; forall who :: Stride.Chooses(s.ps, LastChoice(sts), who) ==> who == 1 && Stride.Dispatched(s.ps, who)[1].state == RUNNING
  {
    hide IsRun, ExitTable;
    ss, sts := InitForks(s0);
    ss, sts := Extend(ss, sts, SleepOn(0, addr));
    ss, sts := Extend(ss, sts, Run(1));
    var s, before := ss[6], sts;
    ss, sts := Extend(ss, sts, Exit(1));
    ExitSlots(s.ps, 1, 0, 0);
    ExitSlots(s.ps, 1, 0, 1);
    assert sts[..6] == before;
  }
}
