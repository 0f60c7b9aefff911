/** The process table of proc.c: what its scanning loops do to it under ptable.lock. */
module Proc {

  const MAX_TICKETS := 2000
  const MIN_TICKETS := 25
  const DEFAULT_TICKETS := 50
  const NOBODY := -1

  datatype PState = UNUSED | EMBRYO | SLEEPING | RUNNABLE | RUNNING | ZOMBIE

  /** Wait channels: none, the address of a table slot (used by wait), any other address. */
  datatype Chan = NoChan | OfSlot(slot: int) | Other(addr: int)

  /** A slot of ptable. parent is a slot number or NOBODY; passo is the stride, passada the pass. */
  datatype Proc = Proc(state: PState, pid: int, parent: int, chan: Chan, killed: bool, passo: int, passada: int)

  type Table = seq<Proc>

  /* What each loop computes. */

  /** fork's ticket count: 0 asks for the default, anything else is clamped. */
  function Tickets(n: int): (t: int)
    ensures MIN_TICKETS <= t <= MAX_TICKETS
  {
    if n == 0 then DEFAULT_TICKETS
    else if n < MIN_TICKETS then MIN_TICKETS
    else if n > MAX_TICKETS then MAX_TICKETS
    else n
  }

  function StrideOf(n: int): (s: int)
    ensures 5 <= s <= 400
  {
    10000 / Tickets(n)
  }

  function WakeOne(p: Proc, c: Chan): Proc {
    if p.state == SLEEPING && p.chan == c then p.(state := RUNNABLE) else p
  }

  // wakeup1
  function WakeAll(ps: Table, c: Chan): Table {
    seq(|ps|, i requires 0 <= i < |ps| => WakeOne(ps[i], c))
  }

  // The children of p among the first k slots go to init.
  function Adopt(ps: Table, p: int, init: int, k: int): Table {
    seq(|ps|, i requires 0 <= i < |ps| => if i < k && ps[i].parent == p then ps[i].(parent := init) else ps[i])
  }

  predicate ZombieChild(ps: Table, p: int, k: int) {
    exists i :: 0 <= i < k && i < |ps| && ps[i].parent == p && ps[i].state == ZOMBIE
  }

  function Handover(ps: Table, p: int, init: int, k: int): Table {
    if ZombieChild(ps, p, k) then WakeAll(Adopt(ps, p, init, k), OfSlot(init)) else Adopt(ps, p, init, k)
  }

  /** exit: wake the parent, hand the children to init (waking it if one of them is a zombie),
      become a zombie. */
  function ExitTable(ps: Table, p: nat, init: int): Table
    requires p < |ps|
  {
    var h := Handover(WakeAll(ps, OfSlot(ps[p].parent)), p, init, |ps|);
    h[p := h[p].(state := ZOMBIE)]
  }

  function Cleared(p: Proc): Proc {
    p.(state := UNUSED, pid := 0, parent := NOBODY, killed := false)
  }

  /** What wait finds in one scan: a zombie child to reap, no reason to wait, or neither. */
  datatype WaitScan = Reap(slot: nat) | NoChildren | KeepWaiting

  predicate IsChild(ps: Table, p: int, i: int) {
    0 <= i < |ps| && ps[i].parent == p
  }

  function Killed(p: Proc): Proc {
    p.(killed := true, state := if p.state == SLEEPING then RUNNABLE else p.state)
  }

  // The first slot with the pid, or the end.
  function FirstWith(ps: Table, pid: int, from: nat): (k: nat)
    requires from <= |ps|
    ensures from <= k <= |ps| && (k < |ps| ==> ps[k].pid == pid) && forall i :: from <= i < k ==> ps[i].pid != pid
    decreases |ps| - from
  {
    if from == |ps| || ps[from].pid == pid then from else FirstWith(ps, pid, from + 1)
  }

  function FirstUnused(ps: Table, from: nat): (k: nat)
    requires from <= |ps|
    ensures from <= k <= |ps| && (k < |ps| ==> ps[k].state == UNUSED) && forall i :: from <= i < k ==> ps[i].state != UNUSED
    decreases |ps| - from
  {
    if from == |ps| || ps[from].state == UNUSED then from else FirstUnused(ps, from + 1)
  }

  // kill
  function KillTable(ps: Table, pid: int): Table {
    var k := FirstWith(ps, pid, 0);
    if k < |ps| then ps[k := Killed(ps[k])] else ps
  }

  // allocproc, in the slot k
  function AllocTable(ps: Table, k: nat, pid: int, passo: int): Table
    requires k < |ps|
  {
    ps[k := ps[k].(state := EMBRYO, pid := pid, passo := passo, passada := 0)]
  }

  /** kill does not ask whether the slot is in use, and allocproc does not clear the mark: after a kill
      the next process made is born killed if and only if its slot was marked before, or was the first
      with that pid. */
  lemma BornKilledIff(ps: Table, pid: int, newpid: int, passo: int)
    requires FirstUnused(ps, 0) < |ps|
    ensures var k, qs := FirstUnused(ps, 0), KillTable(ps, pid);
      |qs| == |ps| && FirstUnused(qs, 0) == k && (AllocTable(qs, k, newpid, passo)[k].killed <==> ps[k].killed || FirstWith(ps, pid, 0) == k)
  {
    var k, qs := FirstUnused(ps, 0), KillTable(ps, pid);
    assert qs[k].state == UNUSED && forall i :: 0 <= i < k ==> qs[i].state == UNUSED ==> ps[i].state == UNUSED;
  }

  /** kill(0) does it in a table where the slots in use come first. */
  lemma KillZero(ps: Table, newpid: int, passo: int)
    requires var k := FirstUnused(ps, 0); k < |ps| && ps[k].pid == 0 && forall i :: 0 <= i < k ==> ps[i].pid != 0
    ensures var k, qs := FirstUnused(ps, 0), KillTable(ps, 0); |qs| == |ps| && AllocTable(qs, k, newpid, passo)[k].killed
  {
    BornKilledIff(ps, 0, newpid, passo);
  }

  class PTable {
    const procs: array<Proc>
    var nextpid: int
    const initproc: int

    constructor (n: nat, initproc: int)
      ensures fresh(procs) && procs.Length == n && nextpid == 1 && this.initproc == initproc
      ensures forall i :: 0 <= i < n ==> procs[i] == Proc(UNUSED, 0, NOBODY, NoChan, false, 0, 0)
    {
      procs := new Proc[n](_ => Proc(UNUSED, 0, NOBODY, NoChan, false, 0, 0));
      nextpid := 1;
      this.initproc := initproc;
    }

    /** allocproc, up to the kernel stack: the first unused slot becomes an embryo with a new pid,
        the stride of its tickets and pass 0. */
    method AllocProc(tickets: int) returns (r: int)
      requires tickets != 0
      modifies this`nextpid, procs
      ensures r == NOBODY <==> forall i :: 0 <= i < procs.Length ==> old(procs[i].state) != UNUSED
      ensures r == NOBODY ==> nextpid == old(nextpid) && procs[..] == old(procs[..])
      ensures r != NOBODY ==> 0 <= r < procs.Length && old(procs[r].state) == UNUSED && (forall i :: 0 <= i < r ==> old(procs[i].state) != UNUSED)
      ensures r != NOBODY ==> nextpid == old(nextpid) + 1 && r == FirstUnused(old(procs[..]), 0)
      ensures r != NOBODY ==> procs[..] == AllocTable(old(procs[..]), r, old(nextpid), 10000 / tickets)
    {
      for i := 0 to procs.Length
        invariant procs[..] == old(procs[..]) && nextpid == old(nextpid)
        invariant forall j :: 0 <= j < i ==> procs[j].state != UNUSED
      {
        if procs[i].state == UNUSED {
          procs[i] := procs[i].(state := EMBRYO, pid := nextpid, passo := 10000 / tickets, passada := 0);
          nextpid := nextpid + 1;
          return i;
        }
      }
      return NOBODY;
    }

    method Wakeup1(c: Chan)
      modifies procs
      ensures procs[..] == WakeAll(old(procs[..]), c)
    {
      for i := 0 to procs.Length
        invariant forall j :: 0 <= j < i ==> procs[j] == WakeOne(old(procs[j]), c)
        invariant forall j :: i <= j < procs.Length ==> procs[j] == old(procs[j])
      {
        if procs[i].state == SLEEPING && procs[i].chan == c {
          procs[i] := procs[i].(state := RUNNABLE);
        }
      }
    }

    // exit's loop over abandoned children.
    method HandOver(p: int)
      modifies procs
      ensures procs[..] == Handover(old(procs[..]), p, initproc, procs.Length)
    {
      ghost var ps := procs[..];
      assert Handover(ps, p, initproc, 0) == ps;
      for i := 0 to procs.Length
        invariant procs[..] == Handover(ps, p, initproc, i)
      {
        assert procs[i].parent == ps[i].parent && (procs[i].state == ZOMBIE <==> ps[i].state == ZOMBIE);
        HandoverStep(ps, p, initproc, i);
        if procs[i].parent == p {
          procs[i] := procs[i].(parent := initproc);
          if procs[i].state == ZOMBIE {
            Wakeup1(OfSlot(initproc));
          }
        }
      }
    }

    /** exit, from the point where it holds ptable.lock; panics for init. */
    method Exit(p: nat) returns (ok: bool)
      requires p < procs.Length
      modifies procs
      ensures ok <==> p != initproc
      ensures !ok ==> procs[..] == old(procs[..])
      ensures ok ==> procs[..] == ExitTable(old(procs[..]), p, initproc)
    {
      if p == initproc {
        return false;
      }
      ghost var ps := procs[..];
      Wakeup1(OfSlot(procs[p].parent));
      HandOver(p);
      procs[p] := procs[p].(state := ZOMBIE);
      return true;
    }

    /** One scan of wait: the first zombie child is reaped and its pid returned. */
    method WaitOnce(p: nat) returns (r: WaitScan, pid: int)
      requires p < procs.Length
      modifies procs
      ensures r.Reap? ==> r.slot < procs.Length && IsChild(old(procs[..]), p, r.slot) && old(procs[r.slot].state) == ZOMBIE && pid == old(procs[r.slot].pid)
      ensures r.Reap? ==> forall i :: 0 <= i < r.slot ==> !(IsChild(old(procs[..]), p, i) && old(procs[i].state) == ZOMBIE)
      ensures r.Reap? ==> procs[..] == old(procs[..])[r.slot := Cleared(old(procs[r.slot]))]
      ensures !r.Reap? ==> procs[..] == old(procs[..]) && !ZombieChild(procs[..], p, procs.Length)
      ensures r.NoChildren? <==> !ZombieChild(old(procs[..]), p, procs.Length) && (old(procs[p].killed) || forall i :: !IsChild(old(procs[..]), p, i))
    {
      pid := -1;
      var havekids := false;
      ghost var ps := procs[..];
      for i := 0 to procs.Length
        invariant procs[..] == ps
        invariant havekids <==> exists j :: 0 <= j < i && IsChild(ps, p, j)
        invariant forall j :: 0 <= j < i ==> !(IsChild(ps, p, j) && ps[j].state == ZOMBIE)
      {
        if procs[i].parent == p {
          assert IsChild(ps, p, i);
          havekids := true;
          if procs[i].state == ZOMBIE {
            pid := procs[i].pid;
            procs[i] := Cleared(procs[i]);
            return Reap(i), pid;
          }
        }
      }
      if !havekids || procs[p].killed {
        return NoChildren, pid;
      }
      return KeepWaiting, pid;
    }

    /** kill: mark the first slot with that pid and rouse it if it sleeps. */
    method Kill(pid: int) returns (r: int)
      modifies procs
      ensures r == -1 <==> forall i :: 0 <= i < procs.Length ==> old(procs[i].pid) != pid
      ensures r == -1 ==> procs[..] == old(procs[..])
      ensures r != -1 ==> 0 <= r < procs.Length && old(procs[r].pid) == pid && (forall i :: 0 <= i < r ==> old(procs[i].pid) != pid)
      ensures r != -1 ==> procs[..] == old(procs[..])[r := Killed(old(procs[r]))]
      ensures procs[..] == KillTable(old(procs[..]), pid)
    {
      for i := 0 to procs.Length
        invariant procs[..] == old(procs[..])
        invariant forall j :: 0 <= j < i ==> procs[j].pid != pid
      {
        if procs[i].pid == pid {
          procs[i] := procs[i].(killed := true);
          if procs[i].state == SLEEPING {
            procs[i] := procs[i].(state := RUNNABLE);
          }
          return i;
        }
      }
      return -1;
    }
  }

  // One more slot of exit's loop.
  lemma HandoverStep(ps: Table, p: int, init: int, i: nat)
    requires i < |ps|
    ensures var h, h' := Handover(ps, p, init, i), Handover(ps, p, init, i + 1);
      |h| == |ps| &&
      h' == if ps[i].parent != p then h
            else if ps[i].state != ZOMBIE then h[i := h[i].(parent := init)]
            else WakeAll(h[i := h[i].(parent := init)], OfSlot(init))
  {
    assert ZombieChild(ps, p, i + 1) <==> ZombieChild(ps, p, i) || (ps[i].parent == p && ps[i].state == ZOMBIE);
  }
}
