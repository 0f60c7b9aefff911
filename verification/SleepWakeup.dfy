/** sleep and wakeup of proc.c, lock by lock, for any number of processes that share one
    condition, the lock lk that guards it, and one wait channel. */
module SleepWakeup {

  const FREE := -1

  /** Where a process is.
      Crit: holds lk; owes: it has made the condition true and not yet called wakeup.
      Outside: has released lk but still owes the wakeup.
      GotPt, Parked: inside sleep, holding both locks, then only ptable.lock.
      Asleep, Woken: SLEEPING on the channel, RUNNABLE again.
      WantLk: back from sched, about to take lk again.
      Waking: inside wakeup with ptable.lock, at slot w of wakeup1's loop. */
  datatype Pc = Idle | Crit(owes: bool) | Outside | GotPt | Parked | Asleep | Woken | WantLk | Waking(crit: bool, w: int)

  datatype State = State(lk: int, pt: int, cond: bool, pcs: seq<Pc>)

  datatype Step =
    | Acquire(i: int)
    | Release(i: int)
    | MakeTrue(i: int)
    | MakeFalse(i: int)
    | Sleep(i: int)     // found the condition false: take ptable.lock
    | DropLk(i: int)
    | Park(i: int)      // SLEEPING; the scheduler releases ptable.lock
    | Wakeup(i: int)    // take ptable.lock
    | WakeSlot(i: int)
    | WakeEnd(i: int)
    | Rouse(i: int)     // kill wakes a sleeper for another reason
    | Resume(i: int)

  predicate At(s: State, i: int) {
    0 <= i < |s.pcs|
  }

  predicate Enabled(s: State, st: Step) {
    At(s, st.i) && var pc := s.pcs[st.i]; match st
      case Acquire(i) => (pc == Idle || pc == WantLk) && s.lk == FREE
      case Release(i) => pc.Crit?
      case MakeTrue(i) => pc.Crit?
      case MakeFalse(i) => pc.Crit?
      case Sleep(i) => pc == Crit(false) && !s.cond && s.pt == FREE
      case DropLk(i) => pc == GotPt
      case Park(i) => pc == Parked
      case Wakeup(i) => (pc.Crit? || pc == Outside) && s.pt == FREE
      case WakeSlot(i) => pc.Waking? && 0 <= pc.w < |s.pcs|
      case WakeEnd(i) => pc.Waking? && pc.w == |s.pcs|
      case Rouse(i) => pc == Asleep && s.pt == FREE
      case Resume(i) => pc == Woken && s.pt == FREE
  }

  function Go(s: State, i: int, pc: Pc): State
    requires At(s, i)
  {
    s.(pcs := s.pcs[i := pc])
  }

  function Do(s: State, st: Step): State
    requires Enabled(s, st)
  {
    match st
    case Acquire(i) => Go(s, i, Crit(false)).(lk := i)
    case Release(i) => Go(s, i, if s.pcs[i].owes then Outside else Idle).(lk := FREE)
    case MakeTrue(i) => Go(s, i, Crit(true)).(cond := true)
    case MakeFalse(i) => s.(cond := false)
    case Sleep(i) => Go(s, i, GotPt).(pt := i)
    case DropLk(i) => Go(s, i, Parked).(lk := FREE)
    case Park(i) => Go(s, i, Asleep).(pt := FREE)
    case Wakeup(i) => Go(s, i, Waking(s.pcs[i].Crit?, 0)).(pt := i)
    case WakeSlot(i) =>
      var w := s.pcs[i].w;
      var t := if s.pcs[w] == Asleep then Go(s, w, Woken) else s;
      Go(t, i, Waking(s.pcs[i].crit, w + 1))
    case WakeEnd(i) => Go(s, i, if s.pcs[i].crit then Crit(false) else Idle).(pt := FREE)
    case Rouse(i) => Go(s, i, Woken)
    case Resume(i) => Go(s, i, WantLk)
  }

  predicate HasLk(pc: Pc) {
    pc.Crit? || pc == GotPt || (pc.Waking? && pc.crit)
  }

  predicate HasPt(pc: Pc) {
    pc == GotPt || pc == Parked || pc.Waking?
  }

  // pc will still look at slot i and wake it.
  predicate WillWake(pc: Pc, i: int) {
    pc == Crit(true) || pc == Outside || (pc.Waking? && pc.w <= i)
  }

  ghost predicate SomeoneWillWake(s: State, i: int) {
    exists q :: At(s, q) && WillWake(s.pcs[q], i)
  }

  predicate Down(pc: Pc) {
    pc == Asleep || pc == Parked
  }

  /** Locks are exclusive; whoever is about to sleep has seen the condition false under lk; and
      a sleeper for whom the condition is true has a wakeup coming. */
  ghost predicate Inv(s: State) {
    Locks(s) && Wakes(s)
  }

  ghost predicate Locks(s: State) {
    && (forall i :: At(s, i) ==> (HasLk(s.pcs[i]) <==> s.lk == i) && (HasPt(s.pcs[i]) <==> s.pt == i))
    && (s.lk != FREE ==> At(s, s.lk)) && (s.pt != FREE ==> At(s, s.pt))
    && (forall i :: At(s, i) && s.pcs[i] == GotPt ==> !s.cond)
    && (forall i :: At(s, i) && s.pcs[i].Waking? ==> 0 <= s.pcs[i].w <= |s.pcs|)
  }

  ghost predicate Wakes(s: State) {
    forall i :: At(s, i) && Down(s.pcs[i]) && s.cond ==> SomeoneWillWake(s, i)
  }

  ghost predicate Initial(s: State) {
    s.lk == FREE && s.pt == FREE && forall i :: At(s, i) ==> s.pcs[i] == Idle
  }

  // Nobody's view of who will wake whom is lost, except a finished waker's.
  lemma StillWaking(s: State, t: State, i: int)
    requires |t.pcs| == |s.pcs| && SomeoneWillWake(s, i)
    requires forall q :: At(s, q) && WillWake(s.pcs[q], i) ==> WillWake(t.pcs[q], i)
    ensures SomeoneWillWake(t, i)
  {
    var q :| At(s, q) && WillWake(s.pcs[q], i);
    assert At(t, q) && WillWake(t.pcs[q], i);
  }

  predicate OnLk(st: Step) {
    st.Acquire? || st.Release? || st.MakeTrue? || st.MakeFalse? || st.DropLk?
  }

  lemma LkStepKeeps(s: State, st: Step)
    requires Locks(s) && Enabled(s, st) && OnLk(st)
    ensures Locks(Do(s, st))
  {
  }

  lemma PtStepKeeps(s: State, st: Step)
    requires Locks(s) && Enabled(s, st) && !OnLk(st)
    ensures Locks(Do(s, st))
  {
  }

  lemma LocksKept(s: State, st: Step)
    requires Locks(s) && Enabled(s, st)
    ensures Locks(Do(s, st))
  {
    hide *;
    if OnLk(st) {
      LkStepKeeps(s, st);
    } else {
      PtStepKeeps(s, st);
    }
  }

  lemma WakesKept(s: State, st: Step)
    requires Inv(s) && Enabled(s, st)
    ensures Wakes(Do(s, st))
  {
    var t := Do(s, st);
    forall i | At(t, i) && Down(t.pcs[i]) && t.cond ensures SomeoneWillWake(t, i) {
      if st.MakeTrue? {
        assert At(t, st.i) && WillWake(t.pcs[st.i], i);
      } else {
        DownBefore(s, st, i);
        StillWaking(s, t, i);
      }
    }
  }

  lemma DownBefore(s: State, st: Step, i: int)
    requires Inv(s) && Enabled(s, st) && !st.MakeTrue?
    requires At(s, i) && Down(Do(s, st).pcs[i]) && Do(s, st).cond
    ensures Down(s.pcs[i]) && SomeoneWillWake(s, i)
    ensures forall q :: At(s, q) && WillWake(s.pcs[q], i) ==> WillWake(Do(s, st).pcs[q], i)
  {
    hide SomeoneWillWake;
    assert Down(s.pcs[i]);
  }

  lemma StepKeeps(s: State, st: Step)
    requires Inv(s) && Enabled(s, st)
    ensures Inv(Do(s, st))
  {
    LocksKept(s, st);
    WakesKept(s, st);
  }

  /* Whole runs. */

  ghost predicate Moves(s: State, st: Step, t: State) {
    Enabled(s, st) && t == Do(s, st)
  }

  ghost predicate IsRun(ss: seq<State>, sts: seq<Step>) {
    && |ss| == |sts| + 1 && Initial(ss[0])
    && forall i {:trigger sts[i]} :: 0 <= i < |sts| ==> Moves(ss[i], sts[i], ss[i+1])
  }

  // Every process that makes the condition true calls wakeup before it releases lk.
  ghost predicate WakesUnderLock(ss: seq<State>, sts: seq<Step>)
    requires IsRun(ss, sts)
  {
    forall i {:trigger sts[i]} :: 0 <= i < |sts| && sts[i].Release? ==> ss[i].pcs[sts[i].i] == Crit(false)
  }

  lemma {:induction false} RunInv(ss: seq<State>, sts: seq<Step>)
    requires IsRun(ss, sts)
    ensures Inv(ss[|sts|])
    ensures WakesUnderLock(ss, sts) ==> forall i :: At(ss[|sts|], i) ==> ss[|sts|].pcs[i] != Outside && ss[|sts|].pcs[i] != Waking(false, 0) && (ss[|sts|].pcs[i].Waking? ==> ss[|sts|].pcs[i].crit)
  {
    if sts != [] {
      var n := |sts| - 1;
      assert Moves(ss[n], sts[n], ss[n+1]);
      RunInv(ss[..n+1], sts[..n]);
      assert WakesUnderLock(ss, sts) ==> WakesUnderLock(ss[..n+1], sts[..n]);
      StepKeeps(ss[n], sts[n]);
    }
  }

  /** No lost wakeup: for any number of processes and any interleaving, if the condition is made
      true only under lk and wakeup is called before lk is released, then whenever lk is free
      nobody sleeps, or is on the way to sleep, while the condition is true. */
  lemma NoLostWakeup(ss: seq<State>, sts: seq<Step>)
    requires IsRun(ss, sts) && WakesUnderLock(ss, sts)
    ensures var s := ss[|sts|]; s.lk == FREE && s.cond ==> forall i :: At(s, i) ==> !Down(s.pcs[i])
  {
    RunInv(ss, sts);
    var s := ss[|sts|];
    if s.lk == FREE && s.cond {
      forall i | At(s, i) ensures !Down(s.pcs[i]) {
        assert !SomeoneWillWake(s, i);
      }
    }
  }

  /** Calling wakeup only after releasing lk is also safe: a sleeper for whom the condition is
      true always has a wakeup coming that has not passed it yet. */
  lemma LateWakeupIsSafe(ss: seq<State>, sts: seq<Step>, i: int)
    requires IsRun(ss, sts) && At(ss[|sts|], i) && ss[|sts|].pcs[i] == Asleep && ss[|sts|].cond
    ensures SomeoneWillWake(ss[|sts|], i)
  {
    RunInv(ss, sts);
  }
}
