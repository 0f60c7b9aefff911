/** The stride scheduler of proc.c: which process its scan picks, and how the processor is
    shared and waited for over runs of any length. */
module Stride {
  import opened Proc

  predicate Ready(ps: Table, i: int) {
    0 <= i < |ps| && ps[i].state == RUNNABLE
  }

  /** What the scan, with 0 standing for "no minimum yet", settles on among the first k slots:
      every later runnable slot has a larger pass, and an earlier one has a smaller pass only
      if a runnable slot of pass 0 comes in between. */
  ghost predicate Picked(ps: Table, k: int, c: int) {
    && Ready(ps, c) && c < k
    && (forall j :: c < j < k && Ready(ps, j) ==> ps[c].passada != 0 && ps[j].passada > ps[c].passada)
    && (forall j :: 0 <= j < c && Ready(ps, j) && ps[j].passada < ps[c].passada ==> ZeroBetween(ps, j, c))
  }

  ghost predicate ZeroBetween(ps: Table, j: int, c: int) {
    exists z :: j <= z < c && Ready(ps, z) && ps[z].passada == 0
  }

  ghost predicate AnyReady(ps: Table, k: int) {
    exists i :: 0 <= i < k && Ready(ps, i)
  }

  /** The scan of scheduler(). prev is min_proc as the last round left it: nothing resets it. */
  method Scan(ps: Table, prev: int) returns (who: int)
    requires forall i :: Ready(ps, i) ==> ps[i].passada >= 0
    ensures AnyReady(ps, |ps|) ==> Picked(ps, |ps|, who)
    ensures !AnyReady(ps, |ps|) ==> who == prev
  {
    who := prev;
    var min := 0;
    for k := 0 to |ps|
      invariant !AnyReady(ps, k) ==> who == prev && min == 0
      invariant AnyReady(ps, k) ==> Picked(ps, k, who) && min == ps[who].passada
    {
      if ps[k].state == RUNNABLE && (ps[k].passada <= min || min == 0) {
        TakesOver(ps, k, who);
        min := ps[k].passada;
        who := k;
      }
      assert AnyReady(ps, k + 1) <==> AnyReady(ps, k) || Ready(ps, k);
    }
  }

  lemma TakesOver(ps: Table, k: nat, who: int)
    requires k < |ps| && Ready(ps, k) && ps[k].passada >= 0
    requires AnyReady(ps, k) ==> Picked(ps, k, who) && (ps[k].passada <= ps[who].passada || ps[who].passada == 0)
    ensures Picked(ps, k + 1, k)
  {
    forall j | 0 <= j < k && Ready(ps, j) && ps[j].passada < ps[k].passada ensures ZeroBetween(ps, j, k) {
      assert AnyReady(ps, k);
      if ps[who].passada == 0 {
        assert j <= who;
      } else {
        var z :| j <= z < who && Ready(ps, z) && ps[z].passada == 0;
      }
    }
  }

  // The scheduler's choice, when its last one was prev: with no runnable slot the scan keeps it.
  ghost predicate Chooses(ps: Table, prev: int, who: int) {
    if AnyReady(ps, |ps|) then Picked(ps, |ps|, who) else who == prev
  }

  /** What it dispatches is runnable exactly when some slot is. */
  lemma DispatchedIsRunnable(ps: Table, prev: int, who: int)
    requires Chooses(ps, prev, who)
    ensures Ready(ps, who) <==> AnyReady(ps, |ps|)
  {
    assert Ready(ps, who) ==> 0 <= who < |ps|;
  }

  ghost predicate Least(ps: Table, c: int) {
    Ready(ps, c) && forall j :: Ready(ps, j) ==> ps[c].passada <= ps[j].passada
  }

  // No runnable slot has pass 0, or the last runnable slot has.
  ghost predicate ZeroHarmless(ps: Table) {
    || (forall j :: Ready(ps, j) ==> ps[j].passada != 0)
    || (exists c :: Ready(ps, c) && ps[c].passada == 0 && forall j :: Ready(ps, j) ==> j <= c)
  }

  /** The pick has the smallest pass exactly when pass 0 is harmless. */
  lemma PicksLeastIff(ps: Table, c: int)
    requires Picked(ps, |ps|, c) && forall i :: Ready(ps, i) ==> ps[i].passada >= 0
    ensures Least(ps, c) <==> ZeroHarmless(ps)
  {
    if Least(ps, c) && !(forall j :: Ready(ps, j) ==> ps[j].passada != 0) {
      assert forall j :: Ready(ps, j) ==> j <= c;
    }
    if ZeroHarmless(ps) {
      if z :| Ready(ps, z) && ps[z].passada == 0 && forall j :: Ready(ps, j) ==> j <= z {
        assert c == z;
      }
    }
  }

  /** A process forked while others have run starts at pass 0 and can be passed over: the child in
      slot 0 has the smaller pass, the scan picks its parent in slot 1. */
  lemma PassedOver()
    ensures var ps := [Proc(RUNNABLE, 4, 1, NoChan, false, 5, 0), Proc(RUNNABLE, 1, NOBODY, NoChan, false, 400, 400)];
      Picked(ps, 2, 1) && !Least(ps, 1) && forall c :: Picked(ps, 2, c) ==> c == 1
  {
    var ps := [Proc(RUNNABLE, 4, 1, NoChan, false, 5, 0), Proc(RUNNABLE, 1, NOBODY, NoChan, false, 400, 400)];
    assert Ready(ps, 0) && ps[0].passada == 0 && Ready(ps, 1);
  }

  // The choice is charged its stride and runs; without one nothing happens.
  function Dispatched(ps: Table, who: int): Table {
    if 0 <= who < |ps| then ps[who := ps[who].(passada := ps[who].passada + ps[who].passo, state := RUNNING)] else ps
  }

  /** One round of scheduler() on the table, with min_proc as the last round left it. */
  method Dispatch(t: PTable, prev: int) returns (who: int)
    requires forall i :: Ready(t.procs[..], i) ==> t.procs[i].passada >= 0
    requires prev == NOBODY || 0 <= prev < t.procs.Length
    modifies t.procs
    ensures Chooses(old(t.procs[..]), prev, who)
    ensures t.procs[..] == Dispatched(old(t.procs[..]), who)
  {
    who := Scan(t.procs[..], prev);
    if who != NOBODY {
      t.procs[who] := t.procs[who].(passada := t.procs[who].passada + t.procs[who].passo);
      t.procs[who] := t.procs[who].(state := RUNNING);
    }
  }

  /** So a process can be dispatched that is not runnable: when the last choice sleeps and nobody else
      can run, it is chosen again and runs. */
  lemma DispatchesSleeper(pid: int, passo: int, passada: int, c: Chan, who: int)
    requires Chooses([Proc(SLEEPING, pid, NOBODY, c, false, passo, passada)], 0, who)
    ensures var ps := [Proc(SLEEPING, pid, NOBODY, c, false, passo, passada)];
      who == 0 && !Ready(ps, who) && Dispatched(ps, who) == [ps[0].(state := RUNNING, passada := passada + passo)]
  {
  }

  /* Runs on one processor with a fixed set of always runnable processes: each pick is charged
     and is runnable again at the next round. */

  function Charge(ps: Table, c: int): Table {
    if 0 <= c < |ps| then ps[c := ps[c].(passada := ps[c].passada + ps[c].passo)] else ps
  }

  function After(ps: Table, cs: seq<int>): Table {
    if cs == [] then ps else Charge(After(ps, cs[..|cs|-1]), cs[|cs|-1])
  }

  // cs are the picks of a run from ps.
  ghost predicate IsRun(ps: Table, cs: seq<int>) {
    forall t :: 0 <= t < |cs| ==> Picked(After(ps, cs[..t]), |ps|, cs[t])
  }

  ghost predicate Sane(ps: Table) {
    forall i :: Ready(ps, i) ==> ps[i].passada >= 0 && ps[i].passo > 0
  }

  // No runnable slot has pass 0, but perhaps the last one.
  ghost predicate Steady(ps: Table) {
    Sane(ps) && forall i, j :: Ready(ps, i) && ps[i].passada == 0 && Ready(ps, j) ==> j <= i
  }

  lemma SteadyPicksLeast(ps: Table, c: int)
    requires Steady(ps) && Picked(ps, |ps|, c)
    ensures Least(ps, c) && forall j :: Ready(ps, j) && ps[j].passada == ps[c].passada ==> j <= c
  {
    if z :| Ready(ps, z) && ps[z].passada == 0 {
      assert c == z;
    }
  }

  function Count(cs: seq<int>, i: int): nat {
    if cs == [] then 0 else Count(cs[..|cs|-1], i) + if cs[|cs|-1] == i then 1 else 0
  }

  /** A pass is its first value plus one stride for each dispatch. */
  lemma {:induction false} PassAfter(ps: Table, cs: seq<int>, i: nat)
    requires i < |ps|
    ensures |After(ps, cs)| == |ps|
    ensures After(ps, cs)[i] == ps[i].(passada := ps[i].passada + Count(cs, i) * ps[i].passo)
  {
    if cs != [] {
      PassAfter(ps, cs[..|cs|-1], i);
      var n, s := Count(cs[..|cs|-1], i), ps[i].passo;
      assert (n + 1) * s == n * s + s;
    }
  }

  lemma SteadyAfter(ps: Table, cs: seq<int>)
    requires Steady(ps)
    ensures |After(ps, cs)| == |ps| && Steady(After(ps, cs))
    ensures forall i :: Ready(After(ps, cs), i) <==> Ready(ps, i)
    ensures forall i :: 0 <= i < |ps| ==> After(ps, cs)[i].passo == ps[i].passo
  {
    if |ps| == 0 {
      EmptyAfter(ps, cs);
    }
    forall i | 0 <= i < |ps|
      ensures |After(ps, cs)| == |ps| && After(ps, cs)[i].passo == ps[i].passo && (Ready(After(ps, cs), i) <==> Ready(ps, i))
      ensures Ready(ps, i) ==> After(ps, cs)[i].passada >= ps[i].passada
    {
      PassAfter(ps, cs, i);
      if Ready(ps, i) {
        assert Count(cs, i) * ps[i].passo >= 0;
      }
    }
  }

  lemma {:induction false} EmptyAfter(ps: Table, cs: seq<int>)
    requires |ps| == 0
    ensures After(ps, cs) == ps
  {
    if cs != [] {
      EmptyAfter(ps, cs[..|cs|-1]);
    }
  }

  // No two runnable passes are more than b apart.
  ghost predicate Gap(ps: Table, b: int) {
    forall i, j :: Ready(ps, i) && Ready(ps, j) ==> ps[i].passada - ps[j].passada <= b
  }

  lemma GapKept(ps: Table, c: int, b: int)
    requires Steady(ps) && Picked(ps, |ps|, c) && Gap(ps, b) && forall i :: Ready(ps, i) ==> ps[i].passo <= b
    ensures Gap(Charge(ps, c), b)
  {
    var qs := Charge(ps, c);
    SteadyPicksLeast(ps, c);
    forall i, j | Ready(qs, i) && Ready(qs, j) ensures qs[i].passada - qs[j].passada <= b {
      assert Ready(ps, i) && Ready(ps, j);
    }
  }

  lemma {:induction false} GapAfter(ps: Table, cs: seq<int>, b: int)
    requires Steady(ps) && IsRun(ps, cs) && Gap(ps, b) && forall i :: Ready(ps, i) ==> ps[i].passo <= b
    ensures Gap(After(ps, cs), b)
  {
    if cs != [] {
      var n := |cs| - 1;
      PrefixRun(ps, cs, n);
      GapAfter(ps, cs[..n], b);
      SteadyAfter(ps, cs[..n]);
      GapKept(After(ps, cs[..n]), cs[n], b);
    }
  }

  lemma PrefixRun(ps: Table, cs: seq<int>, n: nat)
    requires IsRun(ps, cs) && n <= |cs|
    ensures IsRun(ps, cs[..n])
  {
    assert forall t :: 0 <= t < n ==> cs[..n][..t] == cs[..t];
  }

  function Max(a: int, b: int): int {
    if a < b then b else a
  }

  lemma SteadyFairness(ps: Table, cs: seq<int>, g: int, s: int, i: int, j: int)
    requires Steady(ps) && IsRun(ps, cs) && Gap(ps, g) && forall k :: Ready(ps, k) ==> ps[k].passo <= s
    requires Ready(ps, i) && Ready(ps, j)
    ensures Gap(After(ps, cs), Max(g, s))
    ensures Count(cs, i) * ps[i].passo - Count(cs, j) * ps[j].passo <= g + Max(g, s)
  {
    GapAfter(ps, cs, Max(g, s));
    SteadyAfter(ps, cs);
    PassAfter(ps, cs, i);
    PassAfter(ps, cs, j);
  }

  /* Waiting. */

  // j comes before i: smaller pass, or the same pass in a higher slot.
  predicate Before(ps: Table, j: int, i: int)
    requires 0 <= i < |ps|
  {
    Ready(ps, j) && (ps[j].passada < ps[i].passada || (ps[j].passada == ps[i].passada && j > i))
  }

  // How often j is dispatched before i is.
  function Need(ps: Table, i: int, j: int): int
    requires 0 <= i < |ps|
  {
    if j == i || !Ready(ps, j) || ps[j].passo <= 0 then 0
    else
      var d := ps[i].passada - ps[j].passada;
      if !Before(ps, j, i) then 0
      else if j > i then d / ps[j].passo + 1
      else (d - 1) / ps[j].passo + 1
  }

  function Wait(ps: Table, i: int, k: nat): int
    requires 0 <= i < |ps|
  {
    if k == 0 then 0 else Wait(ps, i, k - 1) + Need(ps, i, k - 1)
  }

  lemma NeedSign(ps: Table, i: int, j: int)
    requires Steady(ps) && Ready(ps, i)
    ensures Need(ps, i, j) >= 0
    ensures Need(ps, i, j) == 0 <==> j == i || !Before(ps, j, i)
  {
    if j != i && Before(ps, j, i) {
      var d, s := ps[i].passada - ps[j].passada, ps[j].passo;
      DivSign(d, s);
      if j < i {
        DivSign(d - 1, s);
      }
    }
  }

  lemma DivSign(d: int, s: int)
    requires d >= 0 && s > 0
    ensures d / s >= 0
  {
  }

  // One dispatch of j takes one off what it needs.
  lemma NeedLess(ps: Table, i: int, j: int)
    requires Steady(ps) && Ready(ps, i) && j != i && Before(ps, j, i)
    ensures Need(Charge(ps, j), i, j) == Need(ps, i, j) - 1
  {
    var d, s := ps[i].passada - ps[j].passada, ps[j].passo;
    var e := if j > i then d else d - 1;
    DivLess(e, s);
    var qs := Charge(ps, j);
    assert qs[i].passada - qs[j].passada == d - s && qs[j].passo == s && Ready(qs, j);
    assert Before(qs, j, i) <==> e >= s;
  }

  lemma DivLess(e: int, s: int)
    requires 0 < s && 0 <= e
    ensures e < s ==> e / s == 0
    ensures e >= s ==> (e - s) / s + 1 == e / s
  {
    if e < s {
      DivUnique(e, s, 0, e);
    } else {
      var q, r := (e - s) / s, (e - s) % s;
      MulNext(s, q);
      DivUnique(e, s, q + 1, r);
    }
  }

  lemma MulNext(s: int, q: int)
    ensures s * (q + 1) == s * q + s
  {
  }

  lemma MulLe(s: int, a: int, b: int)
    requires 0 <= s && a <= b
    ensures s * a <= s * b
  {
    assert s * (b - a) >= 0;
  }

  lemma DivUnique(e: int, s: int, q: int, r: int)
    requires 0 < s && e == s * q + r && 0 <= r < s
    ensures e / s == q
  {
    if e / s > q {
      MulLe(s, q + 1, e / s);
    } else if e / s < q {
      MulLe(s, e / s + 1, q);
    }
  }

  lemma {:induction false} WaitSum(ps: Table, i: int, k: nat)
    requires Steady(ps) && Ready(ps, i) && k <= |ps|
    ensures Wait(ps, i, k) >= 0
    ensures Wait(ps, i, k) == 0 <==> forall j :: 0 <= j < k && j != i ==> !Before(ps, j, i)
  {
    if k > 0 {
      WaitSum(ps, i, k - 1);
      NeedSign(ps, i, k - 1);
    }
  }

  lemma {:induction false} WaitLess(ps: Table, i: int, c: int, k: nat)
    requires Steady(ps) && Ready(ps, i) && c != i && Before(ps, c, i) && k <= |ps|
    ensures Wait(Charge(ps, c), i, k) == Wait(ps, i, k) - if c < k then 1 else 0
  {
    if k > 0 {
      WaitLess(ps, i, c, k - 1);
      if c == k - 1 {
        NeedLess(ps, i, c);
      } else {
        assert Need(Charge(ps, c), i, k - 1) == Need(ps, i, k - 1);
      }
    }
  }

  // i is picked exactly when nobody comes before it.
  lemma PickOrder(ps: Table, i: int, c: int)
    requires Steady(ps) && Ready(ps, i) && Picked(ps, |ps|, c)
    ensures c == i <==> Wait(ps, i, |ps|) == 0
    ensures c != i ==> Before(ps, c, i)
  {
    WaitSum(ps, i, |ps|);
    SteadyPicksLeast(ps, c);
    if c != i {
      assert Before(ps, c, i);
    } else {
      assert forall j :: 0 <= j < |ps| && j != i ==> !Before(ps, j, i);
    }
  }

  lemma {:induction false} WaitCountdown(ps: Table, cs: seq<int>, i: int, t: nat)
    requires Steady(ps) && IsRun(ps, cs) && Ready(ps, i) && t <= |cs| && t <= Wait(ps, i, |ps|)
    ensures i !in cs[..t] && |After(ps, cs[..t])| == |ps| && Wait(After(ps, cs[..t]), i, |ps|) == Wait(ps, i, |ps|) - t
  {
    hide Wait, Before, Picked, After;
    if t == 0 {
      NoneAfter(ps);
      assert cs[..0] == [];
    } else {
      var p, c := cs[..t-1], cs[t-1];
      WaitCountdown(ps, cs, i, t - 1);
      SteadyAfter(ps, p);
      PickOrder(After(ps, p), i, c);
      WaitLess(After(ps, p), i, c, |ps|);
      MoreAfter(ps, p, c);
      assert cs[..t] == p + [c];
    }
  }

  lemma NoneAfter(ps: Table)
    ensures After(ps, []) == ps
  {
  }

  lemma MoreAfter(ps: Table, cs: seq<int>, c: int)
    ensures After(ps, cs + [c]) == Charge(After(ps, cs), c)
  {
    assert (cs + [c])[..|cs|] == cs;
  }

  lemma SteadyWait(ps: Table, cs: seq<int>, i: int)
    requires Steady(ps) && IsRun(ps, cs) && Ready(ps, i)
    ensures var w := Wait(ps, i, |ps|);
      if |cs| <= w then i !in cs else 0 <= w < |cs| && cs[w] == i && i !in cs[..w]
  {
    var w := Wait(ps, i, |ps|);
    WaitSum(ps, i, |ps|);
    if |cs| <= w {
      WaitCountdown(ps, cs, i, |cs|);
      assert cs[..|cs|] == cs;
    } else {
      WaitCountdown(ps, cs, i, w);
      SteadyAfter(ps, cs[..w]);
      assert Picked(After(ps, cs[..w]), |ps|, cs[w]);
      PickOrder(After(ps, cs[..w]), i, cs[w]);
    }
  }

  // The sum, over the processes whose pass is not larger, of (pass_i - pass_j)/passo_j + 1.
  function WaitBound(ps: Table, i: int, k: nat): int
    requires 0 <= i < |ps|
  {
    if k == 0 then 0
    else WaitBound(ps, i, k - 1)
         + if k - 1 != i && Ready(ps, k - 1) && ps[k-1].passo > 0 && ps[k-1].passada <= ps[i].passada
           then (ps[i].passada - ps[k-1].passada) / ps[k-1].passo + 1 else 0
  }

  lemma {:induction false} WaitAtMost(ps: Table, i: int, k: nat)
    requires Steady(ps) && Ready(ps, i) && k <= |ps|
    ensures Wait(ps, i, k) <= WaitBound(ps, i, k)
  {
    if k > 0 {
      WaitAtMost(ps, i, k - 1);
      var j := k - 1;
      if j != i && Ready(ps, j) && ps[j].passada <= ps[i].passada {
        var d, s := ps[i].passada - ps[j].passada, ps[j].passo;
        DivSign(d, s);
        if j < i && d > 0 {
          DivMono(d - 1, d, s);
        }
      }
    }
  }

  lemma DivMono(a: int, b: int, s: int)
    requires 0 <= a <= b && 0 < s
    ensures a / s <= b / s
  {
    if a / s > b / s {
      MulLe(s, b / s + 1, a / s);
    }
  }

  /* Any table: who is behind a pass of 0 and who is not. */

  // z has pass 0, so the scan starts over behind it, and there is somebody there, k.
  predicate StartsOver(ps: Table, z: int, k: int) {
    Ready(ps, z) && Ready(ps, k) && z < k && ps[z].passada == 0
  }

  ghost predicate Blocked(ps: Table, i: int) {
    exists z, k :: StartsOver(ps, z, k) && i <= z
  }

  // The processes that are not blocked.
  ghost function Served(ps: Table): Table {
    seq(|ps|, i requires 0 <= i < |ps| => if Blocked(ps, i) then ps[i].(state := UNUSED) else ps[i])
  }

  lemma ServedReady(ps: Table, i: int)
    ensures Ready(Served(ps), i) <==> Ready(ps, i) && !Blocked(ps, i)
    ensures Ready(Served(ps), i) ==> Served(ps)[i] == ps[i]
  {
  }

  lemma ServedIsSteady(ps: Table)
    requires Sane(ps)
    ensures Steady(Served(ps))
  {
    forall i ensures Ready(Served(ps), i) <==> Ready(ps, i) && !Blocked(ps, i) {
      ServedReady(ps, i);
    }
    forall i, j | Ready(Served(ps), i) && ps[i].passada == 0 && Ready(Served(ps), j) ensures j <= i {
      assert !StartsOver(ps, i, j);
    }
  }

  lemma PickIsBehind(ps: Table, c: int, z: int, k: int)
    requires Sane(ps) && Picked(ps, |ps|, c) && StartsOver(ps, z, k)
    ensures z < c
  {
  }

  lemma PickIsServed(ps: Table, c: int)
    requires Sane(ps) && Picked(ps, |ps|, c)
    ensures !Blocked(ps, c) && Picked(Served(ps), |ps|, c)
  {
    forall z, k | StartsOver(ps, z, k) ensures z < c {
      PickIsBehind(ps, c, z, k);
    }
    var qs := Served(ps);
    forall i ensures Ready(qs, i) <==> Ready(ps, i) && !Blocked(ps, i) {
      ServedReady(ps, i);
    }
    forall j | 0 <= j < c && Ready(qs, j) ensures ps[j].passada >= ps[c].passada {
      if ps[j].passada < ps[c].passada {
        var z :| j <= z < c && Ready(ps, z) && ps[z].passada == 0;
        assert StartsOver(ps, z, c);
      }
    }
  }

  lemma BlockedStays(ps: Table, c: int, i: int)
    requires Sane(ps) && Picked(ps, |ps|, c)
    ensures Blocked(Charge(ps, c), i) <==> Blocked(ps, i)
  {
    PickIsServed(ps, c);
    if z, k :| StartsOver(ps, z, k) && i <= z {
      assert z != c;
      assert StartsOver(Charge(ps, c), z, k);
    }
    if z, k :| StartsOver(Charge(ps, c), z, k) && i <= z {
      assert StartsOver(ps, z, k);
    }
  }

  lemma ChargeServed(ps: Table, c: int)
    requires Sane(ps) && Picked(ps, |ps|, c)
    ensures Sane(Charge(ps, c)) && Served(Charge(ps, c)) == Charge(Served(ps), c)
  {
    PickIsServed(ps, c);
    forall i ensures Blocked(Charge(ps, c), i) <==> Blocked(ps, i) {
      BlockedStays(ps, c, i);
    }
  }

  /** A run is a run of the processes that are not blocked: no other is ever dispatched. */
  lemma {:induction false} ServedRun(ps: Table, cs: seq<int>)
    requires Sane(ps) && IsRun(ps, cs)
    ensures IsRun(Served(ps), cs) && After(Served(ps), cs) == Served(After(ps, cs)) && Sane(After(ps, cs)) && |After(ps, cs)| == |ps|
    ensures forall t :: 0 <= t < |cs| ==> !Blocked(ps, cs[t])
    decreases |cs|
  {
    if cs != [] {
      var n := |cs| - 1;
      var qs := After(ps, cs[..n]);
      PrefixRun(ps, cs, n);
      ServedRun(ps, cs[..n]);
      assert Picked(qs, |ps|, cs[n]);
      PickIsServed(qs, cs[n]);
      ChargeServed(qs, cs[n]);
      BlockedAfter(ps, cs[..n], cs[n]);
      hide Served, Picked, Blocked, After, Sane;
      LongerRun(Served(ps), cs, n);
      MoreAfter(ps, cs[..n], cs[n]);
      MoreAfter(Served(ps), cs[..n], cs[n]);
      assert cs == cs[..n] + [cs[n]];
    }
  }

  lemma LongerRun(ps: Table, cs: seq<int>, n: nat)
    requires n + 1 == |cs| && IsRun(ps, cs[..n]) && Picked(After(ps, cs[..n]), |ps|, cs[n])
    ensures IsRun(ps, cs)
  {
    hide Picked, After;
    forall t | 0 <= t < |cs| ensures Picked(After(ps, cs[..t]), |ps|, cs[t]) {
      if t < n {
        assert cs[..n][..t] == cs[..t] && cs[..n][t] == cs[t];
      }
    }
  }

  lemma {:induction false} BlockedAfter(ps: Table, cs: seq<int>, i: int)
    requires Sane(ps) && IsRun(ps, cs)
    ensures Blocked(After(ps, cs), i) <==> Blocked(ps, i)
    decreases |cs|
  {
    if cs != [] {
      var n := |cs| - 1;
      PrefixRun(ps, cs, n);
      BlockedAfter(ps, cs[..n], i);
      SaneAfter(ps, cs[..n]);
      BlockedStays(After(ps, cs[..n]), cs[n], i);
    }
  }

  lemma SaneAfter(ps: Table, cs: seq<int>)
    requires Sane(ps)
    ensures Sane(After(ps, cs)) && |After(ps, cs)| == |ps|
  {
    if |ps| == 0 {
      EmptyAfter(ps, cs);
    }
    forall i | 0 <= i < |ps| ensures |After(ps, cs)| == |ps| && (Ready(After(ps, cs), i) ==> After(ps, cs)[i].passada >= 0 && After(ps, cs)[i].passo > 0) {
      PassAfter(ps, cs, i);
      if Ready(ps, i) {
        assert Count(cs, i) * ps[i].passo >= 0;
      }
    }
  }

  /** Waiting is exact, from every table and in runs of any length: a blocked process is never
      dispatched, and any other for the first time after exactly Wait dispatches of others. */
  lemma ExactWait(ps: Table, cs: seq<int>, i: int)
    requires Sane(ps) && IsRun(ps, cs) && Ready(ps, i)
    ensures Blocked(ps, i) ==> i !in cs
    ensures !Blocked(ps, i) ==> var w := Wait(Served(ps), i, |ps|);
      if |cs| <= w then i !in cs else 0 <= w < |cs| && cs[w] == i && i !in cs[..w]
  {
    ServedRun(ps, cs);
    ServedIsSteady(ps);
    ServedReady(ps, i);
    if !Blocked(ps, i) {
      SteadyWait(Served(ps), cs, i);
    }
  }

  /** Starvation: in runs longer than the waiting bound a runnable process is dispatched if and only
      if no pass of 0 stands in its slot or behind it with a runnable slot still further on. */
  lemma StarvedIff(ps: Table, cs: seq<int>, i: int)
    requires Sane(ps) && IsRun(ps, cs) && Ready(ps, i) && |cs| > WaitBound(Served(ps), i, |ps|)
    ensures i in cs <==> !Blocked(ps, i)
  {
    ExactWait(ps, cs, i);
    if !Blocked(ps, i) {
      ServedIsSteady(ps);
      ServedReady(ps, i);
      WaitAtMost(Served(ps), i, |ps|);
    }
  }

  /** A positive and smaller pass does not help: slot 0 is behind the pass of 0 in slot 1. */
  lemma StarvedBehindZero(cs: seq<int>)
    requires IsRun([Proc(RUNNABLE, 4, 2, NoChan, false, 5, 100), Proc(RUNNABLE, 5, 2, NoChan, false, 5, 0), Proc(RUNNABLE, 1, NOBODY, NoChan, false, 400, 500)], cs)
    ensures 0 !in cs && 1 !in cs
  {
    var ps := [Proc(RUNNABLE, 4, 2, NoChan, false, 5, 100), Proc(RUNNABLE, 5, 2, NoChan, false, 5, 0), Proc(RUNNABLE, 1, NOBODY, NoChan, false, 400, 500)];
    assert StartsOver(ps, 1, 2);
    ExactWait(ps, cs, 0);
    ExactWait(ps, cs, 1);
  }

  /** Stride fairness, from every table: over a run of any length from passes at most g apart, the
      service two processes that are not blocked get, weighted by their strides, differs by at most g
      plus the larger of g and the largest stride. */
  lemma Fairness(ps: Table, cs: seq<int>, g: int, s: int, i: int, j: int)
    requires Sane(ps) && IsRun(ps, cs) && Gap(Served(ps), g) && forall k :: Ready(ps, k) && !Blocked(ps, k) ==> ps[k].passo <= s
    requires Ready(ps, i) && Ready(ps, j) && !Blocked(ps, i) && !Blocked(ps, j)
    ensures Gap(Served(After(ps, cs)), Max(g, s))
    ensures Count(cs, i) * ps[i].passo - Count(cs, j) * ps[j].passo <= g + Max(g, s)
  {
    ServedRun(ps, cs);
    ServedIsSteady(ps);
    forall k ensures Ready(Served(ps), k) <==> Ready(ps, k) && !Blocked(ps, k) {
      ServedReady(ps, k);
    }
    SteadyFairness(Served(ps), cs, g, s, i, j);
  }
}
