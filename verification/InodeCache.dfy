/** The inode cache of fs.c: iget, idup, ilock, iunlock, iput and ialloc over shared slots, as a
    machine whose steps are the sections they run under icache.lock, or under an inode's own lock. */
module InodeCache {

  datatype DInode = DInode(free: bool, nlink: nat)

  /** owner is the reference that has set I_BUSY, or NOBODY. */
  datatype Slot = Slot(inum: nat, ref: nat, owner: int, valid: bool, copy: DInode)

  const NOBODY := -1

  /** One reference each: none; an inode allocated on disk and not yet looked up; a reference to
      slot k; one that has set I_BUSY and not read the inode yet; one that holds the lock; one inside
      iput that is freeing the inode, before and after it has been freed on disk. */
  datatype Task = None | Fresh(inum: nat) | Ref(k: nat) | Locking(k: nat) | Locked(k: nat) | Freeing(k: nat) | Freed(k: nat)

  datatype State = State(disk: seq<DInode>, slots: seq<Slot>, tasks: seq<Task>)

  datatype Step =
    | IGet(t: nat, inum: nat)
    | AllocMark(t: nat, inum: nat)
    | AllocGet(t: nat)
    | IDup(t: nat, u: nat)
    | ILock(t: nat)
    | Load(t: nat)
    | SetLinks(t: nat, nlink: nat)
    | IUnlock(t: nat)
    | IPut(t: nat)
    | FreeDisk(t: nat)
    | FreeDone(t: nat)

  predicate Uses(x: Task, k: nat) {
    (x.Ref? || x.Locking? || x.Locked? || x.Freeing? || x.Freed?) && x.k == k
  }

  predicate Owns(x: Task, k: nat) {
    Uses(x, k) && !x.Ref?
  }

  function Count(ts: seq<Task>, k: nat): nat {
    if ts == [] then 0 else Count(ts[..|ts|-1], k) + if Uses(ts[|ts|-1], k) then 1 else 0
  }

  lemma {:induction false} CountUpdate(ts: seq<Task>, i: nat, x: Task, k: nat)
    requires i < |ts|
    ensures Count(ts[i := x], k) + (if Uses(ts[i], k) then 1 else 0) == Count(ts, k) + (if Uses(x, k) then 1 else 0)
  {
    var n := |ts| - 1;
    if i < n {
      CountUpdate(ts[..n], i, x, k);
      assert ts[i := x][..n] == ts[..n][i := x];
    } else {
      assert ts[i := x][..n] == ts[..n];
    }
  }

  lemma {:induction false} CountOne(ts: seq<Task>, k: nat, i: nat)
    requires i < |ts| && Uses(ts[i], k)
    ensures Count(ts, k) >= 1
  {
    if i < |ts| - 1 {
      CountOne(ts[..|ts|-1], k, i);
    }
  }

  lemma CountTwo(ts: seq<Task>, k: nat, i: nat, j: nat)
    requires i < |ts| && j < |ts| && i != j && Uses(ts[i], k) && Uses(ts[j], k)
    ensures Count(ts, k) >= 2
  {
    CountUpdate(ts, i, None, k);
    CountOne(ts[i := None], k, j);
  }

  /* iget. */

  predicate Hit(x: Slot, inum: nat) {
    x.ref > 0 && x.inum == inum
  }

  function Find(slots: seq<Slot>, inum: nat, from: nat): (k: nat)
    requires from <= |slots|
    ensures from <= k <= |slots| && (k < |slots| ==> Hit(slots[k], inum))
    ensures forall j :: from <= j < k ==> !Hit(slots[j], inum)
    decreases |slots| - from
  {
    if from == |slots| || Hit(slots[from], inum) then from else Find(slots, inum, from + 1)
  }

  function FirstEmpty(slots: seq<Slot>, from: nat): (k: nat)
    requires from <= |slots|
    ensures from <= k <= |slots| && (k < |slots| ==> slots[k].ref == 0)
    ensures forall j :: from <= j < k ==> slots[j].ref > 0
    decreases |slots| - from
  {
    if from == |slots| || slots[from].ref == 0 then from else FirstEmpty(slots, from + 1)
  }

  // The slot iget settles on; the end when the cache is full, where the kernel stops.
  function Where(slots: seq<Slot>, inum: nat): nat {
    var k := Find(slots, inum, 0);
    if k < |slots| then k else FirstEmpty(slots, 0)
  }

  function Got(slots: seq<Slot>, inum: nat): seq<Slot>
    requires Where(slots, inum) < |slots|
  {
    var k := Where(slots, inum);
    var x := slots[k];
    slots[k := if Hit(x, inum) then Slot(x.inum, x.ref + 1, x.owner, x.valid, x.copy) else Slot(inum, 1, NOBODY, false, x.copy)]
  }

  /** The loop of iget, which remembers the first empty slot as it looks for the inode. */
  method Scan(slots: seq<Slot>, inum: nat) returns (k: nat)
    ensures k == Where(slots, inum)
  {
    var empty := |slots|;
    k := 0;
    while k < |slots|
      invariant k <= |slots| && Find(slots, inum, 0) == Find(slots, inum, k)
      invariant empty == if FirstEmpty(slots, 0) < k then FirstEmpty(slots, 0) else |slots|
    {
      if slots[k].ref > 0 && slots[k].inum == inum {
        return;
      }
      if empty == |slots| && slots[k].ref == 0 {
        empty := k;
      }
      k := k + 1;
    }
    k := empty;
  }

  /* Steps. */

  predicate Holds(s: State, t: nat) {
    t < |s.tasks| && (s.tasks[t].Ref? || s.tasks[t].Locking? || s.tasks[t].Locked? || s.tasks[t].Freeing? || s.tasks[t].Freed?) && s.tasks[t].k < |s.slots|
  }

  // A lookup by number may find anything: the entry it comes from may be the ".." of a removed directory.
  predicate Enabled(s: State, st: Step) {
    && st.t < |s.tasks|
    && match st
       case IGet(t, n) => s.tasks[t].None? && n < |s.disk| && Where(s.slots, n) < |s.slots|
       case AllocMark(t, n) => s.tasks[t].None? && n < |s.disk| && s.disk[n].free
       case AllocGet(t) => s.tasks[t].Fresh? && Where(s.slots, s.tasks[t].inum) < |s.slots|
       case IDup(t, u) => Holds(s, t) && (s.tasks[t].Ref? || s.tasks[t].Locked?) && u < |s.tasks| && s.tasks[u].None?
       case ILock(t) => Holds(s, t) && s.tasks[t].Ref? && s.slots[s.tasks[t].k].owner == NOBODY
       case Load(t) => Holds(s, t) && s.tasks[t].Locking? && s.slots[s.tasks[t].k].inum < |s.disk|
       case SetLinks(t, _) => Holds(s, t) && s.tasks[t].Locked? && s.slots[s.tasks[t].k].inum < |s.disk|
       case IUnlock(t) => Holds(s, t) && s.tasks[t].Locked?
       case IPut(t) => Holds(s, t) && s.tasks[t].Ref? && s.slots[s.tasks[t].k].ref > 0
       case FreeDisk(t) => Holds(s, t) && s.tasks[t].Freeing? && s.slots[s.tasks[t].k].inum < |s.disk|
       case FreeDone(t) => Holds(s, t) && s.tasks[t].Freed? && s.slots[s.tasks[t].k].ref > 0
  }

  function At(s: State, t: nat, x: Task): State
    requires t < |s.tasks|
  {
    State(s.disk, s.slots, s.tasks[t := x])
  }

  function WithSlot(s: State, k: nat, x: Slot): State
    requires k < |s.slots|
  {
    State(s.disk, s.slots[k := x], s.tasks)
  }

  function WithDisk(s: State, n: nat, d: DInode): State
    requires n < |s.disk|
  {
    State(s.disk[n := d], s.slots, s.tasks)
  }

  // iput frees the inode when it drops the last reference to one without links.
  predicate LastPut(x: Slot) {
    x.ref == 1 && x.valid && x.copy.nlink == 0
  }

  function Do(s: State, st: Step): State
    requires Enabled(s, st)
  {
    match st
    case IGet(t, n) => At(State(s.disk, Got(s.slots, n), s.tasks), t, Ref(Where(s.slots, n)))
    case AllocMark(t, n) => At(WithDisk(s, n, DInode(false, 0)), t, Fresh(n))
    case AllocGet(t) => At(State(s.disk, Got(s.slots, s.tasks[t].inum), s.tasks), t, Ref(Where(s.slots, s.tasks[t].inum)))
    case IDup(t, u) =>
      var k := s.tasks[t].k;
      At(WithSlot(s, k, s.slots[k].(ref := s.slots[k].ref + 1)), u, Ref(k))
    case ILock(t) =>
      var k := s.tasks[t].k;
      At(WithSlot(s, k, s.slots[k].(owner := t)), t, Locking(k))
    case Load(t) =>
      var k := s.tasks[t].k;
      At(if s.slots[k].valid then s else WithSlot(s, k, s.slots[k].(valid := true, copy := s.disk[s.slots[k].inum])), t, Locked(k))
    case SetLinks(t, n) =>
      var x := s.slots[s.tasks[t].k];
      WithDisk(WithSlot(s, s.tasks[t].k, x.(copy := DInode(x.copy.free, n))), x.inum, DInode(x.copy.free, n))
    case IUnlock(t) =>
      var k := s.tasks[t].k;
      At(WithSlot(s, k, s.slots[k].(owner := NOBODY)), t, Ref(k))
    case IPut(t) =>
      var k := s.tasks[t].k;
      if LastPut(s.slots[k]) then At(WithSlot(s, k, s.slots[k].(owner := t)), t, Freeing(k))
      else At(WithSlot(s, k, s.slots[k].(ref := s.slots[k].ref - 1)), t, None)
    case FreeDisk(t) =>
      var k := s.tasks[t].k;
      At(WithDisk(WithSlot(s, k, s.slots[k].(copy := DInode(true, 0))), s.slots[k].inum, DInode(true, 0)), t, Freed(k))
    case FreeDone(t) =>
      var k := s.tasks[t].k;
      At(WithSlot(s, k, s.slots[k].(owner := NOBODY, valid := false, ref := s.slots[k].ref - 1)), t, None)
  }

  /* The invariant. */

  ghost predicate Exists(s: State, k: nat) {
    k < |s.slots| && s.slots[k].inum < |s.disk| && !s.disk[s.slots[k].inum].free
  }

  // Every user of a slot for inum is done freeing it.
  ghost predicate OnlyFreed(s: State, inum: nat) {
    forall k, j {:trigger Uses(s.tasks[j], k)} ::
      0 <= k < |s.slots| && 0 <= j < |s.tasks| && s.slots[k].inum == inum && Uses(s.tasks[j], k) ==> s.tasks[j].Freed?
  }

  ghost predicate TaskOk(s: State, i: nat)
    requires i < |s.tasks|
  {
    match s.tasks[i]
    case None => true
    case Fresh(n) =>
      && n < |s.disk| && s.disk[n] == DInode(false, 0) && OnlyFreed(s, n)
      && forall j :: 0 <= j < |s.tasks| && s.tasks[j] == Fresh(n) ==> j == i
    case Ref(k) => Exists(s, k)
    case Locking(k) => Exists(s, k) && s.slots[k].owner == i
    case Locked(k) => Exists(s, k) && s.slots[k].owner == i && s.slots[k].valid
    case Freeing(k) => Exists(s, k) && s.slots[k].owner == i && s.slots[k].valid && s.slots[k].ref == 1 && s.slots[k].copy.nlink == 0
    case Freed(k) => k < |s.slots| && s.slots[k].inum < |s.disk| && s.slots[k].owner == i
  }

  ghost predicate SlotOk(s: State, k: nat)
    requires k < |s.slots|
  {
    var x := s.slots[k];
    && x.ref == Count(s.tasks, k) && (x.ref > 0 ==> x.inum < |s.disk|)
    && (x.owner != NOBODY ==> 0 <= x.owner < |s.tasks| && Owns(s.tasks[x.owner], k))
    && (x.ref > 0 && x.valid && !(x.owner != NOBODY && s.tasks[x.owner].Freed?) ==> x.copy == s.disk[x.inum] && !x.copy.free)
  }

  ghost predicate OneSlot(s: State) {
    forall k, l :: 0 <= k < l < |s.slots| && s.slots[k].ref > 0 && s.slots[l].ref > 0 ==> s.slots[k].inum != s.slots[l].inum
  }

  ghost predicate Inv(s: State) {
    && (forall i {:trigger TaskOk(s, i)} :: 0 <= i < |s.tasks| ==> TaskOk(s, i))
    && (forall k {:trigger SlotOk(s, k)} :: 0 <= k < |s.slots| ==> SlotOk(s, k))
    && OneSlot(s)
  }

  // A slot that is used has a reference, and two users make two.
  lemma UserCounts(s: State, i: nat, k: nat)
    requires Inv(s) && i < |s.tasks| && Uses(s.tasks[i], k)
    ensures k < |s.slots| && s.slots[k].ref >= 1 && (s.slots[k].ref == 1 ==> forall j :: 0 <= j < |s.tasks| && Uses(s.tasks[j], k) ==> j == i)
  {
    assert TaskOk(s, i);
    assert SlotOk(s, k);
    CountOne(s.tasks, k, i);
    forall j | 0 <= j < |s.tasks| && Uses(s.tasks[j], k) && j != i
      ensures s.slots[k].ref >= 2
    {
      CountTwo(s.tasks, k, i, j);
    }
  }

  lemma FreeIsUnused(s: State, n: nat)
    requires Inv(s) && n < |s.disk| && s.disk[n].free
    ensures OnlyFreed(s, n) && forall j :: 0 <= j < |s.tasks| ==> s.tasks[j] != Fresh(n)
  {
    forall j | 0 <= j < |s.tasks|
      ensures s.tasks[j] != Fresh(n)
    {
      assert TaskOk(s, j);
    }
    forall k, j | 0 <= k < |s.slots| && 0 <= j < |s.tasks| && s.slots[k].inum == n && Uses(s.tasks[j], k)
      ensures s.tasks[j].Freed?
    {
      assert TaskOk(s, j);
    }
  }

  // What the invariant says of a reference and of its slot.
  lemma Facts(s: State, i: nat)
    requires Inv(s) && i < |s.tasks|
    ensures TaskOk(s, i)
    ensures Holds(s, i) ==> var k := s.tasks[i].k; Uses(s.tasks[i], k) && SlotOk(s, k) && s.slots[k].ref >= 1
    ensures Holds(s, i) ==> var k := s.tasks[i].k; s.slots[k].ref == 1 ==> forall j :: 0 <= j < |s.tasks| && Uses(s.tasks[j], k) ==> j == i
  {
    assert TaskOk(s, i);
    if Holds(s, i) {
      UserCounts(s, i, s.tasks[i].k);
      assert SlotOk(s, s.tasks[i].k);
    }
  }

  predicate Concerned(s: State, i: nat, k: nat)
    requires i < |s.tasks|
  {
    s.tasks[i].Fresh? || Uses(s.tasks[i], k)
  }

  /** A step of reference u that changes slot k, and on disk no inode but the one in it, keeps the
      invariant if it does for u, for k, and for the references that use k or await a slot. */
  lemma Frame(s: State, s': State, u: nat, k: nat)
    requires Inv(s) && u < |s.tasks| && k < |s.slots| && |s'.disk| == |s.disk| && |s'.slots| == |s.slots| && |s'.tasks| == |s.tasks|
    requires s'.tasks == s.tasks[u := s'.tasks[u]] && s'.slots == s.slots[k := s'.slots[k]]
    requires forall n :: 0 <= n < |s.disk| ==> s'.disk[n] == s.disk[n] || (s'.slots[k].inum == n && s'.slots[k].ref > 0)
    requires forall l: nat :: l != k ==> !Uses(s.tasks[u], l) && !Uses(s'.tasks[u], l)
    requires TaskOk(s', u) && SlotOk(s', k) && forall i :: 0 <= i < |s.tasks| && i != u && Concerned(s, i, k) ==> TaskOk(s', i)
    requires s'.slots[k].ref > 0 ==> forall l :: 0 <= l < |s.slots| && l != k && s.slots[l].ref > 0 ==> s.slots[l].inum != s'.slots[k].inum
    ensures Inv(s')
  {
    forall i | 0 <= i < |s'.tasks|
      ensures TaskOk(s', i)
    {
      Facts(s, i);
    }
    forall l | 0 <= l < |s'.slots|
      ensures SlotOk(s', l)
    {
      if l != k {
        assert SlotOk(s, l);
        CountUpdate(s.tasks, u, s'.tasks[u], l);
      }
    }
  }

  // The inode is in use, and neither being freed nor just allocated.
  ghost predicate Safe(s: State, n: nat) {
    && n < |s.disk| && !s.disk[n].free && (forall i :: 0 <= i < |s.tasks| ==> s.tasks[i] != Fresh(n))
    && forall i :: 0 <= i < |s.tasks| && s.tasks[i].Freeing? && Holds(s, i) ==> s.slots[s.tasks[i].k].inum != n
  }

  ghost predicate SafeStep(s: State, st: Step) {
    st.IGet? ==> Safe(s, st.inum)
  }

  /** An inode with a link is safe to look up; so is every entry of a linked directory. */
  lemma LinkedIsSafe(s: State, n: nat)
    requires Inv(s) && n < |s.disk| && !s.disk[n].free && s.disk[n].nlink > 0
    ensures Safe(s, n)
  {
    forall i | 0 <= i < |s.tasks|
      ensures s.tasks[i] != Fresh(n) && (s.tasks[i].Freeing? && Holds(s, i) ==> s.slots[s.tasks[i].k].inum != n)
    {
      Facts(s, i);
    }
  }

  lemma WhereHit(slots: seq<Slot>, n: nat, k: nat)
    requires k < |slots| && Hit(slots[k], n) && forall l :: 0 <= l < |slots| && l != k && slots[l].ref > 0 ==> slots[l].inum != n
    ensures Where(slots, n) == k
  {
  }

  /** A lookup that is not safe breaks the invariant. */
  lemma UnsafeBreaks(s: State, t: nat, n: nat)
    requires Inv(s) && Enabled(s, IGet(t, n)) && !Safe(s, n)
    ensures !Inv(Do(s, IGet(t, n)))
  {
    var s', k := Do(s, IGet(t, n)), Where(s.slots, n);
    assert s'.slots[k].inum == n && s'.tasks[t] == Ref(k) && Uses(s'.tasks[t], k);
    if !s.disk[n].free {
      if i :| 0 <= i < |s.tasks| && s.tasks[i] == Fresh(n) {
        assert !OnlyFreed(s', n);
        assert !TaskOk(s', i);
      } else {
        var i :| 0 <= i < |s.tasks| && s.tasks[i].Freeing? && Holds(s, i) && s.slots[s.tasks[i].k].inum == n;
        Facts(s, i);
        WhereHit(s.slots, n, s.tasks[i].k);
        assert s'.slots[k].ref == 2;
        assert !TaskOk(s', i);
      }
    } else {
      assert !TaskOk(s', t);
    }
  }

  lemma IGetKeeps(s: State, t: nat, n: nat)
    requires Inv(s) && Enabled(s, IGet(t, n)) && Safe(s, n)
    ensures Inv(Do(s, IGet(t, n)))
  {
    var s', k := Do(s, IGet(t, n)), Where(s.slots, n);
    assert SlotOk(s, k);
    CountUpdate(s.tasks, t, s'.tasks[t], k);
    forall i | 0 <= i < |s.tasks| && i != t && Concerned(s, i, k)
      ensures TaskOk(s', i)
    {
      Facts(s, i);
    }
    Frame(s, s', t, k);
  }

  lemma AllocMarkKeeps(s: State, t: nat, n: nat)
    requires Inv(s) && Enabled(s, AllocMark(t, n))
    ensures Inv(Do(s, AllocMark(t, n)))
  {
    var s' := Do(s, AllocMark(t, n));
    FreeIsUnused(s, n);
    forall i | 0 <= i < |s'.tasks|
      ensures TaskOk(s', i)
    {
      assert TaskOk(s, i);
      if Holds(s, i) {
        UserCounts(s, i, s.tasks[i].k);
        assert SlotOk(s, s.tasks[i].k) && Uses(s.tasks[i], s.tasks[i].k);
      }
    }
    forall k | 0 <= k < |s'.slots|
      ensures SlotOk(s', k)
    {
      assert SlotOk(s, k);
      CountUpdate(s.tasks, t, s'.tasks[t], k);
    }
  }

  lemma AllocGetKeeps(s: State, t: nat)
    requires Inv(s) && Enabled(s, AllocGet(t))
    ensures Inv(Do(s, AllocGet(t)))
  {
    var s', k := Do(s, AllocGet(t)), Where(s.slots, s.tasks[t].inum);
    Facts(s, t);
    assert SlotOk(s, k);
    CountUpdate(s.tasks, t, s'.tasks[t], k);
    forall i | 0 <= i < |s.tasks| && i != t && Concerned(s, i, k)
      ensures TaskOk(s', i)
    {
      Facts(s, i);
    }
    Frame(s, s', t, k);
  }

  lemma IDupKeeps(s: State, t: nat, u: nat)
    requires Inv(s) && Enabled(s, IDup(t, u))
    ensures Inv(Do(s, IDup(t, u)))
  {
    var s', k := Do(s, IDup(t, u)), s.tasks[t].k;
    Facts(s, t);
    CountUpdate(s.tasks, u, s'.tasks[u], k);
    forall i | 0 <= i < |s.tasks| && i != u && Concerned(s, i, k)
      ensures TaskOk(s', i)
    {
      Facts(s, i);
    }
    Frame(s, s', u, k);
  }

  lemma ILockKeeps(s: State, t: nat)
    requires Inv(s) && Enabled(s, ILock(t))
    ensures Inv(Do(s, ILock(t)))
  {
    var s', k := Do(s, ILock(t)), s.tasks[t].k;
    Facts(s, t);
    CountUpdate(s.tasks, t, s'.tasks[t], k);
    forall i | 0 <= i < |s.tasks| && i != t && Concerned(s, i, k)
      ensures TaskOk(s', i)
    {
      Facts(s, i);
    }
    Frame(s, s', t, k);
  }

  lemma LoadKeeps(s: State, t: nat)
    requires Inv(s) && Enabled(s, Load(t))
    ensures Inv(Do(s, Load(t)))
  {
    var s', k := Do(s, Load(t)), s.tasks[t].k;
    Facts(s, t);
    CountUpdate(s.tasks, t, s'.tasks[t], k);
    forall i | 0 <= i < |s.tasks| && i != t && Concerned(s, i, k)
      ensures TaskOk(s', i)
    {
      Facts(s, i);
    }
    Frame(s, s', t, k);
  }

  lemma SetLinksKeeps(s: State, t: nat, n: nat)
    requires Inv(s) && Enabled(s, SetLinks(t, n))
    ensures Inv(Do(s, SetLinks(t, n)))
  {
    var s', k := Do(s, SetLinks(t, n)), s.tasks[t].k;
    Facts(s, t);
    CountUpdate(s.tasks, t, s'.tasks[t], k);
    forall i | 0 <= i < |s.tasks| && i != t && Concerned(s, i, k)
      ensures TaskOk(s', i)
    {
      Facts(s, i);
    }
    Frame(s, s', t, k);
  }

  lemma IUnlockKeeps(s: State, t: nat)
    requires Inv(s) && Enabled(s, IUnlock(t))
    ensures Inv(Do(s, IUnlock(t)))
  {
    var s', k := Do(s, IUnlock(t)), s.tasks[t].k;
    Facts(s, t);
    CountUpdate(s.tasks, t, s'.tasks[t], k);
    forall i | 0 <= i < |s.tasks| && i != t && Concerned(s, i, k)
      ensures TaskOk(s', i)
    {
      Facts(s, i);
    }
    Frame(s, s', t, k);
  }

  lemma PlainPutKeeps(s: State, t: nat)
    requires Inv(s) && Enabled(s, IPut(t)) && !LastPut(s.slots[s.tasks[t].k])
    ensures Inv(Do(s, IPut(t)))
  {
    var s', k := Do(s, IPut(t)), s.tasks[t].k;
    Facts(s, t);
    CountUpdate(s.tasks, t, s'.tasks[t], k);
    forall i | 0 <= i < |s.tasks| && i != t && Concerned(s, i, k)
      ensures TaskOk(s', i)
    {
      Facts(s, i);
    }
    Frame(s, s', t, k);
  }

  lemma LastPutKeeps(s: State, t: nat)
    requires Inv(s) && Enabled(s, IPut(t)) && LastPut(s.slots[s.tasks[t].k])
    ensures Inv(Do(s, IPut(t)))
  {
    var s', k := Do(s, IPut(t)), s.tasks[t].k;
    Facts(s, t);
    CountUpdate(s.tasks, t, s'.tasks[t], k);
    forall i | 0 <= i < |s.tasks| && i != t && Concerned(s, i, k)
      ensures TaskOk(s', i)
    {
      Facts(s, i);
    }
    Frame(s, s', t, k);
  }

  lemma FreeDiskKeeps(s: State, t: nat)
    requires Inv(s) && Enabled(s, FreeDisk(t))
    ensures Inv(Do(s, FreeDisk(t)))
  {
    var s', k := Do(s, FreeDisk(t)), s.tasks[t].k;
    Facts(s, t);
    CountUpdate(s.tasks, t, s'.tasks[t], k);
    forall i | 0 <= i < |s.tasks| && i != t && Concerned(s, i, k)
      ensures TaskOk(s', i)
    {
      Facts(s, i);
    }
    Frame(s, s', t, k);
  }

  lemma FreeDoneKeeps(s: State, t: nat)
    requires Inv(s) && Enabled(s, FreeDone(t))
    ensures Inv(Do(s, FreeDone(t)))
  {
    var s', k := Do(s, FreeDone(t)), s.tasks[t].k;
    Facts(s, t);
    CountUpdate(s.tasks, t, s'.tasks[t], k);
    forall i | 0 <= i < |s.tasks| && i != t && Concerned(s, i, k)
      ensures TaskOk(s', i)
    {
      Facts(s, i);
    }
    Frame(s, s', t, k);
  }

  lemma PutKeeps(s: State, t: nat)
    requires Inv(s) && Enabled(s, IPut(t))
    ensures Inv(Do(s, IPut(t)))
  {
    hide Inv, Do;
    if LastPut(s.slots[s.tasks[t].k]) {
      LastPutKeeps(s, t);
    } else {
      PlainPutKeeps(s, t);
    }
  }

  /** A step keeps the invariant exactly if it is no lookup of an inode that is free, being freed or
      just allocated. */
  lemma StepKeeps(s: State, st: Step)
    requires Inv(s) && Enabled(s, st)
    ensures Inv(Do(s, st)) <==> SafeStep(s, st)
  {
    hide Inv, Do, Enabled, Safe;
    match st
    case IGet(t, n) =>
      if Safe(s, n) {
        IGetKeeps(s, t, n);
      } else {
        UnsafeBreaks(s, t, n);
      }
    case AllocMark(t, n) => AllocMarkKeeps(s, t, n);
    case AllocGet(t) => AllocGetKeeps(s, t);
    case IDup(t, u) => IDupKeeps(s, t, u);
    case ILock(t) => ILockKeeps(s, t);
    case Load(t) => LoadKeeps(s, t);
    case SetLinks(t, n) => SetLinksKeeps(s, t, n);
    case IUnlock(t) => IUnlockKeeps(s, t);
    case IPut(t) => PutKeeps(s, t);
    case FreeDisk(t) => FreeDiskKeeps(s, t);
    case FreeDone(t) => FreeDoneKeeps(s, t);
  }

  ghost predicate Start(s: State) {
    (forall i :: 0 <= i < |s.tasks| ==> s.tasks[i] == None) && forall k :: 0 <= k < |s.slots| ==> s.slots[k].ref == 0 && s.slots[k].owner == NOBODY
  }

  lemma {:induction false} NoUsers(ts: seq<Task>, k: nat)
    requires forall i :: 0 <= i < |ts| ==> ts[i] == None
    ensures Count(ts, k) == 0
  {
    if ts != [] {
      NoUsers(ts[..|ts|-1], k);
    }
  }

  ghost predicate Moves(ss: seq<State>, sts: seq<Step>, n: nat)
    requires n + 1 < |ss| && n < |sts|
  {
    Enabled(ss[n], sts[n]) && ss[n+1] == Do(ss[n], sts[n])
  }

  ghost predicate IsRun(ss: seq<State>, sts: seq<Step>) {
    && |ss| == |sts| + 1 && Start(ss[0])
    && forall n {:trigger Moves(ss, sts, n)} :: 0 <= n < |sts| ==> Moves(ss, sts, n)
  }

  // A run whose lookups are all safe.
  ghost predicate IsSafeRun(ss: seq<State>, sts: seq<Step>) {
    IsRun(ss, sts) && forall n {:trigger sts[n]} :: 0 <= n < |sts| ==> SafeStep(ss[n], sts[n])
  }

  lemma {:induction false} RunInv(ss: seq<State>, sts: seq<Step>, n: nat)
    requires IsSafeRun(ss, sts) && n < |ss|
    ensures Inv(ss[n])
    decreases n
  {
    if n == 0 {
      forall k | 0 <= k < |ss[0].slots|
        ensures SlotOk(ss[0], k)
      {
        NoUsers(ss[0].tasks, k);
      }
    } else {
      RunInv(ss, sts, n - 1);
      assert Moves(ss, sts, n - 1) && SafeStep(ss[n-1], sts[n-1]);
      StepKeeps(ss[n-1], sts[n-1]);
    }
  }

  /* What holds whatever is looked up: counts, slots and locks. */

  ghost predicate TaskBase(s: State, i: nat)
    requires i < |s.tasks|
  {
    forall k: nat :: (Uses(s.tasks[i], k) ==> k < |s.slots|) && (Owns(s.tasks[i], k) ==> k < |s.slots| && s.slots[k].owner == i)
  }

  ghost predicate SlotBase(s: State, k: nat)
    requires k < |s.slots|
  {
    var x := s.slots[k];
    x.ref == Count(s.tasks, k) && (x.owner != NOBODY ==> 0 <= x.owner < |s.tasks| && Owns(s.tasks[x.owner], k))
  }

  ghost predicate Base(s: State) {
    && (forall i {:trigger TaskBase(s, i)} :: 0 <= i < |s.tasks| ==> TaskBase(s, i))
    && (forall k {:trigger SlotBase(s, k)} :: 0 <= k < |s.slots| ==> SlotBase(s, k))
    && OneSlot(s)
  }

  lemma BaseFacts(s: State, i: nat)
    requires Base(s) && Holds(s, i)
    ensures TaskBase(s, i) && var k := s.tasks[i].k; SlotBase(s, k) && s.slots[k].ref >= 1
    ensures var k := s.tasks[i].k; s.slots[k].ref == 1 ==> forall j :: 0 <= j < |s.tasks| && Uses(s.tasks[j], k) ==> j == i
  {
    var k := s.tasks[i].k;
    assert TaskBase(s, i) && SlotBase(s, k) && Uses(s.tasks[i], k);
    CountOne(s.tasks, k, i);
    forall j | 0 <= j < |s.tasks| && Uses(s.tasks[j], k) && j != i
      ensures s.slots[k].ref >= 2
    {
      CountTwo(s.tasks, k, i, j);
    }
  }

  lemma BaseFrame(s: State, s': State, u: nat, k: nat)
    requires Base(s) && u < |s.tasks| && k < |s.slots| && |s'.slots| == |s.slots| && |s'.tasks| == |s.tasks|
    requires s'.tasks == s.tasks[u := s'.tasks[u]] && s'.slots == s.slots[k := s'.slots[k]]
    requires forall l: nat :: l != k ==> !Uses(s.tasks[u], l) && !Uses(s'.tasks[u], l)
    requires SlotBase(s', k) && (Owns(s'.tasks[u], k) ==> s'.slots[k].owner == u)
    requires s'.slots[k].owner == s.slots[k].owner || s.slots[k].owner == NOBODY || s.slots[k].owner == u
    requires s'.slots[k].ref > 0 ==> forall l :: 0 <= l < |s.slots| && l != k && s.slots[l].ref > 0 ==> s.slots[l].inum != s'.slots[k].inum
    ensures Base(s')
  {
    forall i | 0 <= i < |s'.tasks|
      ensures TaskBase(s', i)
    {
      assert TaskBase(s, i);
    }
    forall l | 0 <= l < |s'.slots|
      ensures SlotBase(s', l)
    {
      if l != k {
        assert SlotBase(s, l);
        CountUpdate(s.tasks, u, s'.tasks[u], l);
      }
    }
  }

  lemma BaseNoOwner(s: State, k: nat)
    requires Base(s) && k < |s.slots|
    ensures s.slots[k].ref == 0 ==> s.slots[k].owner == NOBODY && forall i :: 0 <= i < |s.tasks| ==> !Uses(s.tasks[i], k)
  {
    assert SlotBase(s, k);
    forall i | 0 <= i < |s.tasks| && Uses(s.tasks[i], k)
      ensures s.slots[k].ref > 0
    {
      CountOne(s.tasks, k, i);
    }
  }

  lemma BaseGet(s: State, t: nat, n: nat, s': State)
    requires Base(s) && t < |s.tasks| && (s.tasks[t].None? || s.tasks[t].Fresh?) && Where(s.slots, n) < |s.slots|
    requires s'.slots == Got(s.slots, n) && s'.tasks == s.tasks[t := Ref(Where(s.slots, n))]
    ensures Base(s')
  {
    var k := Where(s.slots, n);
    assert SlotBase(s, k);
    CountUpdate(s.tasks, t, s'.tasks[t], k);
    BaseNoOwner(s, k);
    BaseFrame(s, s', t, k);
  }

  lemma BaseMark(s: State, t: nat, s': State)
    requires Base(s) && t < |s.tasks| && s.tasks[t].None? && s'.slots == s.slots && exists n :: s'.tasks == s.tasks[t := Fresh(n)]
    ensures Base(s')
  {
    forall i | 0 <= i < |s'.tasks|
      ensures TaskBase(s', i)
    {
      assert TaskBase(s, i);
    }
    forall k | 0 <= k < |s'.slots|
      ensures SlotBase(s', k)
    {
      assert SlotBase(s, k);
      CountUpdate(s.tasks, t, s'.tasks[t], k);
    }
  }

  lemma BaseLocked(s: State, st: Step)
    requires Base(s) && Enabled(s, st) && (st.ILock? || st.Load? || st.SetLinks? || st.IUnlock?)
    ensures Base(Do(s, st))
  {
    var s', t := Do(s, st), st.t;
    BaseFacts(s, t);
    CountUpdate(s.tasks, t, s'.tasks[t], s.tasks[t].k);
    BaseFrame(s, s', t, s.tasks[t].k);
  }

  lemma BasePut(s: State, st: Step)
    requires Base(s) && Enabled(s, st) && (st.IPut? || st.FreeDisk? || st.FreeDone?)
    ensures Base(Do(s, st))
  {
    var s', t := Do(s, st), st.t;
    BaseFacts(s, t);
    CountUpdate(s.tasks, t, s'.tasks[t], s.tasks[t].k);
    BaseFrame(s, s', t, s.tasks[t].k);
  }

  lemma BaseDup(s: State, t: nat, u: nat)
    requires Base(s) && Enabled(s, IDup(t, u))
    ensures Base(Do(s, IDup(t, u)))
  {
    var s' := Do(s, IDup(t, u));
    BaseFacts(s, t);
    CountUpdate(s.tasks, u, s'.tasks[u], s.tasks[t].k);
    BaseFrame(s, s', u, s.tasks[t].k);
  }

  /** Every step, whatever it looks up, keeps counts, slots and locks right. */
  lemma BaseKeeps(s: State, st: Step)
    requires Base(s) && Enabled(s, st)
    ensures Base(Do(s, st))
  {
    hide Base;
    var s' := Do(s, st);
    match st
    case IGet(t, n) => BaseGet(s, t, n, s');
    case AllocMark(t, n) => assert s'.tasks == s.tasks[t := Fresh(n)]; BaseMark(s, t, s');
    case AllocGet(t) => BaseGet(s, t, s.tasks[t].inum, s');
    case IDup(t, u) => BaseDup(s, t, u);
    case ILock(_) => BaseLocked(s, st);
    case Load(_) => BaseLocked(s, st);
    case SetLinks(_, _) => BaseLocked(s, st);
    case IUnlock(_) => BaseLocked(s, st);
    case _ => BasePut(s, st);
  }

  lemma {:induction false} RunBase(ss: seq<State>, sts: seq<Step>, n: nat)
    requires IsRun(ss, sts) && n < |ss|
    ensures Base(ss[n])
    decreases n
  {
    if n == 0 {
      forall k | 0 <= k < |ss[0].slots|
        ensures SlotBase(ss[0], k)
      {
        NoUsers(ss[0].tasks, k);
      }
    } else {
      RunBase(ss, sts, n - 1);
      assert Moves(ss, sts, n - 1);
      BaseKeeps(ss[n-1], sts[n-1]);
    }
  }

  /** In every state of every run: an inode has one slot at most; a slot's count is the number of
      references to it; one of them at most holds its lock; and an iput that frees finds nobody
      holding it. */
  lemma CacheIsSound(ss: seq<State>, sts: seq<Step>, n: nat, k: nat)
    requires IsRun(ss, sts) && n < |ss| && k < |ss[n].slots|
    ensures ss[n].slots[k].ref == Count(ss[n].tasks, k)
    ensures var s := ss[n]; forall l :: 0 <= l < |s.slots| && l != k && s.slots[k].ref > 0 && s.slots[l].ref > 0 ==> s.slots[l].inum != s.slots[k].inum
    ensures var s := ss[n]; forall i, j :: 0 <= i < |s.tasks| && 0 <= j < |s.tasks| && Owns(s.tasks[i], k) && Owns(s.tasks[j], k) ==> i == j
    ensures var s := ss[n]; forall i :: 0 <= i < |s.tasks| && s.tasks[i] == Ref(k) && LastPut(s.slots[k]) ==> s.slots[k].owner == NOBODY
  {
    RunBase(ss, sts, n);
    var s := ss[n];
    assert SlotBase(s, k);
    forall i | 0 <= i < |s.tasks| && Uses(s.tasks[i], k)
      ensures Owns(s.tasks[i], k) ==> s.slots[k].owner == i
      ensures s.tasks[i] == Ref(k) && LastPut(s.slots[k]) ==> s.slots[k].owner == NOBODY
    {
      assert TaskBase(s, i);
      BaseFacts(s, i);
    }
  }

  /** In every state of every run with safe lookups: who holds or takes the lock of an inode finds it
      in use, so that ilock does not stop, and the holder sees it as it is on disk. */
  lemma NoPanics(ss: seq<State>, sts: seq<Step>, n: nat, t: nat)
    requires IsSafeRun(ss, sts) && n < |ss| && Holds(ss[n], t)
    ensures var s := ss[n]; !s.tasks[t].Freed? ==> s.slots[s.tasks[t].k].inum < |s.disk| && !s.disk[s.slots[s.tasks[t].k].inum].free
    ensures var s := ss[n]; s.tasks[t].Locked? ==> var x := s.slots[s.tasks[t].k]; x.valid && x.inum < |s.disk| && x.copy == s.disk[x.inum]
  {
    RunInv(ss, sts, n);
    var s := ss[n];
    Facts(s, t);
  }

  /** In such runs an inode is freed on disk only when it has no link and nobody else has a reference
      to it. */
  lemma FreedUnshared(ss: seq<State>, sts: seq<Step>, n: nat, t: nat)
    requires IsSafeRun(ss, sts) && n < |sts| && sts[n] == FreeDisk(t)
    ensures var s := ss[n]; Enabled(s, sts[n]) && s.disk[s.slots[s.tasks[t].k].inum] == DInode(false, 0)
    ensures var s := ss[n]; forall j :: 0 <= j < |s.tasks| && j != t && Holds(s, j) ==> s.slots[s.tasks[j].k].inum != s.slots[s.tasks[t].k].inum
    ensures var s := ss[n]; forall j :: 0 <= j < |s.tasks| ==> s.tasks[j] != Fresh(s.slots[s.tasks[t].k].inum)
  {
    RunInv(ss, sts, n);
    assert Moves(ss, sts, n);
    var s := ss[n];
    var k := s.tasks[t].k;
    Facts(s, t);
    forall j | 0 <= j < |s.tasks| && j != t
      ensures Holds(s, j) ==> s.slots[s.tasks[j].k].inum != s.slots[k].inum
      ensures s.tasks[j] != Fresh(s.slots[k].inum)
    {
      Facts(s, j);
    }
  }

  /* What an unsafe lookup does. */

  lemma Extend(ss: seq<State>, sts: seq<Step>, st: Step)
    requires IsRun(ss, sts) && Enabled(ss[|sts|], st)
    ensures IsRun(ss + [Do(ss[|sts|], st)], sts + [st])
    ensures IsSafeRun(ss, sts) && SafeStep(ss[|sts|], st) ==> IsSafeRun(ss + [Do(ss[|sts|], st)], sts + [st])
  {
    hide Do, Enabled, Safe;
    var ss', sts' := ss + [Do(ss[|sts|], st)], sts + [st];
    forall n | 0 <= n < |sts'|
      ensures Moves(ss', sts', n)
    {
      if n < |sts| {
        assert Moves(ss, sts, n);
        assert ss'[n] == ss[n] && ss'[n+1] == ss[n+1] && sts'[n] == sts[n];
      }
    }
  }

  // The first reference to an inode in use takes its lock and reads it.
  lemma FirstLocks(s0: State, n: nat) returns (ss: seq<State>, sts: seq<Step>)
    requires Start(s0) && |s0.tasks| > 1 && |s0.slots| > 0 && n < |s0.disk| && !s0.disk[n].free
    ensures IsSafeRun(ss, sts) && ss[0] == s0
    ensures ss[|sts|] == State(s0.disk, s0.slots[0 := Slot(n, 1, 0, true, s0.disk[n])], s0.tasks[0 := Locked(0)])
  {
    var s1 := Do(s0, IGet(0, n));
    assert s1 == State(s0.disk, s0.slots[0 := Slot(n, 1, NOBODY, false, s0.slots[0].copy)], s0.tasks[0 := Ref(0)]);
    ss, sts := [s0], [];
    Extend(ss, sts, IGet(0, n));
    ss, sts := ss + [s1], sts + [IGet(0, n)];
    var s2 := Do(s1, ILock(0));
    Extend(ss, sts, ILock(0));
    ss, sts := ss + [s2], sts + [ILock(0)];
    Extend(ss, sts, Load(0));
    ss, sts := ss + [Do(s2, Load(0))], sts + [Load(0)];
  }

  // It removes the last link and puts the inode, and then is about to free it.
  lemma LastLinkGoes(s0: State, n: nat) returns (ss: seq<State>, sts: seq<Step>)
    requires Start(s0) && |s0.tasks| > 1 && |s0.slots| > 0 && n < |s0.disk| && !s0.disk[n].free
    ensures IsSafeRun(ss, sts) && ss[0] == s0
    ensures ss[|sts|] == State(s0.disk[n := DInode(false, 0)], s0.slots[0 := Slot(n, 1, 0, true, DInode(false, 0))], s0.tasks[0 := Freeing(0)])
  {
    ss, sts := FirstLocks(s0, n);
    var s1 := Do(ss[|sts|], SetLinks(0, 0));
    Extend(ss, sts, SetLinks(0, 0));
    ss, sts := ss + [s1], sts + [SetLinks(0, 0)];
    var s2 := Do(s1, IUnlock(0));
    Extend(ss, sts, IUnlock(0));
    ss, sts := ss + [s2], sts + [IUnlock(0)];
    Extend(ss, sts, IPut(0));
    ss, sts := ss + [Do(s2, IPut(0))], sts + [IPut(0)];
  }

  /** From every start, every inode in use can be freed and then looked up and locked while free,
      where ilock stops. */
  lemma LocksFreeInode(s0: State, n: nat) returns (ss: seq<State>, sts: seq<Step>)
    requires Start(s0) && |s0.tasks| > 1 && |s0.slots| > 0 && n < |s0.disk| && !s0.disk[n].free
    ensures IsRun(ss, sts) && ss[0] == s0
    ensures var s := ss[|sts|]; |s.tasks| > 1 && s.tasks[1] == Locking(0) && |s.slots| > 0 && !s.slots[0].valid && s.slots[0].inum == n && n < |s.disk| && s.disk[n].free
  {
    ss, sts := LastLinkGoes(s0, n);
    var s1 := Do(ss[|sts|], FreeDisk(0));
    Extend(ss, sts, FreeDisk(0));
    ss, sts := ss + [s1], sts + [FreeDisk(0)];
    var s2 := Do(s1, FreeDone(0));
    Extend(ss, sts, FreeDone(0));
    ss, sts := ss + [s2], sts + [FreeDone(0)];
    var s3 := Do(s2, IGet(1, n));
    Extend(ss, sts, IGet(1, n));
    ss, sts := ss + [s3], sts + [IGet(1, n)];
    Extend(ss, sts, ILock(1));
    ss, sts := ss + [Do(s3, ILock(1))], sts + [ILock(1)];
  }

  /** An inode looked up while it is being freed is freed under a reference to it. */
  lemma FreedWhileHeld(s0: State, n: nat) returns (ss: seq<State>, sts: seq<Step>)
    requires Start(s0) && |s0.tasks| > 1 && |s0.slots| > 0 && n < |s0.disk| && !s0.disk[n].free
    ensures IsRun(ss, sts) && ss[0] == s0
    ensures var s := ss[|sts|]; |s.tasks| > 1 && s.tasks[1] == Ref(0) && |s.slots| > 0 && s.slots[0].inum == n && s.slots[0].ref == 2 && n < |s.disk| && s.disk[n].free
  {
    ss, sts := LastLinkGoes(s0, n);
    var s1 := Do(ss[|sts|], IGet(1, n));
    Extend(ss, sts, IGet(1, n));
    ss, sts := ss + [s1], sts + [IGet(1, n)];
    Extend(ss, sts, FreeDisk(0));
    ss, sts := ss + [Do(s1, FreeDisk(0))], sts + [FreeDisk(0)];
  }

  /* Inodes in use without links. */

  ghost predicate HeldBy(s: State, i: nat, n: nat) {
    i < |s.tasks| && (s.tasks[i] == Fresh(n) || (Holds(s, i) && !s.tasks[i].Freed? && s.slots[s.tasks[i].k].inum == n))
  }

  ghost predicate Held(s: State, n: nat) {
    exists i :: HeldBy(s, i, n)
  }

  // Every inode in use without a link is held by somebody, who will free it.
  ghost predicate NoOrphan(s: State) {
    forall n :: 0 <= n < |s.disk| && s.disk[n] == DInode(false, 0) ==> Held(s, n)
  }

  // The last put of an inode without links that was allocated and never loaded.
  predicate Forgets(s: State, st: Step)
    requires Enabled(s, st)
  {
    st.IPut? && var x := s.slots[s.tasks[st.t].k];
    var freed := 0 <= x.owner < |s.tasks| && s.tasks[x.owner].Freed?;
    && x.inum < |s.disk| && s.disk[x.inum].nlink == 0 && x.ref == (if freed then 2 else 1) && (freed || !x.valid)
  }

  // Who holds an inode still does after a step, unless by that step they let it go or free it.
  lemma HolderStays(s: State, st: Step, i: nat, n: nat)
    requires Inv(s) && Enabled(s, st) && HeldBy(s, i, n)
    requires i == st.t ==> !st.FreeDisk? && (st.IPut? ==> LastPut(s.slots[s.tasks[i].k]))
    ensures HeldBy(Do(s, st), i, n)
  {
    Facts(s, i);
  }

  lemma NewlyUnlinked(s: State, st: Step, n: nat)
    requires Inv(s) && Enabled(s, st) && n < |s.disk| && s.disk[n] != DInode(false, 0) && Do(s, st).disk[n] == DInode(false, 0)
    ensures HeldBy(Do(s, st), st.t, n)
  {
    Facts(s, st.t);
  }

  lemma {:induction false} SomeUser(ts: seq<Task>, k: nat) returns (i: nat)
    requires Count(ts, k) >= 1
    ensures i < |ts| && Uses(ts[i], k)
  {
    if Uses(ts[|ts|-1], k) {
      i := |ts| - 1;
    } else {
      i := SomeUser(ts[..|ts|-1], k);
    }
  }

  lemma AnotherUser(ts: seq<Task>, k: nat, t: nat, o: nat) returns (j: nat)
    requires t < |ts| && o < |ts| && Count(ts, k) > if t == o then 1 else 2
    ensures j < |ts| && j != t && j != o && Uses(ts[j], k)
  {
    CountUpdate(ts, t, None, k);
    CountUpdate(ts[t := None], o, None, k);
    j := SomeUser(ts[t := None][o := None], k);
  }

  lemma PutLeavesHolder(s: State, t: nat, n: nat) returns (j: nat)
    requires Inv(s) && Enabled(s, IPut(t)) && !LastPut(s.slots[s.tasks[t].k]) && !Forgets(s, IPut(t))
    requires n < |s.disk| && s.disk[n] == DInode(false, 0) && HeldBy(s, t, n)
    ensures j != t && HeldBy(s, j, n)
  {
    var k := s.tasks[t].k;
    var o := s.slots[k].owner;
    Facts(s, t);
    if 0 <= o < |s.tasks| && s.tasks[o].Freed? {
      CountTwo(s.tasks, k, t, o);
      j := AnotherUser(s.tasks, k, t, o);
    } else {
      j := AnotherUser(s.tasks, k, t, t);
    }
    Facts(s, j);
  }

  lemma ForgottenIsOrphan(s: State, t: nat)
    requires Inv(s) && Enabled(s, IPut(t)) && Forgets(s, IPut(t))
    ensures !NoOrphan(Do(s, IPut(t)))
  {
    var s', k := Do(s, IPut(t)), s.tasks[t].k;
    var n, o := s.slots[k].inum, s.slots[k].owner;
    Facts(s, t);
    forall j | HeldBy(s', j, n)
      ensures false
    {
      Facts(s, j);
      assert Uses(s.tasks[t], k);
      CountTwo(s.tasks, k, t, j);
      CountUpdate(s.tasks, t, None, k);
      CountTwo(s.tasks[t := None], k, o, j);
    }
    assert s'.disk[n] == DInode(false, 0) && !Held(s', n);
  }

  /** Every inode in use without links stays held by somebody, exactly as long as nobody drops the
      last reference to one that they allocated and never loaded. */
  lemma OrphansIff(s: State, st: Step)
    requires Inv(s) && Enabled(s, st) && NoOrphan(s)
    ensures NoOrphan(Do(s, st)) <==> !Forgets(s, st)
  {
    if Forgets(s, st) {
      ForgottenIsOrphan(s, st.t);
    } else {
      var s' := Do(s, st);
      forall n | 0 <= n < |s'.disk| && s'.disk[n] == DInode(false, 0)
        ensures Held(s', n)
      {
        if s.disk[n] != DInode(false, 0) {
          NewlyUnlinked(s, st, n);
        } else {
          var i: nat :| HeldBy(s, i, n);
          if st.IPut? && i == st.t && !LastPut(s.slots[s.tasks[i].k]) {
            i := PutLeavesHolder(s, i, n);
          }
          HolderStays(s, st, i, n);
        }
      }
    }
  }

  /** In every run with safe lookups and no such put, from a disk where every inode in use has a link:
      an inode in use has a link or a holder, so that it is free once the last has let it go. */
  lemma {:induction false} UnlinkedIsHeld(ss: seq<State>, sts: seq<Step>, n: nat)
    requires IsSafeRun(ss, sts) && n < |ss| && (forall i :: 0 <= i < |ss[0].disk| ==> ss[0].disk[i] != DInode(false, 0))
    requires forall m {:trigger sts[m]} :: 0 <= m < |sts| ==> Moves(ss, sts, m) && !Forgets(ss[m], sts[m])
    ensures NoOrphan(ss[n])
    decreases n
  {
    if n > 0 {
      UnlinkedIsHeld(ss, sts, n - 1);
      RunInv(ss, sts, n - 1);
      assert Moves(ss, sts, n - 1) && !Forgets(ss[n-1], sts[n-1]);
      OrphansIff(ss[n-1], sts[n-1]);
    }
  }

  /* A crash empties the cache and keeps the disk. */

  function Crash(s: State): State {
    State(s.disk, seq(|s.slots|, k requires 0 <= k < |s.slots| => Slot(0, 0, NOBODY, false, DInode(true, 0))), seq(|s.tasks|, i => None))
  }

  ghost predicate Untouched(s: State, n: nat) {
    && n < |s.disk| && s.disk[n] == DInode(false, 0)
    && forall i: nat :: !HeldBy(s, i, n) && (Holds(s, i) ==> s.slots[s.tasks[i].k].inum != n)
  }

  lemma StaysUntouched(s: State, st: Step, n: nat)
    requires Base(s) && Enabled(s, st) && Untouched(s, n) && (st.IGet? ==> st.inum != n)
    ensures Untouched(Do(s, st), n)
  {
    var s' := Do(s, st);
    if st.IGet? {
      BaseNoOwner(s, Where(s.slots, st.inum));
    } else if st.AllocGet? {
      BaseNoOwner(s, Where(s.slots, s.tasks[st.t].inum));
    }
    assert !HeldBy(s, st.t, n) && (Holds(s, st.t) ==> s.slots[s.tasks[st.t].k].inum != n);
    forall i: nat
      ensures !HeldBy(s', i, n) && (Holds(s', i) ==> s'.slots[s'.tasks[i].k].inum != n)
    {
      assert !HeldBy(s, i, n) && (Holds(s, i) ==> s.slots[s.tasks[i].k].inum != n);
    }
  }

  /** After a crash the inodes in use without links are orphans, and one that nobody looks up is never
      freed again. */
  lemma {:induction false} LeaksForGood(ss: seq<State>, sts: seq<Step>, n: nat, m: nat)
    requires IsRun(ss, sts) && m < |ss| && n < |ss[0].disk| && ss[0].disk[n] == DInode(false, 0)
    requires forall i :: 0 <= i < m ==> sts[i].IGet? ==> sts[i].inum != n
    ensures !Held(ss[m], n) && n < |ss[m].disk| && ss[m].disk[n] == DInode(false, 0)
    ensures Untouched(ss[m], n)
    decreases m
  {
    if m > 0 {
      LeaksForGood(ss, sts, n, m - 1);
      RunBase(ss, sts, m - 1);
      assert Moves(ss, sts, m - 1);
      StaysUntouched(ss[m-1], sts[m-1], n);
    }
  }

  lemma CrashOrphansIff(s: State)
    ensures Start(Crash(s)) && Crash(s).disk == s.disk
    ensures NoOrphan(Crash(s)) <==> forall n :: 0 <= n < |s.disk| ==> s.disk[n] != DInode(false, 0)
  {
    var c := Crash(s);
    assert forall n: nat, i: nat :: !HeldBy(c, i, n);
    if NoOrphan(c) {
      forall n | 0 <= n < |s.disk|
        ensures s.disk[n] != DInode(false, 0)
      {
        assert s.disk[n] == DInode(false, 0) ==> Held(c, n);
      }
    }
  }
}
