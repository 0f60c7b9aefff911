/** Directories and link counts of fs.c and sysfile.c: dirlookup, dirlink, isdirempty, create,
    link, unlink and the release of unlinked inodes, over the inode table. */
module Directories {

  const ROOT := 1
  const DOT := "."
  const DOTDOT := ".."
  const MAXENTS := 4480  // MAXFILE * BSIZE / sizeof(struct dirent)

  type Name = string

  datatype Kind = Free | File | Dir | Dev

  /** A directory entry; inum 0 marks an empty slot. */
  datatype Dirent = Dirent(inum: nat, name: Name)

  datatype Inode = Inode(kind: Kind, nlink: int, ents: seq<Dirent>)

  type Inodes = seq<Inode>

  const EMPTY_SLOT := Dirent(0, "")

  predicate LinkedDir(x: Inode) {
    x.kind == Dir && x.nlink > 0
  }

  /* Counting the names of an inode. */

  predicate Refers(e: Dirent, i: nat) {
    e.inum == i && i != 0 && e.name != DOT
  }

  function One(b: bool): nat {
    if b then 1 else 0
  }

  function EntryRefs(ents: seq<Dirent>, i: nat): nat {
    if ents == [] then 0 else EntryRefs(ents[..|ents|-1], i) + One(Refers(ents[|ents|-1], i))
  }

  function InodeRefs(x: Inode, i: nat): nat {
    if LinkedDir(x) then EntryRefs(x.ents, i) else 0
  }

  // Entries other than "." naming i in the linked directories among the first n inodes.
  function Count(fs: Inodes, n: nat, i: nat): nat
    requires n <= |fs|
  {
    if n == 0 then 0 else Count(fs, n - 1, i) + InodeRefs(fs[n-1], i)
  }

  lemma {:induction false} EntryRefsUpdate(ents: seq<Dirent>, k: nat, e: Dirent, i: nat)
    requires k < |ents|
    ensures EntryRefs(ents[k := e], i) + One(Refers(ents[k], i)) == EntryRefs(ents, i) + One(Refers(e, i))
  {
    var n := |ents| - 1;
    if k < n {
      EntryRefsUpdate(ents[..n], k, e, i);
      assert ents[k := e][..n] == ents[..n][k := e];
    } else {
      assert ents[k := e][..n] == ents[..n];
    }
  }

  lemma EntryRefsAppend(ents: seq<Dirent>, e: Dirent, i: nat)
    ensures EntryRefs(ents + [e], i) == EntryRefs(ents, i) + One(Refers(e, i))
  {
    assert (ents + [e])[..|ents|] == ents;
  }

  lemma {:induction false} CountUpdate(fs: Inodes, n: nat, d: nat, x: Inode, i: nat)
    requires n <= |fs| && d < |fs|
    ensures Count(fs[d := x], n, i) + (if d < n then InodeRefs(fs[d], i) else 0) == Count(fs, n, i) + (if d < n then InodeRefs(x, i) else 0)
  {
    if n > 0 {
      CountUpdate(fs, n - 1, d, x, i);
    }
  }

  lemma {:induction false} EntryRefsZero(ents: seq<Dirent>, i: nat)
    requires forall k :: 0 <= k < |ents| ==> !Refers(ents[k], i)
    ensures EntryRefs(ents, i) == 0
  {
    if ents != [] {
      EntryRefsZero(ents[..|ents|-1], i);
    }
  }

  lemma {:induction false} EntryRefsPositive(ents: seq<Dirent>, i: nat, k: nat)
    requires k < |ents| && Refers(ents[k], i)
    ensures EntryRefs(ents, i) >= 1
  {
    if k < |ents| - 1 {
      EntryRefsPositive(ents[..|ents|-1], i, k);
    }
  }

  lemma {:induction false} CountZero(fs: Inodes, n: nat, i: nat)
    requires n <= |fs| && forall d, k :: 0 <= d < n && LinkedDir(fs[d]) && 0 <= k < |fs[d].ents| ==> !Refers(fs[d].ents[k], i)
    ensures Count(fs, n, i) == 0
  {
    if n > 0 {
      CountZero(fs, n - 1, i);
      if LinkedDir(fs[n-1]) {
        EntryRefsZero(fs[n-1].ents, i);
      }
    }
  }

  lemma {:induction false} CountPositive(fs: Inodes, n: nat, i: nat, d: nat, k: nat)
    requires n <= |fs| && d < n && LinkedDir(fs[d]) && k < |fs[d].ents| && Refers(fs[d].ents[k], i)
    ensures Count(fs, n, i) >= 1
  {
    if d == n - 1 {
      EntryRefsPositive(fs[d].ents, i, k);
    } else {
      CountPositive(fs, n - 1, i, d, k);
    }
  }

  /* The invariant. */

  // Links in flight are counted in nlink before their entry is written.
  predicate CountIs(fs: Inodes, pending: multiset<nat>, i: nat)
    requires i < |fs|
  {
    Count(fs, |fs|, i) + pending[i] == if fs[i].kind == Free then 0 else fs[i].nlink
  }

  ghost predicate LinkCounts(fs: Inodes, pending: multiset<nat>) {
    && (forall i {:trigger CountIs(fs, pending, i)} :: 0 < i < |fs| ==> CountIs(fs, pending, i))
    && (forall i {:trigger pending[i]} :: 0 < i < |fs| && pending[i] > 0 ==> fs[i].kind == File || fs[i].kind == Dev)
  }

  ghost predicate UniqueNames(ents: seq<Dirent>) {
    forall k, l :: 0 <= k < l < |ents| && ents[k].inum != 0 && ents[l].inum != 0 ==> ents[k].name != ents[l].name
  }

  // Slot k of directory p, past the dots, names inode d.
  predicate Names(fs: Inodes, p: nat, k: nat, d: nat) {
    0 < p < |fs| && 2 <= k < |fs[p].ents| && fs[p].ents[k].inum == d && 0 < d < |fs|
  }

  predicate NoEntries(ents: seq<Dirent>) {
    forall k :: 2 <= k < |ents| ==> ents[k].inum == 0
  }

  // "." and ".." come first; names are unique; entries name inodes of the table, and never the root.
  ghost predicate GoodEntries(fs: Inodes, d: nat)
    requires d < |fs|
  {
    var es := fs[d].ents;
    && |es| >= 2 && es[0] == Dirent(d, DOT) && es[1].name == DOTDOT && 0 < es[1].inum < |fs|
    && UniqueNames(es)
    && (forall k :: 2 <= k < |es| ==> es[k].inum < |fs| && es[k].inum != ROOT)
    && (!LinkedDir(fs[d]) ==> NoEntries(es))
  }

  ghost predicate AllGood(fs: Inodes) {
    forall d {:trigger GoodEntries(fs, d)} :: 0 < d < |fs| && fs[d].kind == Dir ==> GoodEntries(fs, d)
  }

  function Parent(fs: Inodes, d: nat): nat {
    if d < |fs| && |fs[d].ents| >= 2 then fs[d].ents[1].inum else 0
  }

  // Directory d is named in its parent, a linked directory one level closer to the root.
  ghost predicate Hangs(fs: Inodes, depth: seq<nat>, d: nat) {
    var p := Parent(fs, d);
    && d < |depth| && p < |depth| && p < |fs| && LinkedDir(fs[p]) && depth[d] == depth[p] + 1
    && exists k: nat :: Names(fs, p, k, d)
  }

  ghost predicate AllHang(fs: Inodes, depth: seq<nat>) {
    forall d {:trigger Hangs(fs, depth, d)} :: ROOT < d < |fs| && LinkedDir(fs[d]) ==> Hangs(fs, depth, d)
  }

  // A directory is named past the dots in one slot at most, a slot of its parent.
  ghost predicate NamedInParent(fs: Inodes) {
    forall p: nat, k: nat, d: nat {:trigger Names(fs, p, k, d)} :: Names(fs, p, k, d) && fs[d].kind == Dir ==> p == Parent(fs, d) && LinkedDir(fs[d])
  }

  ghost predicate NamedOnce(fs: Inodes) {
    forall p: nat, k: nat, l: nat, d: nat {:trigger Names(fs, p, k, d), Names(fs, p, l, d)} ::
      Names(fs, p, k, d) && Names(fs, p, l, d) && fs[d].kind == Dir ==> k == l
  }

  ghost predicate GoodRoot(fs: Inodes, depth: seq<nat>) {
    |depth| == |fs| && ROOT < |fs| && LinkedDir(fs[ROOT]) && Parent(fs, ROOT) == ROOT && depth[ROOT] == 0 && fs[0].kind == Free
  }

  /** The linked directories form a tree rooted at ROOT. */
  ghost predicate Tree(fs: Inodes, depth: seq<nat>) {
    GoodRoot(fs, depth) && AllGood(fs) && AllHang(fs, depth) && NamedInParent(fs) && NamedOnce(fs)
  }

  ghost predicate Inv(fs: Inodes, pending: multiset<nat>, depth: seq<nat>) {
    LinkCounts(fs, pending) && Tree(fs, depth) && OnlyDirsHold(fs)
  }

  // Inodes other than directories hold no entries.
  ghost predicate OnlyDirsHold(fs: Inodes) {
    forall d :: 0 <= d < |fs| && fs[d].kind != Dir ==> fs[d].ents == []
  }

  /* What the operations make of the table. */

  predicate Holds(e: Dirent, name: Name) {
    e.inum != 0 && e.name == name
  }

  // The first slot holding the name, or the end.
  function Index(ents: seq<Dirent>, name: Name, from: nat): (k: nat)
    requires from <= |ents|
    ensures from <= k <= |ents| && (k < |ents| ==> Holds(ents[k], name))
    ensures forall j :: from <= j < k ==> !Holds(ents[j], name)
    decreases |ents| - from
  {
    if from == |ents| || Holds(ents[from], name) then from else Index(ents, name, from + 1)
  }

  // The first empty slot, or the end.
  function FreeSlot(ents: seq<Dirent>, from: nat): (k: nat)
    requires from <= |ents|
    ensures from <= k <= |ents| && (k < |ents| ==> ents[k].inum == 0)
    ensures forall j :: from <= j < k ==> ents[j].inum != 0
    decreases |ents| - from
  {
    if from == |ents| || ents[from].inum == 0 then from else FreeSlot(ents, from + 1)
  }

  function AddEntry(ents: seq<Dirent>, name: Name, i: nat): seq<Dirent> {
    var k := FreeSlot(ents, 0);
    if k < |ents| then ents[k := Dirent(i, name)] else ents + [Dirent(i, name)]
  }

  function NewInode(i: nat, kind: Kind, dp: nat): Inode {
    if kind == Dir then Inode(Dir, 1, [Dirent(i, DOT), Dirent(dp, DOTDOT)]) else Inode(kind, 1, [])
  }

  function Created(fs: Inodes, dp: nat, name: Name, i: nat, kind: Kind): Inodes
    requires dp < |fs| && i < |fs|
  {
    var d := fs[dp];
    fs[i := NewInode(i, kind, dp)][dp := Inode(d.kind, d.nlink + One(kind == Dir), AddEntry(d.ents, name, i))]
  }

  function Entered(fs: Inodes, dp: nat, name: Name, i: nat): Inodes
    requires dp < |fs|
  {
    fs[dp := Inode(fs[dp].kind, fs[dp].nlink, AddEntry(fs[dp].ents, name, i))]
  }

  function Relinked(fs: Inodes, i: nat, more: int): Inodes
    requires i < |fs|
  {
    fs[i := Inode(fs[i].kind, fs[i].nlink + more, fs[i].ents)]
  }

  function Erased(fs: Inodes, dp: nat, k: nat): Inodes
    requires dp < |fs| && k < |fs[dp].ents|
  {
    fs[dp := Inode(fs[dp].kind, fs[dp].nlink, fs[dp].ents[k := EMPTY_SLOT])]
  }

  // Slot k of dp is cleared, and the inode it named loses a link; a directory takes its ".." along.
  function Removed(fs: Inodes, dp: nat, k: nat): Inodes
    requires dp < |fs| && k < |fs[dp].ents| && fs[dp].ents[k].inum < |fs|
  {
    var i := fs[dp].ents[k].inum;
    Relinked(Relinked(Erased(fs, dp, k), dp, if fs[i].kind == Dir then -1 else 0), i, -1)
  }

  function Released(fs: Inodes, i: nat): Inodes
    requires i < |fs|
  {
    fs[i := Inode(Free, 0, [])]
  }

  /* Adding an entry. */

  lemma AddEntryRefs(ents: seq<Dirent>, name: Name, i: nat, j: nat)
    ensures EntryRefs(AddEntry(ents, name, i), j) == EntryRefs(ents, j) + One(Refers(Dirent(i, name), j))
  {
    var k := FreeSlot(ents, 0);
    if k < |ents| {
      EntryRefsUpdate(ents, k, Dirent(i, name), j);
    } else {
      EntryRefsAppend(ents, Dirent(i, name), j);
    }
  }

  // A name that is absent from directory dp, which holds its dots, goes to a slot past them.
  ghost predicate CanAdd(fs: Inodes, dp: nat, name: Name, i: nat) {
    && 0 < dp < |fs| && LinkedDir(fs[dp]) && GoodEntries(fs, dp) && ROOT < i < |fs|
    && Index(fs[dp].ents, name, 0) == |fs[dp].ents|
  }

  lemma AddEntryGood(fs: Inodes, dp: nat, name: Name, i: nat)
    requires CanAdd(fs, dp, name, i)
    ensures var es, k := AddEntry(fs[dp].ents, name, i), FreeSlot(fs[dp].ents, 0); 2 <= k < |es| && es[k] == Dirent(i, name)
    ensures var es := AddEntry(fs[dp].ents, name, i); |es| >= |fs[dp].ents| >= 2 && es[0] == fs[dp].ents[0] && es[1] == fs[dp].ents[1]
    ensures UniqueNames(AddEntry(fs[dp].ents, name, i)) && name != DOT && name != DOTDOT
  {
    var was, es, k := fs[dp].ents, AddEntry(fs[dp].ents, name, i), FreeSlot(fs[dp].ents, 0);
    assert !Holds(was[0], name) && !Holds(was[1], name);
    forall l, m | 0 <= l < m < |es| && es[l].inum != 0 && es[m].inum != 0
      ensures es[l].name != es[m].name
    {
      if l == k {
        assert !Holds(was[m], name);
      } else if m == k {
        assert !Holds(was[l], name);
      }
    }
  }

  lemma EnteredNames(fs: Inodes, dp: nat, name: Name, i: nat, p: nat, l: nat, d: nat)
    requires CanAdd(fs, dp, name, i)
    ensures Names(Entered(fs, dp, name, i), p, l, d) <==> Names(fs, p, l, d) || (p == dp && l == FreeSlot(fs[dp].ents, 0) && d == i)
  {
    AddEntryGood(fs, dp, name, i);
  }

  // An entry past the dots stands in a linked directory and counts as a link.
  lemma NamedCounts(fs: Inodes, pending: multiset<nat>, depth: seq<nat>, p: nat, k: nat, i: nat)
    requires Inv(fs, pending, depth) && Names(fs, p, k, i)
    ensures LinkedDir(fs[p]) && Refers(fs[p].ents[k], i) && Count(fs, |fs|, i) >= 1 && fs[i].kind != Free
  {
    assert GoodEntries(fs, p);
    CountPositive(fs, |fs|, i, p, k);
    assert CountIs(fs, pending, i);
  }

  ghost predicate Unnamed(fs: Inodes, i: nat) {
    forall p: nat, k: nat :: !Names(fs, p, k, i)
  }

  lemma FreeIsUnnamed(fs: Inodes, pending: multiset<nat>, depth: seq<nat>, i: nat)
    requires Inv(fs, pending, depth) && i < |fs| && fs[i].kind == Free
    ensures Unnamed(fs, i)
  {
    forall p: nat, k: nat | Names(fs, p, k, i)
      ensures false
    {
      NamedCounts(fs, pending, depth, p, k, i);
    }
  }

  /* create. */

  lemma CreatedNames(fs: Inodes, dp: nat, name: Name, i: nat, kind: Kind, p: nat, l: nat, d: nat)
    requires CanAdd(fs, dp, name, i) && fs[i].kind == Free && fs[i].ents == []
    ensures Names(Created(fs, dp, name, i, kind), p, l, d) <==> Names(fs, p, l, d) || (p == dp && l == FreeSlot(fs[dp].ents, 0) && d == i)
  {
    AddEntryGood(fs, dp, name, i);
  }

  lemma CreatedGood(fs: Inodes, depth: seq<nat>, dp: nat, name: Name, i: nat, kind: Kind)
    requires Tree(fs, depth) && CanAdd(fs, dp, name, i) && fs[i].kind == Free && kind != Free
    ensures AllGood(Created(fs, dp, name, i, kind))
  {
    var fs' := Created(fs, dp, name, i, kind);
    forall d | 0 < d < |fs'| && fs'[d].kind == Dir
      ensures GoodEntries(fs', d)
    {
      if d == dp {
        AddEntryGood(fs, dp, name, i);
      } else if d != i {
        assert GoodEntries(fs, d);
      }
    }
  }

  lemma CreatedHangs(fs: Inodes, depth: seq<nat>, dp: nat, name: Name, i: nat, kind: Kind)
    requires Tree(fs, depth) && CanAdd(fs, dp, name, i) && fs[i].kind == Free && fs[i].ents == [] && kind != Free
    ensures AllHang(Created(fs, dp, name, i, kind), depth[i := depth[dp] + 1])
  {
    hide GoodEntries, AddEntry, FreeSlot, Names, Index;
    var fs', depth' := Created(fs, dp, name, i, kind), depth[i := depth[dp] + 1];
    AddEntryGood(fs, dp, name, i);
    forall d | ROOT < d < |fs'| && LinkedDir(fs'[d])
      ensures Hangs(fs', depth', d)
    {
      if d == i {
        CreatedNames(fs, dp, name, i, kind, dp, FreeSlot(fs[dp].ents, 0), i);
      } else {
        assert Hangs(fs, depth, d);
        var k: nat :| Names(fs, Parent(fs, d), k, d);
        CreatedNames(fs, dp, name, i, kind, Parent(fs, d), k, d);
      }
    }
  }

  lemma CreatedNamed(fs: Inodes, depth: seq<nat>, dp: nat, name: Name, i: nat, kind: Kind)
    requires Tree(fs, depth) && CanAdd(fs, dp, name, i) && fs[i].kind == Free && fs[i].ents == [] && Unnamed(fs, i) && kind != Free
    ensures NamedInParent(Created(fs, dp, name, i, kind)) && NamedOnce(Created(fs, dp, name, i, kind))
  {
    var fs' := Created(fs, dp, name, i, kind);
    AddEntryGood(fs, dp, name, i);
    forall p: nat, k: nat, d: nat | Names(fs', p, k, d) && fs'[d].kind == Dir
      ensures p == Parent(fs', d) && LinkedDir(fs'[d])
    {
      CreatedNames(fs, dp, name, i, kind, p, k, d);
    }
    forall p: nat, k: nat, l: nat, d: nat | Names(fs', p, k, d) && Names(fs', p, l, d) && fs'[d].kind == Dir
      ensures k == l
    {
      CreatedNames(fs, dp, name, i, kind, p, k, d);
      CreatedNames(fs, dp, name, i, kind, p, l, d);
    }
  }

  lemma CreatedCounts(fs: Inodes, dp: nat, name: Name, i: nat, kind: Kind, j: nat)
    requires CanAdd(fs, dp, name, i) && fs[i].kind == Free && kind != Free && j != 0
    ensures Count(Created(fs, dp, name, i, kind), |fs|, j) == Count(fs, |fs|, j) + One(j == i) + One(kind == Dir && j == dp)
  {
    AddEntryGood(fs, dp, name, i);
    AddEntryRefs(fs[dp].ents, name, i, j);
    var x := NewInode(i, kind, dp);
    CountUpdate(fs, |fs|, i, x, j);
    if kind == Dir {
      EmptyRefs(x.ents, i, dp, j);
    }
    var y := Inode(fs[dp].kind, fs[dp].nlink + One(kind == Dir), AddEntry(fs[dp].ents, name, i));
    CountUpdate(fs[i := x], |fs|, dp, y, j);
  }

  lemma CreatedKeeps(fs: Inodes, pending: multiset<nat>, depth: seq<nat>, dp: nat, name: Name, i: nat, kind: Kind)
    requires Inv(fs, pending, depth) && CanAdd(fs, dp, name, i) && fs[i].kind == Free && kind != Free
    ensures Inv(Created(fs, dp, name, i, kind), pending, depth[i := depth[dp] + 1])
  {
    FreeIsUnnamed(fs, pending, depth, i);
    CreatedGood(fs, depth, dp, name, i, kind);
    CreatedHangs(fs, depth, dp, name, i, kind);
    CreatedNamed(fs, depth, dp, name, i, kind);
    var fs' := Created(fs, dp, name, i, kind);
    forall j | 0 < j < |fs'|
      ensures CountIs(fs', pending, j)
    {
      CreatedCounts(fs, dp, name, i, kind, j);
      assert CountIs(fs, pending, j);
    }
    AddEntryGood(fs, dp, name, i);
  }

  /* link. */

  // Link counts of files may change; the tree only looks at directories.
  lemma RelinkedKeeps(fs: Inodes, pending: multiset<nat>, depth: seq<nat>, i: nat, more: int)
    requires Inv(fs, pending, depth) && 0 < i < |fs| && fs[i].kind in {File, Dev} && (more == -1 ==> pending[i] > 0) && more in {-1, 1}
    ensures Inv(Relinked(fs, i, more), if more == 1 then pending + multiset{i} else pending - multiset{i}, depth)
  {
    var fs', pending' := Relinked(fs, i, more), if more == 1 then pending + multiset{i} else pending - multiset{i};
    assert forall p: nat, k: nat, d: nat :: Names(fs', p, k, d) <==> Names(fs, p, k, d);
    forall j | 0 < j < |fs'|
      ensures CountIs(fs', pending', j)
    {
      CountUpdate(fs, |fs|, i, fs'[i], j);
      assert CountIs(fs, pending, j);
    }
    SameTree(fs, fs', depth);
  }

  // The tree depends on the directories alone.
  lemma SameTree(fs: Inodes, fs': Inodes, depth: seq<nat>)
    requires Tree(fs, depth) && |fs'| == |fs| && OnlyDirsHold(fs) && OnlyDirsHold(fs')
    requires forall d :: 0 <= d < |fs| ==> fs[d] == fs'[d] || (fs[d].kind != Dir && fs'[d].kind != Dir)
    requires fs'[0].kind == Free
    ensures Tree(fs', depth)
  {
    assert forall p: nat, k: nat, d: nat :: Names(fs', p, k, d) <==> Names(fs, p, k, d);
    forall d | 0 < d < |fs'| && fs'[d].kind == Dir
      ensures GoodEntries(fs', d)
    {
      assert GoodEntries(fs, d);
    }
    forall d | ROOT < d < |fs'| && LinkedDir(fs'[d])
      ensures Hangs(fs', depth, d)
    {
      assert Hangs(fs, depth, d);
      var k: nat :| Names(fs, Parent(fs, d), k, d);
      assert Names(fs', Parent(fs', d), k, d);
    }
  }

  lemma EnteredGood(fs: Inodes, depth: seq<nat>, dp: nat, name: Name, i: nat)
    requires Tree(fs, depth) && CanAdd(fs, dp, name, i)
    ensures AllGood(Entered(fs, dp, name, i))
  {
    var fs' := Entered(fs, dp, name, i);
    forall d | 0 < d < |fs'| && fs'[d].kind == Dir
      ensures GoodEntries(fs', d)
    {
      if d == dp {
        AddEntryGood(fs, dp, name, i);
      } else {
        assert GoodEntries(fs, d);
      }
    }
  }

  lemma EnteredTree(fs: Inodes, depth: seq<nat>, dp: nat, name: Name, i: nat)
    requires Tree(fs, depth) && CanAdd(fs, dp, name, i) && fs[i].kind in {File, Dev}
    ensures Tree(Entered(fs, dp, name, i), depth)
  {
    hide GoodEntries, AddEntry, FreeSlot, Index;
    var fs' := Entered(fs, dp, name, i);
    AddEntryGood(fs, dp, name, i);
    EnteredGood(fs, depth, dp, name, i);
    forall p: nat, k: nat, d: nat
      ensures Names(fs', p, k, d) <==> Names(fs, p, k, d) || (p == dp && k == FreeSlot(fs[dp].ents, 0) && d == i)
    {
      EnteredNames(fs, dp, name, i, p, k, d);
    }
    forall d | ROOT < d < |fs'| && LinkedDir(fs'[d])
      ensures Hangs(fs', depth, d)
    {
      assert Hangs(fs, depth, d);
    }
  }

  lemma EnteredKeeps(fs: Inodes, pending: multiset<nat>, depth: seq<nat>, dp: nat, name: Name, i: nat)
    requires Inv(fs, pending, depth) && CanAdd(fs, dp, name, i) && fs[i].kind in {File, Dev} && pending[i] > 0
    ensures Inv(Entered(fs, dp, name, i), pending - multiset{i}, depth)
  {
    EnteredTree(fs, depth, dp, name, i);
    var fs', pending' := Entered(fs, dp, name, i), pending - multiset{i};
    AddEntryGood(fs, dp, name, i);
    forall j | 0 < j < |fs'|
      ensures CountIs(fs', pending', j)
    {
      CountUpdate(fs, |fs|, dp, fs'[dp], j);
      AddEntryRefs(fs[dp].ents, name, i, j);
      assert CountIs(fs, pending, j);
    }
  }

  /* iput of an unlinked inode. */

  lemma ReleasedKeeps(fs: Inodes, pending: multiset<nat>, depth: seq<nat>, i: nat)
    requires Inv(fs, pending, depth) && 0 < i < |fs| && fs[i].kind != Free && fs[i].nlink == 0
    ensures Inv(Released(fs, i), pending, depth)
  {
    assert CountIs(fs, pending, i);
    var fs' := Released(fs, i);
    forall j | 0 < j < |fs'|
      ensures CountIs(fs', pending, j)
    {
      CountUpdate(fs, |fs|, i, fs'[i], j);
      assert CountIs(fs, pending, j);
    }
    ReleasedTree(fs, pending, depth, i);
  }

  lemma ReleasedTree(fs: Inodes, pending: multiset<nat>, depth: seq<nat>, i: nat)
    requires Inv(fs, pending, depth) && 0 < i < |fs| && fs[i].kind != Free && fs[i].nlink == 0
    ensures Tree(Released(fs, i), depth)
  {
    var fs' := Released(fs, i);
    assert GoodEntries(fs, i) || fs[i].kind != Dir;
    assert forall p: nat, k: nat, d: nat :: Names(fs', p, k, d) <==> Names(fs, p, k, d);
    forall d | 0 < d < |fs'| && fs'[d].kind == Dir
      ensures GoodEntries(fs', d)
    {
      assert GoodEntries(fs, d);
    }
    forall d | ROOT < d < |fs'| && LinkedDir(fs'[d])
      ensures Hangs(fs', depth, d)
    {
      assert Hangs(fs, depth, d);
      var k: nat :| Names(fs, Parent(fs, d), k, d);
      assert Names(fs', Parent(fs', d), k, d);
    }
  }

  /* unlink. */

  // Slot k of dp names i, which is no directory or an empty one.
  ghost predicate CanRemove(fs: Inodes, dp: nat, k: nat, i: nat) {
    Names(fs, dp, k, i) && (fs[i].kind == Dir ==> NoEntries(fs[i].ents))
  }

  lemma ErasedNames(fs: Inodes, dp: nat, k: nat, i: nat, p: nat, l: nat, d: nat)
    requires Names(fs, dp, k, i) && dp != i
    ensures Names(Removed(fs, dp, k), p, l, d) <==> Names(fs, p, l, d) && !(p == dp && l == k)
  {
  }

  lemma NotOwnParent(fs: Inodes, depth: seq<nat>, dp: nat, k: nat, i: nat)
    requires Tree(fs, depth) && OnlyDirsHold(fs) && Names(fs, dp, k, i)
    ensures dp != i && i != ROOT && fs[dp].kind == Dir && |fs[dp].ents| >= 2
  {
    assert GoodEntries(fs, dp);
    if fs[i].kind == Dir {
      assert Hangs(fs, depth, i);
    }
  }

  // The entry of an empty directory in its parent is the only one that names it.
  lemma EmptyHasOneLink(fs: Inodes, pending: multiset<nat>, depth: seq<nat>, dp: nat, k: nat, i: nat)
    requires Inv(fs, pending, depth) && CanRemove(fs, dp, k, i) && fs[i].kind == Dir
    ensures fs[i].nlink == 1
  {
    NotOwnParent(fs, depth, dp, k, i);
    NamedCounts(fs, pending, depth, dp, k, i);
    var fs1 := Erased(fs, dp, k);
    forall d, l | 0 <= d < |fs1| && LinkedDir(fs1[d]) && 0 <= l < |fs1[d].ents|
      ensures !Refers(fs1[d].ents[l], i)
    {
      assert GoodEntries(fs, d);
      if l == 1 && d != ROOT {
        assert Hangs(fs, depth, d);
      } else if l >= 2 && fs[d].ents[l].inum == i {
        assert Names(fs, d, l, i);
      }
    }
    CountZero(fs1, |fs|, i);
    CountUpdate(fs, |fs|, dp, fs1[dp], i);
    EntryRefsUpdate(fs[dp].ents, k, EMPTY_SLOT, i);
    assert CountIs(fs, pending, i);
  }

  lemma {:induction false} EmptyRefs(ents: seq<Dirent>, d: nat, p: nat, j: nat)
    requires |ents| >= 2 && ents[0] == Dirent(d, DOT) && ents[1] == Dirent(p, DOTDOT) && NoEntries(ents) && j != 0
    ensures EntryRefs(ents, j) == One(j == p)
  {
    if |ents| > 2 {
      EmptyRefs(ents[..|ents|-1], d, p, j);
    } else {
      assert ents == [] + [ents[0]] + [ents[1]];
      EntryRefsAppend([], ents[0], j);
      EntryRefsAppend([] + [ents[0]], ents[1], j);
    }
  }

  lemma RemovedCounts(fs: Inodes, pending: multiset<nat>, depth: seq<nat>, dp: nat, k: nat, i: nat, j: nat)
    requires Inv(fs, pending, depth) && CanRemove(fs, dp, k, i) && j != 0 && (fs[i].kind == Dir ==> fs[dp].nlink > 1)
    ensures Count(Removed(fs, dp, k), |fs|, j) + One(j == i) + One(fs[i].kind == Dir && j == dp) == Count(fs, |fs|, j)
  {
    NotOwnParent(fs, depth, dp, k, i);
    NamedCounts(fs, pending, depth, dp, k, i);
    var fs1 := Relinked(Erased(fs, dp, k), dp, if fs[i].kind == Dir then -1 else 0);
    assert fs1 == fs[dp := fs1[dp]];
    CountUpdate(fs, |fs|, dp, fs1[dp], j);
    EntryRefsUpdate(fs[dp].ents, k, EMPTY_SLOT, j);
    CountUpdate(fs1, |fs|, i, Removed(fs, dp, k)[i], j);
    if fs[i].kind == Dir {
      EmptyHasOneLink(fs, pending, depth, dp, k, i);
      assert GoodEntries(fs, i);
      EmptyRefs(fs[i].ents, i, dp, j);
    }
  }

  // A directory with a subdirectory has two links at least: its own name, or the root's "..", and the child's "..".
  lemma ParentHasTwoLinks(fs: Inodes, pending: multiset<nat>, depth: seq<nat>, dp: nat, k: nat, i: nat)
    requires Inv(fs, pending, depth) && CanRemove(fs, dp, k, i) && fs[i].kind == Dir
    ensures fs[dp].nlink >= 2
  {
    NotOwnParent(fs, depth, dp, k, i);
    NamedCounts(fs, pending, depth, dp, k, i);
    EmptyHasOneLink(fs, pending, depth, dp, k, i);
    var x := Inode(Dir, 0, fs[i].ents);
    CountUpdate(fs, |fs|, i, x, dp);
    assert GoodEntries(fs, i) && GoodEntries(fs, dp);
    EmptyRefs(fs[i].ents, i, dp, dp);
    if dp == ROOT {
      CountPositive(fs[i := x], |fs|, dp, dp, 1);
    } else {
      assert Hangs(fs, depth, dp);
      var m: nat :| Names(fs, Parent(fs, dp), m, dp);
      NamedCounts(fs, pending, depth, Parent(fs, dp), m, dp);
      CountPositive(fs[i := x], |fs|, dp, Parent(fs, dp), m);
    }
    assert CountIs(fs, pending, dp);
  }

  lemma RemovedTree(fs: Inodes, pending: multiset<nat>, depth: seq<nat>, dp: nat, k: nat, i: nat)
    requires Inv(fs, pending, depth) && CanRemove(fs, dp, k, i)
    requires fs[i].kind == Dir ==> fs[dp].nlink > 1 && fs[i].nlink == 1
    ensures Tree(Removed(fs, dp, k), depth)
  {
    hide GoodEntries;
    NotOwnParent(fs, depth, dp, k, i);
    NamedCounts(fs, pending, depth, dp, k, i);
    var fs' := Removed(fs, dp, k);
    forall p: nat, l: nat, d: nat
      ensures Names(fs', p, l, d) <==> Names(fs, p, l, d) && !(p == dp && l == k)
    {
      ErasedNames(fs, dp, k, i, p, l, d);
    }
    RemovedGood(fs, pending, depth, dp, k, i);
    forall d | ROOT < d < |fs'| && LinkedDir(fs'[d])
      ensures Hangs(fs', depth, d)
    {
      assert Hangs(fs, depth, d);
      var m: nat :| Names(fs, Parent(fs, d), m, d);
      assert Names(fs', Parent(fs', d), m, d);
    }
  }

  lemma RemovedGood(fs: Inodes, pending: multiset<nat>, depth: seq<nat>, dp: nat, k: nat, i: nat)
    requires Inv(fs, pending, depth) && CanRemove(fs, dp, k, i) && dp != i && fs[dp].kind == Dir
    requires fs[i].kind == Dir ==> fs[dp].nlink > 1 && fs[i].nlink == 1
    ensures AllGood(Removed(fs, dp, k))
  {
    var fs' := Removed(fs, dp, k);
    forall d | 0 < d < |fs'| && fs'[d].kind == Dir
      ensures GoodEntries(fs', d)
    {
      assert GoodEntries(fs, d);
    }
  }

  lemma RemovedKeeps(fs: Inodes, pending: multiset<nat>, depth: seq<nat>, dp: nat, k: nat, i: nat)
    requires Inv(fs, pending, depth) && CanRemove(fs, dp, k, i)
    ensures Inv(Removed(fs, dp, k), pending, depth)
  {
    NotOwnParent(fs, depth, dp, k, i);
    if fs[i].kind == Dir {
      EmptyHasOneLink(fs, pending, depth, dp, k, i);
      ParentHasTwoLinks(fs, pending, depth, dp, k, i);
    }
    RemovedTree(fs, pending, depth, dp, k, i);
    var fs' := Removed(fs, dp, k);
    forall j | 0 < j < |fs'|
      ensures CountIs(fs', pending, j)
    {
      RemovedCounts(fs, pending, depth, dp, k, i, j);
      NamedCounts(fs, pending, depth, dp, k, i);
      assert CountIs(fs, pending, j);
    }
  }

  /* Runs: the system calls cut where they let go of their locks. */

  datatype State = State(fs: Inodes, pending: multiset<nat>)

  /** Create holds its locks throughout. Unlink lets the directory go before its last change, which
      is to the link count of the inode, still locked, so nobody sees it in between. Link counts the
      new link first, lets the inode go, and later enters the name or takes the link back. Put frees
      an unlinked inode. */
  datatype Section =
    | Create(dp: nat, name: Name, kind: Kind)
    | LinkBegin(i: nat)
    | LinkEnter(i: nat, dp: nat, name: Name)
    | LinkUndo(i: nat)
    | Unlink(dp: nat, name: Name)
    | Put(i: nat)

  function FirstFree(fs: Inodes, from: nat): (i: nat)
    requires from <= |fs|
    ensures from <= i <= |fs| && (i < |fs| ==> fs[i].kind == Free)
    ensures forall j :: from <= j < i ==> fs[j].kind != Free
    decreases |fs| - from
  {
    if from == |fs| || fs[from].kind == Free then from else FirstFree(fs, from + 1)
  }

  predicate IsDir(fs: Inodes, dp: nat) {
    0 < dp < |fs| && fs[dp].kind == Dir
  }

  predicate Absent(fs: Inodes, dp: nat, name: Name)
    requires dp < |fs|
  {
    Index(fs[dp].ents, name, 0) == |fs[dp].ents|
  }

  predicate Full(ents: seq<Dirent>) {
    FreeSlot(ents, 0) >= MAXENTS
  }

  // create goes on to make a new entry: it needs a free inode and a slot, or the kernel stops.
  predicate Creates(fs: Inodes, dp: nat, name: Name)
    requires 1 <= |fs|
  {
    IsDir(fs, dp) && Absent(fs, dp, name) && FirstFree(fs, 1) < |fs| && !Full(fs[dp].ents)
  }

  predicate Removable(fs: Inodes, dp: nat, name: Name) {
    && IsDir(fs, dp) && name != DOT && name != DOTDOT && !Absent(fs, dp, name)
    && var i := fs[dp].ents[Index(fs[dp].ents, name, 0)].inum; i < |fs| && (fs[i].kind == Dir ==> NoEntries(fs[i].ents))
  }

  predicate Enabled(s: State, c: Section) {
    && 1 <= |s.fs|
    && match c
       case Create(dp, name, kind) =>
         IsDir(s.fs, dp) && kind != Free && (Absent(s.fs, dp, name) ==> Creates(s.fs, dp, name))
       case LinkBegin(i) => 0 < i < |s.fs| && s.fs[i].kind in {File, Dev}
       case LinkEnter(i, dp, name) =>
         0 < i < |s.fs| && s.pending[i] > 0 && IsDir(s.fs, dp) && Absent(s.fs, dp, name) && !Full(s.fs[dp].ents)
       case LinkUndo(i) => 0 < i < |s.fs| && s.pending[i] > 0
       case Unlink(dp, name) => IsDir(s.fs, dp)
       case Put(i) => 0 < i < |s.fs| && s.fs[i].kind != Free && s.fs[i].nlink == 0
  }

  function Do(s: State, c: Section): State
    requires Enabled(s, c)
  {
    match c
    case Create(dp, name, kind) =>
      if Absent(s.fs, dp, name) then State(Created(s.fs, dp, name, FirstFree(s.fs, 1), kind), s.pending) else s
    case LinkBegin(i) => State(Relinked(s.fs, i, 1), s.pending + multiset{i})
    case LinkEnter(i, dp, name) => State(Entered(s.fs, dp, name, i), s.pending - multiset{i})
    case LinkUndo(i) => State(Relinked(s.fs, i, -1), s.pending - multiset{i})
    case Unlink(dp, name) =>
      if Removable(s.fs, dp, name) then State(Removed(s.fs, dp, Index(s.fs[dp].ents, name, 0)), s.pending) else s
    case Put(i) => State(Released(s.fs, i), s.pending)
  }

  // A new entry goes to a directory that is still linked.
  predicate Tidy(s: State, c: Section)
    requires Enabled(s, c)
  {
    (c.Create? && Absent(s.fs, c.dp, c.name)) || c.LinkEnter? ==> s.fs[c.dp].nlink > 0
  }

  ghost predicate Sound(s: State) {
    exists depth :: Inv(s.fs, s.pending, depth)
  }

  // The name of a removable entry stands past the dots.
  lemma RemovableIsNamed(fs: Inodes, depth: seq<nat>, dp: nat, name: Name)
    requires Tree(fs, depth) && Removable(fs, dp, name)
    ensures var k := Index(fs[dp].ents, name, 0); CanRemove(fs, dp, k, fs[dp].ents[k].inum)
  {
    assert GoodEntries(fs, dp);
  }

  lemma DirectoryCreateKeeps(s: State, depth: seq<nat>, dp: nat, name: Name, kind: Kind)
    requires Inv(s.fs, s.pending, depth) && Creates(s.fs, dp, name) && LinkedDir(s.fs[dp]) && kind != Free
    ensures var i := FirstFree(s.fs, 1); Inv(Created(s.fs, dp, name, i, kind), s.pending, depth[i := depth[dp] + 1])
  {
    assert GoodEntries(s.fs, dp);
    CreatedKeeps(s.fs, s.pending, depth, dp, name, FirstFree(s.fs, 1), kind);
  }

  lemma SectionKeeps(s: State, c: Section, depth: seq<nat>) returns (depth': seq<nat>)
    requires Inv(s.fs, s.pending, depth) && Enabled(s, c) && Tidy(s, c)
    ensures Inv(Do(s, c).fs, Do(s, c).pending, depth')
  {
    hide Inv, LinkCounts, Tree, Created, Entered, Relinked, Removed, Released, Index, FreeSlot, FirstFree;
    depth' := depth;
    match c
    case Create(dp, name, kind) =>
      if Absent(s.fs, dp, name) {
        assert |depth| == |s.fs| by { InvFacts(s, depth); }
        DirectoryCreateKeeps(s, depth, dp, name, kind);
        depth' := depth[FirstFree(s.fs, 1) := depth[dp] + 1];
      }
    case LinkBegin(i) => RelinkedKeeps(s.fs, s.pending, depth, i, 1);
    case LinkEnter(i, dp, name) =>
      InvFacts(s, depth);
      EnteredKeeps(s.fs, s.pending, depth, dp, name, i);
    case LinkUndo(i) =>
      InvFacts(s, depth);
      RelinkedKeeps(s.fs, s.pending, depth, i, -1);
    case Unlink(dp, name) =>
      if Removable(s.fs, dp, name) {
        InvFacts(s, depth);
        RemovableIsNamed(s.fs, depth, dp, name);
        var k := Index(s.fs[dp].ents, name, 0);
        RemovedKeeps(s.fs, s.pending, depth, dp, k, s.fs[dp].ents[k].inum);
      }
    case Put(i) => ReleasedKeeps(s.fs, s.pending, depth, i);
  }

  lemma InvFacts(s: State, depth: seq<nat>)
    requires Inv(s.fs, s.pending, depth)
    ensures |depth| == |s.fs| && Tree(s.fs, depth)
    ensures forall i :: 0 < i < |s.fs| && s.pending[i] > 0 ==> i != ROOT && s.fs[i].kind in {File, Dev}
    ensures forall d :: 0 < d < |s.fs| && s.fs[d].kind == Dir ==> GoodEntries(s.fs, d)
  {
    forall d | 0 < d < |s.fs| && s.fs[d].kind == Dir
      ensures GoodEntries(s.fs, d)
    {
    }
  }

  // A volume as mkfs makes it, before it adds files: the root directory with its dots and empty
  // slots, and free inodes.
  predicate Formatted(s: State) {
    && |s.fs| > ROOT && s.pending == multiset{}
    && s.fs[ROOT].kind == Dir && s.fs[ROOT].nlink == 1 && |s.fs[ROOT].ents| >= 2 && NoEntries(s.fs[ROOT].ents)
    && s.fs[ROOT].ents[0] == Dirent(ROOT, DOT) && s.fs[ROOT].ents[1] == Dirent(ROOT, DOTDOT)
    && forall i :: 0 <= i < |s.fs| && i != ROOT ==> s.fs[i] == Inode(Free, 0, [])
  }

  lemma FormattedIsSound(s: State) returns (depth: seq<nat>)
    requires Formatted(s)
    ensures Inv(s.fs, s.pending, depth)
  {
    depth := seq(|s.fs|, _ => 0);
    assert forall p: nat, k: nat, d: nat :: !Names(s.fs, p, k, d);
    forall i | 0 < i < |s.fs|
      ensures CountIs(s.fs, s.pending, i)
    {
      if i != ROOT {
        CountZero(s.fs, |s.fs|, i);
      } else {
        var x := Inode(Free, 0, []);
        CountUpdate(s.fs, |s.fs|, ROOT, x, i);
        CountZero(s.fs[ROOT := x], |s.fs|, i);
        EmptyRefs(s.fs[ROOT].ents, ROOT, ROOT, i);
      }
    }
    forall d | 0 < d < |s.fs| && s.fs[d].kind == Dir
      ensures GoodEntries(s.fs, d)
    {
    }
  }

  ghost predicate Moves(ss: seq<State>, cs: seq<Section>, n: nat)
    requires n + 1 < |ss| && n < |cs|
  {
    Enabled(ss[n], cs[n]) && ss[n+1] == Do(ss[n], cs[n])
  }

  ghost predicate IsRun(ss: seq<State>, cs: seq<Section>) {
    && |ss| == |cs| + 1 && Formatted(ss[0])
    && forall n {:trigger Moves(ss, cs, n)} :: 0 <= n < |cs| ==> Moves(ss, cs, n)
  }

  // A run whose new entries all go to linked directories.
  ghost predicate IsTidyRun(ss: seq<State>, cs: seq<Section>) {
    IsRun(ss, cs) && forall n {:trigger cs[n]} :: 0 <= n < |cs| ==> Moves(ss, cs, n) && Tidy(ss[n], cs[n])
  }

  lemma {:induction false} RunInv(ss: seq<State>, cs: seq<Section>, n: nat) returns (depth: seq<nat>)
    requires IsTidyRun(ss, cs) && n < |ss|
    ensures Inv(ss[n].fs, ss[n].pending, depth)
    decreases n
  {
    if n == 0 {
      depth := FormattedIsSound(ss[0]);
    } else {
      var before := RunInv(ss, cs, n - 1);
      assert Moves(ss, cs, n - 1) && Tidy(ss[n-1], cs[n-1]);
      depth := SectionKeeps(ss[n-1], cs[n-1], before);
    }
  }

  // Follow ".." n times.
  function Up(fs: Inodes, d: nat, n: nat): nat
    decreases n
  {
    if n == 0 then d else Up(fs, Parent(fs, d), n - 1)
  }

  lemma {:induction false} UpToRoot(fs: Inodes, depth: seq<nat>, d: nat)
    requires Tree(fs, depth) && 0 < d < |fs| && LinkedDir(fs[d])
    ensures Up(fs, d, depth[d]) == ROOT
    decreases depth[d]
  {
    if d != ROOT {
      assert Hangs(fs, depth, d);
      UpToRoot(fs, depth, Parent(fs, d));
    }
  }

  /** In every state of every tidy run: the link count of each inode in use is the number of names it
      has in linked directories, other than ".", plus its links in flight; a free inode is named
      nowhere, except by the ".." of a removed directory. */
  lemma LinkCountsAreExact(ss: seq<State>, cs: seq<Section>, n: nat, i: nat)
    requires IsTidyRun(ss, cs) && n < |ss| && 0 < i < |ss[n].fs|
    ensures var s := ss[n]; s.fs[i].kind != Free ==> s.fs[i].nlink == Count(s.fs, |s.fs|, i) + s.pending[i]
    ensures var s := ss[n]; s.fs[i].kind == Free ==> Count(s.fs, |s.fs|, i) == 0 && Unnamed(s.fs, i)
  {
    var depth := RunInv(ss, cs, n);
    var s := ss[n];
    assert CountIs(s.fs, s.pending, i);
    if s.fs[i].kind == Free {
      FreeIsUnnamed(s.fs, s.pending, depth, i);
    }
  }

  /** In every state of every tidy run: each linked directory reaches the root by following "..", holds
      its dots first and no name twice, and past the dots is named in one slot, of its parent; a
      directory that is no longer linked is empty. */
  lemma DirectoriesFormATree(ss: seq<State>, cs: seq<Section>, n: nat, d: nat)
    requires IsTidyRun(ss, cs) && n < |ss| && IsDir(ss[n].fs, d)
    ensures var es := ss[n].fs[d].ents; |es| >= 2 && es[0] == Dirent(d, DOT) && es[1].name == DOTDOT && UniqueNames(es)
    ensures var fs := ss[n].fs; LinkedDir(fs[d]) ==> exists m :: Up(fs, d, m) == ROOT
    ensures var fs := ss[n].fs; LinkedDir(fs[d]) && d != ROOT ==> exists k :: Names(fs, Parent(fs, d), k, d) && OnlyName(fs, Parent(fs, d), k, d)
    ensures var fs := ss[n].fs; !LinkedDir(fs[d]) ==> NoEntries(fs[d].ents) && Unnamed(fs, d)
  {
    var depth := RunInv(ss, cs, n);
    var fs := ss[n].fs;
    assert GoodEntries(fs, d);
    if LinkedDir(fs[d]) {
      UpToRoot(fs, depth, d);
      if d != ROOT {
        assert Hangs(fs, depth, d);
      }
    }
  }

  ghost predicate OnlyName(fs: Inodes, p: nat, k: nat, d: nat) {
    forall q: nat, l: nat :: Names(fs, q, l, d) ==> q == p && l == k
  }

  /** A directory removed while a process still holds it can be named in a create: the new inode
      gets a link count of one though no linked directory names it. With the link check made, and
      only then, create keeps the invariant. */
  lemma CreateKeepsIff(s: State, dp: nat, name: Name, kind: Kind, depth: seq<nat>)
    requires Inv(s.fs, s.pending, depth) && Creates(s.fs, dp, name) && kind != Free
    ensures Sound(State(Created(s.fs, dp, name, FirstFree(s.fs, 1), kind), s.pending)) <==> LinkedDir(s.fs[dp])
  {
    var i := FirstFree(s.fs, 1);
    var fs' := Created(s.fs, dp, name, i, kind);
    if LinkedDir(s.fs[dp]) {
      DirectoryCreateKeeps(s, depth, dp, name, kind);
      assert Inv(fs', s.pending, depth[i := depth[dp] + 1]);
    } else if Sound(State(fs', s.pending)) {
      OrphanBreaks(s, dp, name, kind, depth);
    }
  }

  lemma OrphanBreaks(s: State, dp: nat, name: Name, kind: Kind, depth: seq<nat>)
    requires Inv(s.fs, s.pending, depth) && Creates(s.fs, dp, name) && kind != Free && !LinkedDir(s.fs[dp])
    ensures !Sound(State(Created(s.fs, dp, name, FirstFree(s.fs, 1), kind), s.pending))
  {
    var i := FirstFree(s.fs, 1);
    var fs' := Created(s.fs, dp, name, i, kind);
    forall depth' | Inv(fs', s.pending, depth')
      ensures false
    {
      assert GoodEntries(s.fs, dp);
      AddEntryAt(s.fs[dp].ents, name, i);
      if LinkedDir(fs'[dp]) {
        assert Hangs(fs', depth', dp);
        var k: nat :| Names(fs', Parent(fs', dp), k, dp);
        assert Names(s.fs, Parent(fs', dp), k, dp);
        assert false;
      } else {
        OrphanEntry(fs', dp, FreeSlot(s.fs[dp].ents, 0));
      }
    }
  }

  lemma OrphanEntry(fs: Inodes, dp: nat, k: nat)
    requires IsDir(fs, dp) && !LinkedDir(fs[dp]) && 2 <= k < |fs[dp].ents| && fs[dp].ents[k].inum != 0
    ensures !AllGood(fs)
  {
    assert !GoodEntries(fs, dp);
  }

  lemma AddEntryAt(ents: seq<Dirent>, name: Name, i: nat)
    ensures var k := FreeSlot(ents, 0); k < |AddEntry(ents, name, i)| && AddEntry(ents, name, i)[k] == Dirent(i, name)
  {
  }

  /** The same for a link: the name is entered in a directory removed meanwhile, and the link that
      was counted is in no linked directory. */
  lemma EnterKeepsIff(s: State, i: nat, dp: nat, name: Name, depth: seq<nat>)
    requires Inv(s.fs, s.pending, depth) && 0 < i < |s.fs| && s.pending[i] > 0 && IsDir(s.fs, dp) && Absent(s.fs, dp, name) && !Full(s.fs[dp].ents)
    ensures Sound(State(Entered(s.fs, dp, name, i), s.pending - multiset{i})) <==> LinkedDir(s.fs[dp])
  {
    var fs' := Entered(s.fs, dp, name, i);
    InvFacts(s, depth);
    if LinkedDir(s.fs[dp]) {
      EnteredKeeps(s.fs, s.pending, depth, dp, name, i);
      assert Inv(fs', s.pending - multiset{i}, depth);
    } else {
      assert GoodEntries(s.fs, dp);
      AddEntryAt(s.fs[dp].ents, name, i);
      OrphanEntry(fs', dp, FreeSlot(s.fs[dp].ents, 0));
    }
  }

  /** A section keeps the invariant exactly if it makes no entry in a directory that is no longer
      linked. */
  lemma SectionKeepsIff(s: State, c: Section, depth: seq<nat>)
    requires Inv(s.fs, s.pending, depth) && Enabled(s, c)
    ensures Sound(Do(s, c)) <==> Tidy(s, c)
  {
    hide Inv;
    if Tidy(s, c) {
      var depth' := SectionKeeps(s, c, depth);
    } else if c.Create? {
      OrphanBreaks(s, c.dp, c.name, c.kind, depth);
    } else {
      EnterKeepsIff(s, c.i, c.dp, c.name, depth);
    }
  }

  /* Both cases are reached from every formatted volume with four inodes. */

  lemma NameAt(ents: seq<Dirent>, name: Name, k: nat)
    requires k <= |ents| && (k < |ents| ==> Holds(ents[k], name)) && forall j :: 0 <= j < k ==> !Holds(ents[j], name)
    ensures Index(ents, name, 0) == k
  {
  }

  lemma SlotAt(ents: seq<Dirent>, k: nat)
    requires k <= |ents| && (k < |ents| ==> ents[k].inum == 0) && forall j :: 0 <= j < k ==> ents[j].inum != 0
    ensures FreeSlot(ents, 0) == k
  {
  }

  // A directory of the given inode with the given parent: its dots, entries es, empty slots.
  ghost predicate Contains(x: Inode, i: nat, p: nat, es: seq<Dirent>) {
    && x.kind == Dir && |x.ents| >= 2 + |es| && x.ents[0] == Dirent(i, DOT) && x.ents[1] == Dirent(p, DOTDOT)
    && (forall j :: 2 <= j < 2 + |es| ==> x.ents[j] == es[j-2]) && forall j :: 2 + |es| <= j < |x.ents| ==> x.ents[j].inum == 0
  }

  lemma ContainsAdd(x: Inode, i: nat, p: nat, es: seq<Dirent>, name: Name, n: nat)
    requires Contains(x, i, p, es) && i != 0 && p != 0 && |es| < 10 && name != DOT && name != DOTDOT && n != 0
    requires forall j :: 0 <= j < |es| ==> es[j].inum != 0 && es[j].name != name
    ensures Index(x.ents, name, 0) == |x.ents| && FreeSlot(x.ents, 0) == 2 + |es|
    ensures forall m :: Contains(Inode(Dir, m, AddEntry(x.ents, name, n)), i, p, es + [Dirent(n, name)])
  {
    NameAt(x.ents, name, |x.ents|);
    SlotAt(x.ents, 2 + |es|);
  }

  // The inodes below n are in use and all others are free.
  ghost predicate UsedTo(fs: Inodes, n: nat) {
    n <= |fs| && (forall j :: 1 <= j < n ==> fs[j].kind != Free) && forall j :: n <= j < |fs| ==> fs[j] == Inode(Free, 0, [])
  }

  // Make a first entry in the root of a formatted volume, directory "a".
  lemma MadeDirectory(s0: State) returns (s1: State)
    requires Formatted(s0) && |s0.fs| >= 4
    ensures Enabled(s0, Create(ROOT, "a", Dir)) && s1 == Do(s0, Create(ROOT, "a", Dir))
    ensures |s1.fs| == |s0.fs| && UsedTo(s1.fs, 3) && s1.fs[2] == NewInode(2, Dir, ROOT) && s1.pending == multiset{}
    ensures Contains(s1.fs[ROOT], ROOT, ROOT, [Dirent(2, "a")]) && s1.fs[ROOT].nlink == 2
  {
    assert FirstFree(s0.fs, 1) == 2;
    ContainsAdd(s0.fs[ROOT], ROOT, ROOT, [], "a", 2);
    assert [] + [Dirent(2, "a")] == [Dirent(2, "a")];
    s1 := Do(s0, Create(ROOT, "a", Dir));
  }

  // Remove "a" again, whatever came after it in the root.
  lemma RemovedDirectory(s: State, es: seq<Dirent>) returns (s': State)
    requires 3 <= |s.fs| && Contains(s.fs[ROOT], ROOT, ROOT, [Dirent(2, "a")] + es) && s.fs[2].kind == Dir && NoEntries(s.fs[2].ents)
    ensures Enabled(s, Unlink(ROOT, "a")) && s' == Do(s, Unlink(ROOT, "a"))
    ensures |s'.fs| == |s.fs| && s'.pending == s.pending && s'.fs[2] == Inode(Dir, s.fs[2].nlink - 1, s.fs[2].ents)
    ensures forall j :: 3 <= j < |s.fs| ==> s'.fs[j] == s.fs[j]
    ensures s'.fs[ROOT].kind == Dir
  {
    var x := s.fs[ROOT];
    assert x.ents[2] == ([Dirent(2, "a")] + es)[0];
    assert "." [0] == '.' && "a"[0] == 'a' && ".."[0] == '.';
    NameAt(x.ents, "a", 2);
    s' := Do(s, Unlink(ROOT, "a"));
  }

  lemma Extend(ss: seq<State>, cs: seq<Section>, c: Section)
    requires IsRun(ss, cs) && Enabled(ss[|cs|], c)
    ensures IsRun(ss + [Do(ss[|cs|], c)], cs + [c])
  {
    hide Do, Enabled, Formatted;
    var ss', cs' := ss + [Do(ss[|cs|], c)], cs + [c];
    forall n | 0 <= n < |cs'|
      ensures Moves(ss', cs', n)
    {
      if n < |cs| {
        assert Moves(ss, cs, n);
        assert ss'[n] == ss[n] && ss'[n+1] == ss[n+1] && cs'[n] == cs[n];
      }
    }
  }

  // Make directory "a" and remove it.
  lemma MadeAndRemoved(s0: State) returns (s1: State, s2: State)
    requires Formatted(s0) && |s0.fs| >= 4
    ensures IsTidyRun([s0, s1, s2], [Create(ROOT, "a", Dir), Unlink(ROOT, "a")]) && Enabled(s2, Create(2, "x", File)) && Creates(s2.fs, 2, "x")
    ensures s2.fs[2].nlink == 0
  {
    s1 := MadeDirectory(s0);
    s2 := RemovedDirectory(s1, []);
    var ss, cs := [s0, s1, s2], [Create(ROOT, "a", Dir), Unlink(ROOT, "a")];
    assert Moves(ss, cs, 0) && Moves(ss, cs, 1);
    ContainsAdd(s2.fs[2], 2, ROOT, [], "x", 3);
    assert s2.fs[3].kind == Free;
  }

  /** Then create in it. */
  lemma CreateInRemovedDirectory(s0: State) returns (ss: seq<State>)
    requires Formatted(s0) && |s0.fs| >= 4
    ensures IsRun(ss, [Create(ROOT, "a", Dir), Unlink(ROOT, "a"), Create(2, "x", File)]) && ss[0] == s0 && !Sound(ss[3])
  {
    var s1, s2 := MadeAndRemoved(s0);
    var c := Create(2, "x", File);
    var depth := RunInv([s0, s1, s2], [Create(ROOT, "a", Dir), Unlink(ROOT, "a")], 2);
    Extend([s0, s1, s2], [Create(ROOT, "a", Dir), Unlink(ROOT, "a")], c);
    ss := [s0, s1, s2] + [Do(s2, c)];
    assert [Create(ROOT, "a", Dir), Unlink(ROOT, "a")] + [c] == [Create(ROOT, "a", Dir), Unlink(ROOT, "a"), c];
    OrphanBreaks(s2, 2, "x", File, depth);
  }

  // Make directory "a" and file "f", begin a link to "f", and remove "a".
  lemma LinkedMeanwhile(s0: State) returns (ss: seq<State>, cs: seq<Section>)
    requires Formatted(s0) && |s0.fs| >= 4
    ensures IsTidyRun(ss, cs) && ss[0] == s0 && cs == [Create(ROOT, "a", Dir), Create(ROOT, "f", File), LinkBegin(3), Unlink(ROOT, "a")]
    ensures Enabled(ss[4], LinkEnter(3, 2, "x")) && !LinkedDir(ss[4].fs[2])
  {
    var s1 := MadeDirectory(s0);
    assert s1.fs[3].kind == Free && FirstFree(s1.fs, 1) == 3;
    ContainsAdd(s1.fs[ROOT], ROOT, ROOT, [Dirent(2, "a")], "f", 3);
    var s2 := Do(s1, Create(ROOT, "f", File));
    var s3 := Do(s2, LinkBegin(3));
    assert [Dirent(2, "a")] + [Dirent(3, "f")] == [Dirent(2, "a"), Dirent(3, "f")];
    var s4 := RemovedDirectory(s3, [Dirent(3, "f")]);
    ss, cs := [s0, s1, s2, s3, s4], [Create(ROOT, "a", Dir), Create(ROOT, "f", File), LinkBegin(3), Unlink(ROOT, "a")];
    assert Moves(ss, cs, 0) && Moves(ss, cs, 1) && Moves(ss, cs, 2) && Moves(ss, cs, 3);
    ContainsAdd(s4.fs[2], 2, ROOT, [], "x", 3);
  }

  /** Then enter the link in it. */
  lemma LinkIntoRemovedDirectory(s0: State) returns (ss: seq<State>, cs: seq<Section>)
    requires Formatted(s0) && |s0.fs| >= 4
    ensures IsRun(ss, cs) && ss[0] == s0 && cs == [Create(ROOT, "a", Dir), Create(ROOT, "f", File), LinkBegin(3), Unlink(ROOT, "a"), LinkEnter(3, 2, "x")]
    ensures !Sound(ss[5])
  {
    ss, cs := LinkedMeanwhile(s0);
    var depth := RunInv(ss, cs, 4);
    EnterKeepsIff(ss[4], 3, 2, "x", depth);
    Extend(ss, cs, LinkEnter(3, 2, "x"));
    ss, cs := ss + [Do(ss[4], LinkEnter(3, 2, "x"))], cs + [LinkEnter(3, 2, "x")];
  }

  /* What the entries of a directory name. */

  predicate HasLink(fs: Inodes, i: nat) {
    0 < i < |fs| && fs[i].kind != Free && fs[i].nlink > 0
  }

  lemma LinkedNamesLinked(fs: Inodes, pending: multiset<nat>, depth: seq<nat>, d: nat, k: nat)
    requires Inv(fs, pending, depth) && 0 < d < |fs| && LinkedDir(fs[d]) && k < |fs[d].ents| && fs[d].ents[k].inum != 0
    ensures HasLink(fs, fs[d].ents[k].inum)
  {
    var i := fs[d].ents[k].inum;
    assert GoodEntries(fs, d);
    if k == 1 && d != ROOT {
      assert Hangs(fs, depth, d);
    } else if k >= 2 {
      NamedCounts(fs, pending, depth, d, k, i);
      assert CountIs(fs, pending, i);
    }
  }

  /** In every state of every tidy run: a directory is linked exactly if every inode its entries name is in
      use and has a link. One that is not holds its dots and nothing else. */
  lemma EntriesLinkedIff(ss: seq<State>, cs: seq<Section>, n: nat, d: nat)
    requires IsTidyRun(ss, cs) && n < |ss| && IsDir(ss[n].fs, d)
    ensures var fs := ss[n].fs; LinkedDir(fs[d]) <==> forall k :: 0 <= k < |fs[d].ents| && fs[d].ents[k].inum != 0 ==> HasLink(fs, fs[d].ents[k].inum)
    ensures var fs := ss[n].fs; !LinkedDir(fs[d]) ==> forall k :: 0 <= k < |fs[d].ents| && fs[d].ents[k].inum != 0 ==> k < 2
  {
    var depth := RunInv(ss, cs, n);
    var s := ss[n];
    assert GoodEntries(s.fs, d);
    if LinkedDir(s.fs[d]) {
      forall k | 0 <= k < |s.fs[d].ents| && s.fs[d].ents[k].inum != 0
        ensures HasLink(s.fs, s.fs[d].ents[k].inum)
      {
        LinkedNamesLinked(s.fs, s.pending, depth, d, k);
      }
    } else {
      assert !HasLink(s.fs, s.fs[d].ents[0].inum);
    }
  }

  // The step that makes a free inode p a new one.
  predicate Allocates(s: State, c: Section, p: nat)
    requires Enabled(s, c)
  {
    c.Create? && Absent(s.fs, c.dp, c.name) && FirstFree(s.fs, 1) == p
  }

  /** A section that leaves directory d in place leaves its ".." alone; the inode that ".." names is in
      use afterwards exactly if it was and is not put, or was not and is the one allocated. */
  lemma DotDotStep(s: State, c: Section, depth: seq<nat>, d: nat)
    requires Inv(s.fs, s.pending, depth) && Enabled(s, c) && IsDir(s.fs, d) && IsDir(Do(s, c).fs, d)
    ensures var p, fs' := Parent(s.fs, d), Do(s, c).fs; Parent(fs', d) == p && 0 < p < |s.fs| && |fs'| == |s.fs|
    ensures var p, fs' := Parent(s.fs, d), Do(s, c).fs; fs'[p].kind != Free <==> if s.fs[p].kind != Free then c != Put(p) else Allocates(s, c, p)
  {
    assert GoodEntries(s.fs, d);
    if c.Unlink? && Removable(s.fs, c.dp, c.name) {
      RemovableIsNamed(s.fs, depth, c.dp, c.name);
    }
  }

  /** While a directory that was once linked stays in place, linked or not, the inode its ".." names
      stays in use exactly as long as it is not put. */
  lemma {:induction false} DotDotLasts(ss: seq<State>, cs: seq<Section>, m: nat, n: nat, d: nat)
    requires IsTidyRun(ss, cs) && m <= n < |ss| && forall j :: m <= j <= n ==> IsDir(ss[j].fs, d)
    requires IsDir(ss[m].fs, d) && LinkedDir(ss[m].fs[d])
    ensures var p := Parent(ss[m].fs, d); Parent(ss[n].fs, d) == p && 0 < p && forall j :: m <= j <= n ==> p < |ss[j].fs|
    ensures var p := Parent(ss[m].fs, d); (forall j :: m <= j <= n ==> ss[j].fs[p].kind != Free) <==> (forall j :: m <= j < n ==> cs[j] != Put(p))
    decreases n
  {
    hide Inv, GoodEntries, Do, Enabled, Parent, Formatted, Allocates;
    var p := Parent(ss[m].fs, d);
    if n == m {
      var depth := RunInv(ss, cs, n);
      ParentInUse(ss[m], depth, d);
    } else {
      DotDotLasts(ss, cs, m, n - 1, d);
      var depth := RunInv(ss, cs, n - 1);
      assert Moves(ss, cs, n - 1);
      DotDotStep(ss[n-1], cs[n-1], depth, d);
    }
  }

  lemma ParentInUse(s: State, depth: seq<nat>, d: nat)
    requires Inv(s.fs, s.pending, depth) && IsDir(s.fs, d) && LinkedDir(s.fs[d])
    ensures HasLink(s.fs, Parent(s.fs, d))
  {
    assert GoodEntries(s.fs, d);
    LinkedNamesLinked(s.fs, s.pending, depth, d, 1);
  }

  /** Make "a" and "a/b", remove both, and let "a" go: while "a/b" is still held, its ".." names a
      free inode. */
  lemma DotDotOutlivesParent(s0: State) returns (ss: seq<State>)
    requires Formatted(s0) && |s0.fs| >= 4
    ensures IsTidyRun(ss, [Create(ROOT, "a", Dir), Create(2, "b", Dir), Unlink(2, "b"), Unlink(ROOT, "a"), Put(2)]) && ss[0] == s0
    ensures var fs := ss[5].fs; IsDir(fs, 3) && fs[3].nlink == 0 && |fs[3].ents| >= 2 && fs[3].ents[1] == Dirent(2, DOTDOT) && fs[2].kind == Free
  {
    var s1 := MadeDirectory(s0);
    assert s1.fs[3].kind == Free && FirstFree(s1.fs, 1) == 3;
    ContainsAdd(s1.fs[2], 2, ROOT, [], "b", 3);
    var s2 := Do(s1, Create(2, "b", Dir));
    assert [] + [Dirent(3, "b")] == [Dirent(3, "b")];
    var s3 := RemovedChild(s2);
    var s4 := RemovedDirectory(s3, []);
    var s5 := Do(s4, Put(2));
    ss := [s0, s1, s2, s3, s4, s5];
    var cs := [Create(ROOT, "a", Dir), Create(2, "b", Dir), Unlink(2, "b"), Unlink(ROOT, "a"), Put(2)];
    assert Moves(ss, cs, 0) && Moves(ss, cs, 1) && Moves(ss, cs, 2) && Moves(ss, cs, 3) && Moves(ss, cs, 4);
  }

  lemma RemovedChild(s: State) returns (s': State)
    requires 4 <= |s.fs| && Contains(s.fs[2], 2, ROOT, [Dirent(3, "b")]) && s.fs[2].nlink == 2 && s.fs[3] == NewInode(3, Dir, 2)
    ensures Enabled(s, Unlink(2, "b")) && s' == Do(s, Unlink(2, "b"))
    ensures |s'.fs| == |s.fs| && s'.fs[ROOT] == s.fs[ROOT] && s'.fs[2].kind == Dir && s'.fs[2].nlink == 1 && NoEntries(s'.fs[2].ents)
    ensures s'.fs[3] == Inode(Dir, 0, NewInode(3, Dir, 2).ents)
  {
    var x := s.fs[2];
    assert x.ents[2] == [Dirent(3, "b")][0];
    assert "." [0] == '.' && "b"[0] == 'b' && ".."[0] == '.';
    NameAt(x.ents, "b", 2);
    s' := Do(s, Unlink(2, "b"));
  }

  // unlink never stops on a link count below one.
  lemma NamedHasLink(fs: Inodes, pending: multiset<nat>, depth: seq<nat>, dp: nat, name: Name)
    requires Inv(fs, pending, depth) && IsDir(fs, dp) && !Absent(fs, dp, name) && name != DOT && name != DOTDOT
    ensures var k := Index(fs[dp].ents, name, 0); var i := fs[dp].ents[k].inum; Names(fs, dp, k, i) && i != dp && 0 < i < |fs| && fs[i].nlink >= 1
  {
    var k := Index(fs[dp].ents, name, 0);
    var i := fs[dp].ents[k].inum;
    assert GoodEntries(fs, dp);
    assert Names(fs, dp, k, i);
    NotOwnParent(fs, depth, dp, k, i);
    NamedCounts(fs, pending, depth, dp, k, i);
    assert CountIs(fs, pending, i);
  }

  function Allocated(fs: Inodes, dp: nat, i: nat, kind: Kind): Inodes
    requires dp < |fs| && i < |fs|
  {
    Relinked(fs[i := NewInode(i, kind, dp)], dp, One(kind == Dir))
  }

  lemma CreatedInSteps(fs: Inodes, dp: nat, name: Name, i: nat, kind: Kind)
    requires dp < |fs| && i < |fs| && i != dp
    ensures var fs1 := Allocated(fs, dp, i, kind); |fs1| == |fs| && fs1[dp].ents == fs[dp].ents
    ensures Entered(Allocated(fs, dp, i, kind), dp, name, i) == Created(fs, dp, name, i, kind)
  {
  }

  /* The operations as the kernel runs them. */

  datatype Outcome = Done(inum: nat) | Failed | Panicked

  class Namespace {
    var inodes: Inodes
    ghost var pending: multiset<nat>
    ghost var depth: seq<nat>

    ghost predicate Valid()
      reads this
    {
      Inv(inodes, pending, depth)
    }

    ghost function Now(): State
      reads this
    {
      State(inodes, pending)
    }

    method DirLookup(dp: nat, name: Name) returns (k: nat)
      requires dp < |inodes|
      ensures k == Index(inodes[dp].ents, name, 0)
    {
      k := 0;
      while k < |inodes[dp].ents| && !Holds(inodes[dp].ents[k], name)
        invariant k <= |inodes[dp].ents| && Index(inodes[dp].ents, name, 0) == Index(inodes[dp].ents, name, k)
      {
        k := k + 1;
      }
    }

    method DirLink(dp: nat, name: Name, i: nat) returns (out: Outcome)
      requires dp < |inodes|
      modifies this`inodes
      ensures out.Failed? <==> !Absent(old(inodes), dp, name)
      ensures out.Panicked? <==> Absent(old(inodes), dp, name) && Full(old(inodes)[dp].ents)
      ensures out.Done? ==> out == Done(i)
      ensures inodes == if out.Done? then Entered(old(inodes), dp, name, i) else old(inodes)
    {
      var k := DirLookup(dp, name);
      var es := inodes[dp].ents;
      if k < |es| {
        return Failed;
      }
      k := 0;
      while k < |es| && es[k].inum != 0
        invariant k <= |es| && FreeSlot(es, 0) == FreeSlot(es, k)
      {
        k := k + 1;
      }
      if k >= MAXENTS {
        return Panicked;
      }
      var e := Dirent(i, name);
      es := if k < |es| then es[k := e] else es + [e];
      inodes := inodes[dp := Inode(inodes[dp].kind, inodes[dp].nlink, es)];
      out := Done(i);
    }

    method IsDirEmpty(dp: nat) returns (empty: bool)
      requires dp < |inodes|
      ensures empty <==> NoEntries(inodes[dp].ents)
    {
      var k := 2;
      while k < |inodes[dp].ents|
        invariant k >= 2 && forall l :: 2 <= l < k && l < |inodes[dp].ents| ==> inodes[dp].ents[l].inum == 0
      {
        if inodes[dp].ents[k].inum != 0 {
          return false;
        }
        k := k + 1;
      }
      empty := true;
    }

    method IAlloc(kind: Kind) returns (out: Outcome)
      requires 1 <= |inodes|
      modifies this`inodes
      ensures var i := FirstFree(old(inodes), 1); if i == |old(inodes)| then out == Panicked && inodes == old(inodes)
                                                  else out == Done(i) && inodes == old(inodes)[i := Inode(kind, 0, [])]
    {
      var i := 1;
      while i < |inodes| && inodes[i].kind != Free
        invariant 1 <= i <= |inodes| && FirstFree(inodes, 1) == FirstFree(inodes, i)
      {
        i := i + 1;
      }
      if i == |inodes| {
        return Panicked;
      }
      inodes := inodes[i := Inode(kind, 0, [])];
      out := Done(i);
    }

    method AdjustLinks(i: nat, more: int)
      requires i < |inodes|
      modifies this`inodes
      ensures inodes == Relinked(old(inodes), i, more)
    {
      inodes := inodes[i := Inode(inodes[i].kind, inodes[i].nlink + more, inodes[i].ents)];
    }

    // The entries of a new directory.
    method MakeDots(i: nat, dp: nat)
      requires i < |inodes| && inodes[i] == Inode(Dir, 1, []) && i != 0
      modifies this`inodes
      ensures inodes == old(inodes)[i := NewInode(i, Dir, dp)]
    {
      assert FreeSlot([], 0) == 0;
      var out := DirLink(i, DOT, i);
      assert inodes[i].ents == [Dirent(i, DOT)];
      assert Index(inodes[i].ents, DOTDOT, 0) == 1 && FreeSlot(inodes[i].ents, 0) == 1;
      out := DirLink(i, DOTDOT, dp);
      assert inodes[i].ents == [Dirent(i, DOT), Dirent(dp, DOTDOT)];
      assert inodes == old(inodes)[i := NewInode(i, Dir, dp)];
    }

    method Create(dp: nat, name: Name, kind: Kind) returns (out: Outcome)
      requires Valid() && IsDir(inodes, dp) && kind != Free
      modifies this
      ensures out.Panicked? <==> Absent(old(inodes), dp, name) && !Creates(old(inodes), dp, name)
      ensures !Absent(old(inodes), dp, name) ==> unchanged(this)
      ensures Creates(old(inodes), dp, name) ==>
                var i := FirstFree(old(inodes), 1); out == Done(i) && Now() == State(Created(old(inodes), dp, name, i, kind), old(pending))
      ensures old(inodes)[dp].nlink > 0 && !out.Panicked? ==> Valid()
      ensures Creates(old(inodes), dp, name) ==> (Sound(Now()) <==> LinkedDir(old(inodes)[dp]))
    {
      hide Inv, Created, Allocated, Index, FreeSlot, AddEntry, FirstFree;
      var k := DirLookup(dp, name);
      if k < |inodes[dp].ents| {
        var i := inodes[dp].ents[k].inum;
        return if kind == File && i < |inodes| && inodes[i].kind == File then Done(i) else Failed;
      }
      ghost var s := Now();
      InvFacts(s, depth);
      out := MakeInode(dp, kind);
      if out.Panicked? {
        return;
      }
      var i := out.inum;
      CreatedInSteps(s.fs, dp, name, i, kind);
      out := DirLink(dp, name, i);
      if out.Done? {
        CreateKeepsIff(s, dp, name, kind, depth);
        if s.fs[dp].nlink > 0 {
          DirectoryCreateKeeps(s, depth, dp, name, kind);
          depth := depth[i := depth[dp] + 1];
        }
      }
    }

    // A new inode, with its dots if it is a directory, before it is entered in dp.
    method MakeInode(dp: nat, kind: Kind) returns (out: Outcome)
      requires 1 <= |inodes| && dp < |inodes| && inodes[dp].kind != Free
      modifies this`inodes
      ensures var i := FirstFree(old(inodes), 1); if i == |old(inodes)| then out == Panicked
                                                  else out == Done(i) && inodes == Allocated(old(inodes), dp, i, kind)
    {
      out := IAlloc(kind);
      if out.Panicked? {
        return;
      }
      var i := out.inum;
      AdjustLinks(i, 1);
      if kind == Dir {
        AdjustLinks(dp, 1);
        MakeDots(i, dp);
      }
      assert inodes == Allocated(old(inodes), dp, i, kind);
    }

    // The first half of link: count the link, then let the inode go.
    method LinkBegin(i: nat) returns (ok: bool)
      requires Valid() && 0 < i < |inodes| && inodes[i].kind != Free
      modifies this
      ensures Valid() && ok == (old(inodes)[i].kind != Dir)
      ensures if ok then Enabled(old(Now()), Section.LinkBegin(i)) && Now() == Do(old(Now()), Section.LinkBegin(i)) else unchanged(this)
    {
      ok := inodes[i].kind != Dir;
      if ok {
        RelinkedKeeps(inodes, pending, depth, i, 1);
        AdjustLinks(i, 1);
        pending := pending + multiset{i};
      }
    }

    // The second half: enter the name, or take the link back.
    method LinkFinish(i: nat, dp: nat, name: Name) returns (out: Outcome)
      requires Valid() && 0 < i < |inodes| && pending[i] > 0 && IsDir(inodes, dp)
      modifies this
      ensures out.Panicked? <==> Absent(old(inodes), dp, name) && Full(old(inodes)[dp].ents)
      ensures out.Failed? <==> !Absent(old(inodes), dp, name)
      ensures out.Done? ==> Now() == State(Entered(old(inodes), dp, name, i), old(pending) - multiset{i})
      ensures out.Failed? ==> Valid() && Now() == Do(old(Now()), Section.LinkUndo(i))
      ensures old(inodes)[dp].nlink > 0 && out.Done? ==> Valid()
      ensures out.Done? ==> (Sound(Now()) <==> LinkedDir(old(inodes)[dp]))
    {
      hide Inv, Tree, GoodEntries, AddEntry, FreeSlot, Index;
      ghost var s := Now();
      InvFacts(s, depth);
      out := DirLink(dp, name, i);
      if out.Done? {
        EnterKeepsIff(s, i, dp, name, depth);
        if s.fs[dp].nlink > 0 {
          EnteredKeeps(s.fs, s.pending, depth, dp, name, i);
        }
        pending := pending - multiset{i};
      } else if out.Failed? {
        RelinkedKeeps(s.fs, s.pending, depth, i, -1);
        AdjustLinks(i, -1);
        pending := pending - multiset{i};
      }
    }

    method Unlink(dp: nat, name: Name) returns (ok: bool)
      requires Valid() && IsDir(inodes, dp)
      modifies this
      ensures Valid() && ok == Removable(old(inodes), dp, name) && Now() == Do(old(Now()), Section.Unlink(dp, name))
    {
      hide Inv, Names, Index;
      if name == DOT || name == DOTDOT {
        return false;
      }
      var k := DirLookup(dp, name);
      if k == |inodes[dp].ents| {
        return false;
      }
      NamedHasLink(inodes, pending, depth, dp, name);
      var i := inodes[dp].ents[k].inum;
      if inodes[i].kind == Dir {
        var empty := IsDirEmpty(i);
        if !empty {
          return false;
        }
      }
      RemovedKeeps(inodes, pending, depth, dp, k, i);
      Remove(dp, k);
      ok := true;
    }

    method Remove(dp: nat, k: nat)
      requires dp < |inodes| && k < |inodes[dp].ents| && inodes[dp].ents[k].inum < |inodes| && inodes[dp].ents[k].inum != dp
      modifies this`inodes
      ensures inodes == Removed(old(inodes), dp, k)
    {
      var i := inodes[dp].ents[k].inum;
      inodes := inodes[dp := Inode(inodes[dp].kind, inodes[dp].nlink, inodes[dp].ents[k := EMPTY_SLOT])];
      if inodes[i].kind == Dir {
        AdjustLinks(dp, -1);
      }
      AdjustLinks(i, -1);
    }

    // Dropping the last reference frees an inode that has no links.
    method IPut(i: nat)
      requires Valid() && 0 < i < |inodes| && inodes[i].kind != Free
      modifies this`inodes
      ensures Valid()
      ensures inodes == if old(inodes)[i].nlink == 0 then Released(old(inodes), i) else old(inodes)
    {
      if inodes[i].nlink == 0 {
        ReleasedKeeps(inodes, pending, depth, i);
        inodes := inodes[i := Inode(Free, 0, [])];
      }
    }
  }
}
