/** malloc and free of umalloc.c: a circular list of free blocks in address order. Addresses and
    sizes are in units of one header (8 bytes). */
module UMalloc {

  const UNIT := 8
  const UINT := 0x1_0000_0000
  const MINCORE := 4096
  const NULL := 0

  datatype Header = Header(ptr: int, size: int)

  /** A block: its header's address and its size, header included. */
  datatype Blk = Blk(a: int, n: int)

  type Mem = map<int, Header>

  predicate Apart(b: Blk, c: Blk) {
    b.a + b.n <= c.a || c.a + c.n <= b.a
  }

  predicate Holds(b: Blk, x: int) {
    b.a <= x < b.a + b.n
  }

  ghost function Units(b: Blk): set<int> {
    set x | b.a <= x < b.a + b.n && Holds(b, x)
  }

  /* The free list, read from its lowest block on. */

  // Address order with a gap after every block: disjoint, and no two adjacent.
  ghost predicate Gapped(fs: seq<Blk>) {
    && (forall i :: 0 <= i < |fs| ==> fs[i].n >= 0)
    && (forall i, j :: 0 <= i < j < |fs| ==> fs[i].a + fs[i].n < fs[j].a)
  }

  function Next(n: nat, i: nat): nat
    requires i < n
  {
    if i + 1 < n then i + 1 else 0
  }

  ghost predicate Link(mem: Mem, fs: seq<Blk>, i: nat) {
    i < |fs| && fs[i].a in mem && mem[fs[i].a] == Header(fs[Next(|fs|, i)].a, fs[i].n)
  }

  // The list in memory is fs, closed into a ring.
  ghost predicate Linked(mem: Mem, fs: seq<Blk>) {
    forall i {:trigger Link(mem, fs, i)} :: 0 <= i < |fs| ==> Link(mem, fs, i)
  }

  ghost predicate FreeList(mem: Mem, base: int, fs: seq<Blk>) {
    && |fs| >= 1 && fs[0] == Blk(base, 0) && Gapped(fs) && Linked(mem, fs)
    && (forall i :: 0 < i < |fs| ==> fs[i].n >= 1)
  }

  ghost predicate Covered(fs: seq<Blk>, x: int) {
    exists i :: 0 <= i < |fs| && Holds(fs[i], x)
  }

  ghost predicate LiveAt(live: map<int, int>, x: int) {
    exists a :: a in live && Holds(Blk(a, live[a]), x)
  }

  // Live blocks are where their headers say, above base, apart from each other and from the free ones.
  ghost predicate LiveOk(mem: Mem, base: int, fs: seq<Blk>, live: map<int, int>) {
    && (forall a :: a in live ==> base < a && live[a] >= 1 && a in mem && mem[a].size == live[a])
    && (forall a, b :: a in live && b in live && a != b ==> Apart(Blk(a, live[a]), Blk(b, live[b])))
    && (forall a, i :: a in live && 0 <= i < |fs| ==> Apart(Blk(a, live[a]), fs[i]))
  }

  // The units morecore has put on the list are the free ones and the live ones.
  ghost predicate Partition(fs: seq<Blk>, live: map<int, int>, arena: set<int>) {
    forall x :: x in arena <==> Covered(fs, x) || LiveAt(live, x)
  }

  /* Putting a block back. */

  // k is the last block below address a.
  ghost predicate Below(fs: seq<Blk>, k: int, a: int) {
    0 <= k < |fs| && fs[k].a < a && (k + 1 < |fs| ==> a < fs[k+1].a)
  }

  // Address order; blocks i and i+1 may touch for i in t, and for no other i.
  ghost predicate Loose(s: seq<Blk>, t: set<int>) {
    && (forall i :: 0 <= i < |s| ==> s[i].n >= 0)
    && (forall i, j :: 0 <= i < j < |s| ==> s[i].a + s[i].n < s[j].a || (s[i].a + s[i].n == s[j].a && i in t && j == i + 1))
  }

  predicate Touch(s: seq<Blk>, i: nat) {
    i + 1 < |s| && s[i].a + s[i].n == s[i+1].a
  }

  // Blocks i and i+1 become one.
  function Merge(s: seq<Blk>, i: nat): seq<Blk>
    requires i + 1 < |s|
  {
    s[..i] + [Blk(s[i].a, s[i].n + s[i+1].n)] + s[i+2..]
  }

  function Joined(s: seq<Blk>, i: nat): seq<Blk> {
    if Touch(s, i) then Merge(s, i) else s
  }

  function Placed(fs: seq<Blk>, k: nat, b: Blk): seq<Blk>
    requires k < |fs|
  {
    fs[..k+1] + [b] + fs[k+1..]
  }

  /** The list after b has been freed behind block k: joined with the block after it, then with
      the block before it, where they touch. */
  function Insert(fs: seq<Blk>, k: nat, b: Blk): seq<Blk>
    requires k < |fs|
  {
    Joined(Joined(Placed(fs, k, b), k + 1), k)
  }

  ghost predicate Fits(fs: seq<Blk>, b: Blk) {
    b.n >= 1 && forall i :: 0 <= i < |fs| ==> Apart(b, fs[i])
  }

  lemma PlacedLoose(fs: seq<Blk>, k: nat, b: Blk)
    requires Gapped(fs) && Below(fs, k, b.a) && Fits(fs, b)
    ensures Loose(Placed(fs, k, b), {k, k + 1})
  {
    var s := Placed(fs, k, b);
    assert Apart(b, fs[k]);
    if k + 1 < |fs| {
      assert Apart(b, fs[k+1]);
    }
    forall i, j | 0 <= i < j < |s| ensures s[i].a + s[i].n < s[j].a || (s[i].a + s[i].n == s[j].a && i in {k, k + 1} && j == i + 1) {
      assert s[i] == if i <= k then fs[i] else if i == k + 1 then b else fs[i-1];
      assert s[j] == if j <= k then fs[j] else if j == k + 1 then b else fs[j-1];
    }
  }

  lemma MergeAt(s: seq<Blk>, i: nat, p: nat)
    requires Touch(s, i) && p + 1 < |s|
    ensures |Merge(s, i)| == |s| - 1
    ensures Merge(s, i)[p].a == s[if p <= i then p else p + 1].a
    ensures Merge(s, i)[p].a + Merge(s, i)[p].n == s[if p < i then p else p + 1].a + s[if p < i then p else p + 1].n
  {
  }

  lemma LooseAt(s: seq<Blk>, t: set<int>, i: int, j: int)
    requires Loose(s, t) && 0 <= i < j < |s|
    ensures s[i].n >= 0 && s[j].n >= 0
    ensures s[i].a + s[i].n < s[j].a || (s[i].a + s[i].n == s[j].a && i in t && j == i + 1)
  {
  }

  lemma JoinedLoose(s: seq<Blk>, i: nat, t: set<int>)
    requires Loose(s, t) && i in t && forall x :: x in t ==> x <= i
    ensures Loose(Joined(s, i), t - {i})
  {
    if Touch(s, i) {
      var m := Merge(s, i);
      assert forall p :: 0 <= p < |m| ==> m[p].n >= 0;
      forall p, q | 0 <= p < q < |m| ensures m[p].a + m[p].n < m[q].a || (m[p].a + m[p].n == m[q].a && p in t - {i} && q == p + 1) {
        hide Loose, Merge;
        MergeAt(s, i, p);
        MergeAt(s, i, q);
        LooseAt(s, t, if p < i then p else p + 1, if q <= i then q else q + 1);
      }
    } else {
      forall p, q | 0 <= p < q < |s| ensures s[p].a + s[p].n < s[q].a || (s[p].a + s[p].n == s[q].a && p in t - {i} && q == p + 1) {
        hide Loose;
        LooseAt(s, t, p, q);
      }
    }
  }

  /** Joining keeps address order and leaves no two free blocks adjacent. */
  lemma InsertGapped(fs: seq<Blk>, k: nat, b: Blk)
    requires Gapped(fs) && Below(fs, k, b.a) && Fits(fs, b)
    ensures Gapped(Insert(fs, k, b))
  {
    assert k < |fs|;
    hide Gapped, Below, Fits, Loose, Placed, Joined;
    LooselyPlaced(fs, k, b);
    JoinedLoose(Joined(Placed(fs, k, b), k + 1), k, {k});
    assert {k} - {k} == {};
    LooseGapped(Insert(fs, k, b));
  }

  lemma LooseGapped(s: seq<Blk>)
    requires Loose(s, {})
    ensures Gapped(s)
  {
  }

  lemma LooselyPlaced(fs: seq<Blk>, k: nat, b: Blk)
    requires Gapped(fs) && Below(fs, k, b.a) && Fits(fs, b)
    ensures Loose(Placed(fs, k, b), {k, k + 1}) && Loose(Joined(Placed(fs, k, b), k + 1), {k})
  {
    assert k < |fs|;
    hide Gapped, Below, Fits, Loose, Placed, Joined;
    PlacedLoose(fs, k, b);
    JoinedLoose(Placed(fs, k, b), k + 1, {k, k + 1});
    assert {k, k + 1} - {k + 1} == {k};
  }

  lemma LooseSizes(s: seq<Blk>, t: set<int>)
    requires Loose(s, t)
    ensures forall j :: 0 <= j < |s| ==> s[j].n >= 0
  {
  }

  lemma JoinedCovers(s: seq<Blk>, i: nat, x: int)
    requires forall j :: 0 <= j < |s| ==> s[j].n >= 0
    ensures Covered(Joined(s, i), x) <==> Covered(s, x)
  {
    if Touch(s, i) {
      var m := Merge(s, i);
      if Covered(s, x) {
        var j :| 0 <= j < |s| && Holds(s[j], x);
        assert Holds(m[if j <= i then j else j - 1], x);
      }
      if Covered(m, x) {
        var j :| 0 <= j < |m| && Holds(m[j], x);
        assert Holds(s[if j < i then j else if j == i then (if x < s[i+1].a then i else i + 1) else j + 1], x);
      }
    }
  }

  /** Joining adds exactly the block's units to the free ones. */
  lemma InsertCovers(fs: seq<Blk>, k: nat, b: Blk, x: int)
    requires Gapped(fs) && Below(fs, k, b.a) && Fits(fs, b)
    ensures Covered(Insert(fs, k, b), x) <==> Covered(fs, x) || Holds(b, x)
  {
    assert k < |fs|;
    hide Gapped, Below, Fits, Loose, Joined, Covered, Placed;
    var s := Placed(fs, k, b);
    LooselyPlaced(fs, k, b);
    LooseSizes(s, {k, k + 1});
    LooseSizes(Joined(s, k + 1), {k});
    JoinedCovers(s, k + 1, x);
    JoinedCovers(Joined(s, k + 1), k, x);
    PlacedCovers(fs, k, b, x);
  }

  lemma PlacedCovers(fs: seq<Blk>, k: nat, b: Blk, x: int)
    requires k < |fs|
    ensures Covered(Placed(fs, k, b), x) <==> Covered(fs, x) || Holds(b, x)
  {
    var s := Placed(fs, k, b);
    if Covered(fs, x) {
      var j :| 0 <= j < |fs| && Holds(fs[j], x);
      assert Holds(s[if j <= k then j else j + 1], x);
    }
    if Holds(b, x) {
      assert Holds(s[k+1], x);
    }
    if Covered(s, x) {
      var j :| 0 <= j < |s| && Holds(s[j], x);
      assert j == k + 1 || Holds(fs[if j <= k then j else j - 1], x);
    }
  }

  /* The same in memory. */

  ghost predicate Rising(s: seq<Blk>) {
    forall i, j :: 0 <= i < j < |s| ==> s[i].a < s[j].a
  }

  lemma PlacedLinked(mem: Mem, fs: seq<Blk>, k: nat, b: Blk)
    requires Linked(mem, fs) && Gapped(fs) && Below(fs, k, b.a)
    ensures Rising(Placed(fs, k, b)) && fs[k].a in mem
    ensures Linked(mem[b.a := Header(mem[fs[k].a].ptr, b.n)][fs[k].a := Header(b.a, fs[k].n)], Placed(fs, k, b))
  {
    var s := Placed(fs, k, b);
    assert Link(mem, fs, k);
    PlacedRising(fs, k, b);
    var mem' := mem[b.a := Header(mem[fs[k].a].ptr, b.n)][fs[k].a := Header(b.a, fs[k].n)];
    forall i | 0 <= i < |s| ensures Link(mem', s, i) {
      assert i < k ==> Link(mem, fs, i);
      assert i > k + 1 ==> Link(mem, fs, i - 1);
      PlacedLink(mem, fs, k, b, i);
    }
  }

  lemma PlacedLink(mem: Mem, fs: seq<Blk>, k: nat, b: Blk, i: nat)
    requires k < |fs| && i <= |fs| && Link(mem, fs, k) && Rising(Placed(fs, k, b))
    requires (i < k ==> Link(mem, fs, i)) && (i > k + 1 ==> Link(mem, fs, i - 1))
    ensures Link(mem[b.a := Header(mem[fs[k].a].ptr, b.n)][fs[k].a := Header(b.a, fs[k].n)], Placed(fs, k, b), i)
  {
    var s := Placed(fs, k, b);
    RisingAt(s, k, k + 1);
    if i != k && i != k + 1 {
      RisingAt(s, i, k);
      RisingAt(s, i, k + 1);
    }
    hide Rising;
    PlacedSlots(fs, k, b);
    var n := Next(|s|, i);
    assert s[i] == if i <= k then fs[i] else if i == k + 1 then b else fs[i-1];
    assert s[n] == if n <= k then fs[n] else if n == k + 1 then b else fs[n-1];
  }

  lemma PlacedRising(fs: seq<Blk>, k: nat, b: Blk)
    requires Gapped(fs) && Below(fs, k, b.a)
    ensures Rising(Placed(fs, k, b))
  {
    var s := Placed(fs, k, b);
    assert forall i, j :: 0 <= i < j < |fs| ==> fs[i].a < fs[j].a;
    forall i, j | 0 <= i < j < |s| ensures s[i].a < s[j].a {
      assert s[i] == if i <= k then fs[i] else if i == k + 1 then b else fs[i-1];
      assert s[j] == if j <= k then fs[j] else if j == k + 1 then b else fs[j-1];
    }
  }

  lemma RisingAt(s: seq<Blk>, i: nat, j: nat)
    requires Rising(s) && i < |s| && j < |s| && i != j
    ensures s[i].a != s[j].a
  {
  }

  lemma MergeLinked(mem: Mem, s: seq<Blk>, i: nat)
    requires Linked(mem, s) && Rising(s) && i + 1 < |s|
    ensures Rising(Merge(s, i)) && s[i].a in mem && s[i+1].a in mem
    ensures Linked(mem[s[i].a := Header(mem[s[i+1].a].ptr, s[i].n + s[i+1].n)], Merge(s, i))
  {
    assert Link(mem, s, i) && Link(mem, s, i + 1);
    MergeRising(s, i);
    var m := Merge(s, i);
    var mem' := mem[s[i].a := Header(mem[s[i+1].a].ptr, s[i].n + s[i+1].n)];
    forall j | 0 <= j < |m| ensures Link(mem', m, j) {
      assert Link(mem, s, if j <= i then j else j + 1);
      MergeLink(mem, s, i, j);
    }
  }

  lemma MergeRising(s: seq<Blk>, i: nat)
    requires Rising(s) && i + 1 < |s|
    ensures Rising(Merge(s, i))
  {
    var m := Merge(s, i);
    assert forall j :: 0 <= j < |m| ==> m[j].a == s[if j <= i then j else j + 1].a;
  }

  lemma MergeLink(mem: Mem, s: seq<Blk>, i: nat, j: nat)
    requires Rising(s) && i + 1 < |s| && j + 1 < |s| && Link(mem, s, i + 1) && Link(mem, s, if j <= i then j else j + 1)
    ensures Link(mem[s[i].a := Header(mem[s[i+1].a].ptr, s[i].n + s[i+1].n)], Merge(s, i), j)
  {
    var j' := if j <= i then j else j + 1;
    if j != i {
      RisingAt(s, j', i);
    }
    hide Rising;
    var m := Merge(s, i);
    assert m[j] == if j < i then s[j] else if j == i then Blk(s[i].a, s[i].n + s[i+1].n) else s[j+1];
    var n := Next(|m|, j);
    assert m[n].a == s[if n <= i then n else n + 1].a;
  }

  // What free does to memory once it has found block k: first bp's header, then p's.
  function FreedRight(mem: Mem, p: int, bp: int): Mem
    requires p in mem && bp in mem
  {
    var next := mem[p].ptr;
    if bp + mem[bp].size == next && next in mem then mem[bp := Header(mem[next].ptr, mem[bp].size + mem[next].size)]
    else mem[bp := Header(next, mem[bp].size)]
  }

  function Freed(mem: Mem, p: int, bp: int): Mem
    requires p in mem && bp in mem
  {
    var m := FreedRight(mem, p, bp);
    if p + m[p].size == bp then m[p := Header(m[bp].ptr, m[p].size + m[bp].size)]
    else m[p := Header(bp, m[p].size)]
  }

  lemma RightLinked(mem: Mem, fs: seq<Blk>, k: nat, b: Blk)
    requires Linked(mem, fs) && Gapped(fs) && Below(fs, k, b.a) && b.a in mem && mem[b.a].size == b.n && b.n >= 1
    ensures fs[k].a in mem && mem[fs[k].a].size == fs[k].n
    ensures var m, s2 := FreedRight(mem, fs[k].a, b.a), Joined(Placed(fs, k, b), k + 1);
      && Rising(s2) && Linked(m[fs[k].a := Header(b.a, fs[k].n)], s2)
      && k + 1 < |s2| && s2[k] == fs[k] && s2[k+1].a == b.a != fs[k].a && m[b.a].size == s2[k+1].n
  {
    var p, s := fs[k].a, Placed(fs, k, b);
    assert Link(mem, fs, k) && (k + 1 < |fs| ==> Link(mem, fs, k + 1));
    hide Linked, Gapped, Below, Rising, Merge, Placed;
    var next := mem[p].ptr;
    PlacedLinked(mem, fs, k, b);
    var mem1 := mem[b.a := Header(next, b.n)][p := Header(b.a, fs[k].n)];
    PlacedSlots(fs, k, b);
    RisingAt(s, k, k + 1);
    TouchRight(fs, k, b, next);
    var m := FreedRight(mem, p, b.a);
    if Touch(s, k + 1) {
      RisingAt(s, k, k + 2);
      RisingAt(s, k + 1, k + 2);
      MergeLinked(mem1, s, k + 1);
      MergeSlots(s, k + 1);
      assert m[p := Header(b.a, fs[k].n)] == mem1[b.a := Header(mem1[next].ptr, b.n + fs[k+1].n)];
    } else {
      assert m[p := Header(b.a, fs[k].n)] == mem1;
    }
  }

  lemma PlacedSlots(fs: seq<Blk>, k: nat, b: Blk)
    requires k < |fs|
    ensures var s := Placed(fs, k, b); |s| == |fs| + 1 && s[k] == fs[k] && s[k+1] == b && (k + 1 < |fs| ==> s[k+2] == fs[k+1])
  {
  }

  lemma MergeSlots(s: seq<Blk>, i: nat)
    requires 0 < i && i + 1 < |s|
    ensures |Merge(s, i)| == |s| - 1 && Merge(s, i)[i-1] == s[i-1] && Merge(s, i)[i] == Blk(s[i].a, s[i].n + s[i+1].n)
  {
  }

  /** The pointer surgery of free builds the joined list. */
  lemma FreedLinked(mem: Mem, fs: seq<Blk>, k: nat, b: Blk)
    requires Linked(mem, fs) && Gapped(fs) && Below(fs, k, b.a) && b.a in mem && mem[b.a].size == b.n && b.n >= 1
    ensures fs[k].a in mem && Linked(Freed(mem, fs[k].a, b.a), Insert(fs, k, b))
  {
    hide Linked, Gapped, Rising, Merge, Placed;
    RightLinked(mem, fs, k, b);
    var p := fs[k].a;
    var m, s2 := FreedRight(mem, p, b.a), Joined(Placed(fs, k, b), k + 1);
    var mem2 := m[p := Header(b.a, fs[k].n)];
    if Touch(s2, k) {
      MergeLinked(mem2, s2, k);
      assert Freed(mem, p, b.a) == mem2[p := Header(mem2[b.a].ptr, fs[k].n + s2[k+1].n)];
    } else {
      assert Freed(mem, p, b.a) == mem2;
    }
  }

  lemma TouchRight(fs: seq<Blk>, k: nat, b: Blk, next: int)
    requires Gapped(fs) && Below(fs, k, b.a) && b.n >= 1 && next == fs[Next(|fs|, k)].a
    ensures Touch(Placed(fs, k, b), k + 1) <==> b.a + b.n == next
  {
    if k + 1 == |fs| && k > 0 {
      assert fs[0].a < fs[k].a;
    }
  }

  /* Taking a block out. */

  function Without(fs: seq<Blk>, j: nat): seq<Blk>
    requires j < |fs|
  {
    fs[..j] + fs[j+1..]
  }

  lemma WithoutKeeps(fs: seq<Blk>, j: nat)
    requires 0 < j < |fs|
    ensures |Without(fs, j)| == |fs| - 1 && Without(fs, j)[j-1] == fs[j-1]
  {
  }

  // prevp->s.ptr = p->s.ptr
  lemma UnlinkLinked(mem: Mem, fs: seq<Blk>, j: nat)
    requires Linked(mem, fs) && Rising(fs) && 0 < j < |fs|
    ensures fs[j].a in mem && fs[j-1].a in mem && mem[fs[j-1].a].size == fs[j-1].n
    ensures Linked(mem[fs[j-1].a := Header(mem[fs[j].a].ptr, fs[j-1].n)], Without(fs, j))
  {
    assert Link(mem, fs, j) && Link(mem, fs, j - 1);
    var s := Without(fs, j);
    var mem' := mem[fs[j-1].a := Header(mem[fs[j].a].ptr, fs[j-1].n)];
    forall i | 0 <= i < |s| ensures Link(mem', s, i) {
      assert Link(mem, fs, if i < j then i else i + 1);
      UnlinkLink(mem, fs, j, i);
    }
  }

  lemma UnlinkLink(mem: Mem, fs: seq<Blk>, j: nat, i: nat)
    requires Rising(fs) && 0 < j < |fs| && i + 1 < |fs| && Link(mem, fs, j) && Link(mem, fs, j - 1) && Link(mem, fs, if i < j then i else i + 1)
    ensures Link(mem[fs[j-1].a := Header(mem[fs[j].a].ptr, fs[j-1].n)], Without(fs, j), i)
  {
    var i' := if i < j then i else i + 1;
    if i' != j - 1 {
      RisingAt(fs, i', j - 1);
    }
    hide Rising;
    var s := Without(fs, j);
    assert s[i] == fs[i'];
    var n := Next(|s|, i);
    assert s[n] == fs[if n < j then n else n + 1];
  }

  lemma WithoutAt(fs: seq<Blk>, j: nat)
    requires j < |fs|
    ensures var s := Without(fs, j); |s| == |fs| - 1 && forall i :: 0 <= i < |s| ==> s[i] == fs[if i < j then i else i + 1]
  {
  }

  lemma WithoutCovers(fs: seq<Blk>, j: nat, x: int)
    requires Gapped(fs) && 0 < j < |fs|
    ensures Covered(Without(fs, j), x) <==> Covered(fs, x) && !Holds(fs[j], x)
  {
    hide Covered, Without, Gapped, Holds;
    if Covered(fs, x) && !Holds(fs[j], x) {
      StillCovered(fs, j, x);
    }
    if Covered(Without(fs, j), x) {
      OthersCover(fs, j, x);
    }
  }

  lemma StillCovered(fs: seq<Blk>, j: nat, x: int)
    requires j < |fs| && Covered(fs, x) && !Holds(fs[j], x)
    ensures Covered(Without(fs, j), x)
  {
    WithoutAt(fs, j);
    hide Without, Holds;
    var i :| 0 <= i < |fs| && Holds(fs[i], x);
    var k := if i < j then i else i - 1;
    assert Without(fs, j)[k] == fs[i];
  }

  lemma OthersCover(fs: seq<Blk>, j: nat, x: int)
    requires Gapped(fs) && j < |fs| && Covered(Without(fs, j), x)
    ensures Covered(fs, x) && !Holds(fs[j], x)
  {
    WithoutAt(fs, j);
    hide Without;
    var i :| 0 <= i < |Without(fs, j)| && Holds(Without(fs, j)[i], x);
    var k := if i < j then i else i + 1;
    assert Holds(fs[k], x);
  }

  // What malloc does to memory when it cuts the last m units off the block at a.
  function CutMem(mem: Mem, a: int, m: int): Mem
    requires a in mem
  {
    var mem1, q := mem[a := Header(mem[a].ptr, mem[a].size - m)], a + mem[a].size - m;
    mem1[q := Header(if q in mem1 then mem1[q].ptr else NULL, m)]
  }

  function CutList(fs: seq<Blk>, j: nat, m: int): seq<Blk>
    requires j < |fs|
  {
    fs[j := Blk(fs[j].a, fs[j].n - m)]
  }

  lemma CutLinked(mem: Mem, fs: seq<Blk>, j: nat, m: int)
    requires Linked(mem, fs) && Gapped(fs) && j < |fs| && 1 <= m < fs[j].n
    ensures fs[j].a in mem && mem[fs[j].a].size == fs[j].n
    ensures Linked(CutMem(mem, fs[j].a, m), CutList(fs, j, m))
  {
    assert Link(mem, fs, j);
    var mem', s := CutMem(mem, fs[j].a, m), CutList(fs, j, m);
    forall i | 0 <= i < |s| ensures Link(mem', s, i) {
      assert Link(mem, fs, i);
      assert i < j ==> fs[i].a + fs[i].n < fs[j].a;
      assert i > j ==> fs[j].a + fs[j].n < fs[i].a;
      assert s[Next(|s|, i)].a == fs[Next(|fs|, i)].a;
    }
  }

  lemma CutGapped(fs: seq<Blk>, j: nat, m: int)
    requires Gapped(fs) && j < |fs| && 1 <= m < fs[j].n
    ensures Gapped(CutList(fs, j, m)) && forall i :: 0 <= i < |fs| && fs[i].n >= 1 ==> CutList(fs, j, m)[i].n >= 1
  {
  }

  lemma CutCovers(fs: seq<Blk>, j: nat, m: int, x: int)
    requires Gapped(fs) && j < |fs| && 1 <= m < fs[j].n
    ensures Covered(CutList(fs, j, m), x) <==> Covered(fs, x) && !Holds(Blk(fs[j].a + fs[j].n - m, m), x)
  {
    var s, c := CutList(fs, j, m), Blk(fs[j].a + fs[j].n - m, m);
    if Covered(fs, x) && !Holds(c, x) {
      var i :| 0 <= i < |fs| && Holds(fs[i], x);
      assert Holds(s[i], x);
    }
    if Covered(s, x) {
      var i :| 0 <= i < |s| && Holds(s[i], x);
      assert Holds(fs[i], x);
    }
  }

  /* Apartness by units. */

  lemma ApartFromCover(fs: seq<Blk>, b: Blk)
    requires b.n >= 1 && forall x :: Holds(b, x) ==> !Covered(fs, x)
    ensures forall i :: 0 <= i < |fs| && fs[i].n >= 1 ==> Apart(b, fs[i])
  {
    forall i | 0 <= i < |fs| && fs[i].n >= 1 ensures Apart(b, fs[i]) {
      var x := if b.a < fs[i].a then fs[i].a else b.a;
      assert Holds(b, x) ==> !Covered(fs, x);
    }
  }

  lemma NotCovered(fs: seq<Blk>, b: Blk, x: int)
    requires (forall i :: 0 <= i < |fs| ==> Apart(b, fs[i])) && Holds(b, x)
    ensures !Covered(fs, x)
  {
  }

  /** Live blocks stay live and apart when the free units do not grow into them and their
      headers are not written. */
  lemma LiveKept(mem: Mem, mem': Mem, base: int, fs: seq<Blk>, fs': seq<Blk>, live: map<int, int>, b: Blk)
    requires LiveOk(mem, base, fs, live) && (forall a :: a in live ==> a in mem' && mem'[a].size == mem[a].size)
    requires forall a :: a in live ==> Apart(Blk(a, live[a]), b)
    requires forall x :: Covered(fs', x) ==> Covered(fs, x) || Holds(b, x)
    requires forall i :: 0 <= i < |fs'| ==> fs'[i].n >= 1 || fs'[i] == Blk(base, 0)
    ensures LiveOk(mem', base, fs', live)
  {
    forall a | a in live ensures forall i :: 0 <= i < |fs'| ==> Apart(Blk(a, live[a]), fs'[i]) {
      forall x | Holds(Blk(a, live[a]), x) ensures !Covered(fs', x) {
        NotCovered(fs, Blk(a, live[a]), x);
      }
      ApartFromCover(fs', Blk(a, live[a]));
    }
  }

  datatype Option<T> = None | Some(value: T)

  // Steps along a ring of n from j to k.
  function Dist(n: nat, j: nat, k: nat): nat
    requires j < n && k < n
  {
    if j <= k then k - j else k + n - j
  }

  class Heap {
    const base: int
    var mem: Mem
    var freep: int
    ghost var fs: seq<Blk>           // the free list from base on
    ghost var live: map<int, int>    // allocated blocks and their sizes
    ghost var arena: set<int>        // units morecore has put on the list
    ghost var got: set<int>          // units obtained from sbrk

    ghost predicate Valid()
      reads this
    {
      && base > NULL
      && (freep == NULL ==> fs == [] && live == map[] && arena == {})
      && (freep != NULL ==> Started())
    }

    ghost predicate Started()
      reads this
    {
      && FreeList(mem, base, fs) && InList(freep) && LiveOk(mem, base, fs, live) && Partition(fs, live, arena)
    }

    // What the list and its users hold is what was obtained.
    ghost predicate Backed()
      reads this
    {
      arena == got
    }

    // The process ends at unit brk, above the list's base and everything obtained.
    ghost predicate EndsAt(brk: int)
      reads this
    {
      base < brk && forall x :: x in got ==> x < brk
    }

    ghost predicate InList(a: int)
      reads this`fs
    {
      exists i :: 0 <= i < |fs| && fs[i].a == a
    }

    constructor (base: int)
      requires base > NULL
      ensures Valid() && Backed() && this.base == base && freep == NULL
    {
      this.base := base;
      mem, freep := map[], NULL;
      fs, live, arena, got := [], map[], {}, {};
    }

    /** free's search: from anywhere in the ring it comes to the last free block below bp. */
    method FindPlace(bp: int) returns (p: int, ghost k: nat)
      requires FreeList(mem, base, fs) && InList(freep) && base < bp && forall i :: 0 <= i < |fs| ==> fs[i].a != bp
      ensures Below(fs, k, bp) && p == fs[k].a
      ensures p < bp && forall j :: 0 <= j < |fs| && fs[j].a < bp ==> fs[j].a <= p
    {
      hide Gapped;
      k := LastBelow(fs, bp);
      BelowIsLargest(fs, k, bp);
      ghost var i: nat :| i < |fs| && fs[i].a == freep;
      p := freep;
      assert Link(mem, fs, i);
      while !(bp > p && bp < mem[p].ptr)
        invariant i < |fs| && p == fs[i].a && Link(mem, fs, i)
        decreases Dist(|fs|, i, k)
      {
        OrderAt(fs, k, bp, i);
        if p >= mem[p].ptr && (bp > p || bp < mem[p].ptr) {
          assert i == k;
          return;
        }
        p := mem[p].ptr;
        i := Next(|fs|, i);
        assert Link(mem, fs, i);
      }
      OrderAt(fs, k, bp, i);
    }

    // free, for a block whose header is in place and which is apart from the free blocks and
    // from the blocks in rest.
    method PutBack(bp: int, ghost rest: map<int, int>)
      requires FreeList(mem, base, fs) && InList(freep) && LiveOk(mem, base, fs, rest)
      requires base < bp && bp in mem && Fits(fs, Blk(bp, mem[bp].size))
      requires forall a :: a in rest ==> Apart(Blk(a, rest[a]), Blk(bp, mem[bp].size))
      modifies this`mem, this`freep, this`fs
      ensures FreeList(mem, base, fs) && InList(freep) && LiveOk(mem, base, fs, rest)
      ensures forall x :: Covered(fs, x) <==> Covered(old(fs), x) || Holds(Blk(bp, old(mem)[bp].size), x)
      ensures exists i :: 0 < i < |fs| && fs[i].n >= old(mem)[bp].size
    {
      hide Gapped;
      ghost var b := Blk(bp, mem[bp].size);
      forall i | 0 <= i < |fs| ensures fs[i].a != bp {
        assert Apart(b, fs[i]);
      }
      var p, k := FindPlace(bp);
      assert Link(mem, fs, k) && (k + 1 < |fs| ==> Link(mem, fs, k + 1));
      ghost var mem0 := mem;
      var next := mem[p].ptr;
      if bp + mem[bp].size == next {
        mem := mem[bp := Header(mem[next].ptr, mem[bp].size + mem[next].size)];
      } else {
        mem := mem[bp := Header(next, mem[bp].size)];
      }
      if p + mem[p].size == bp {
        mem := mem[p := Header(mem[bp].ptr, mem[p].size + mem[bp].size)];
      } else {
        mem := mem[p := Header(bp, mem[p].size)];
      }
      freep := p;
      assert mem == Freed(mem0, p, bp);
      PutBackList(mem0, base, fs, k, b, rest);
      fs := Insert(fs, k, b);
    }

    /** free: the block's units move from the live to the free ones, and whatever is adjacent is
        joined. */
    method Free(bp: int)
      requires Valid() && bp in live
      modifies this`mem, this`freep, this`fs, this`live
      ensures Valid() && freep != NULL && live == old(live) - {bp}
      ensures forall x :: Covered(fs, x) <==> Covered(old(fs), x) || Holds(Blk(bp, old(live)[bp]), x)
    {
      hide Gapped, Linked;
      ghost var rest, b := live - {bp}, Blk(bp, live[bp]);
      PutBack(bp, rest);
      live := rest;
      forall x ensures LiveAt(old(live), x) <==> LiveAt(live, x) || Holds(b, x) {
        LiveSplit(old(live), bp, x);
      }
      assert Started();
      BaseNotNull();
    }

    lemma BaseNotNull()
      requires Started() && base > NULL
      ensures freep != NULL
    {
      var i :| 0 <= i < |fs| && fs[i].a == freep;
      assert i > 0 ==> fs[0].a + fs[0].n < fs[i].a;
    }

    /** morecore, for a process that ends at brk and a kernel that has room or not: the units asked
        for go on the list. They are what sbrk has given exactly if their number of bytes is a
        positive 32-bit int. */
    method MoreCore(nu: nat, brk: int, room: bool) returns (ok: bool)
      requires Started() && base > NULL && nu >= 1 && Backed() && EndsAt(brk)
      modifies this`mem, this`freep, this`fs, this`arena, this`got
      ensures Started() && ok == Sbrk(brk, AskedUnits(nu), room).Some? && got == Gotten(old(got), brk, AskedUnits(nu), room)
      ensures !ok ==> mem == old(mem) && freep == old(freep) && fs == old(fs) && arena == old(arena)
      ensures ok ==> arena == old(arena) + Units(Blk(brk, CoreUnits(nu)))
      ensures ok ==> exists i :: 0 < i < |fs| && fs[i].n >= nu
      ensures if Whole(nu) then Backed() && ok == room else ok ==> !Backed()
    {
      hide Gapped, Linked;
      var n := if nu < MINCORE then MINCORE else nu;
      var core := Sbrk(brk, AskedUnits(nu), room);
      SbrkGives(got, brk, nu, room);
      got := Gotten(got, brk, AskedUnits(nu), room);
      if core.None? {
        return false;
      }
      var hp := core.value;
      ghost var b := Blk(hp, n);
      NewRegion(mem, base, fs, live, arena, b);
      mem := mem[hp := Header(if hp in mem then mem[hp].ptr else NULL, n)];
      PutBack(hp, live);
      arena := arena + Units(b);
      return true;
    }

    // The end of malloc: block j fits; take it whole, or its last nunits units.
    method TakeBlock(prevp: int, p: int, nunits: nat, ghost j: nat) returns (q: int)
      requires Started() && nunits >= 1 && 0 < j < |fs| && p == fs[j].a && prevp == fs[j-1].a && fs[j].n >= nunits
      modifies this`mem, this`freep, this`fs, this`live
      ensures Started() && freep == prevp
      ensures q !in old(live) && live == old(live)[q := nunits] && forall x :: Holds(Blk(q, nunits), x) ==> Covered(old(fs), x)
    {
      assert Link(mem, fs, j);
      hide Started;
      if mem[p].size == nunits {
        q := p;
        TakeWhole(prevp, p, j);
      } else {
        q := TakePart(prevp, p, nunits, j);
      }
    }

    method TakeWhole(prevp: int, p: int, ghost j: nat)
      requires Started() && 0 < j < |fs| && p == fs[j].a && prevp == fs[j-1].a
      modifies this`mem, this`freep, this`fs, this`live
      ensures Started() && freep == prevp
      ensures p !in old(live) && live == old(live)[p := old(fs)[j].n] && forall x :: Holds(old(fs)[j], x) ==> Covered(old(fs), x)
    {
      assert Link(mem, fs, j) && Link(mem, fs, j - 1);
      WithoutKeeps(fs, j);
      TakenWhole(mem, base, fs, live, arena, j);
      hide FreeList, LiveOk, Partition, Covered, LiveAt, Without;
      mem := mem[prevp := Header(mem[p].ptr, mem[prevp].size)];
      live := live[p := fs[j].n];
      fs := Without(fs, j);
      freep := prevp;
      assert fs[j-1].a == prevp;
    }

    method TakePart(prevp: int, p: int, nunits: nat, ghost j: nat) returns (q: int)
      requires Started() && nunits >= 1 && 0 < j < |fs| && p == fs[j].a && prevp == fs[j-1].a && fs[j].n > nunits
      modifies this`mem, this`freep, this`fs, this`live
      ensures Started() && freep == prevp
      ensures q !in old(live) && live == old(live)[q := nunits] && forall x :: Holds(Blk(q, nunits), x) ==> Covered(old(fs), x)
    {
      TakenPart(mem, base, fs, live, arena, j, nunits);
      hide FreeList, LiveOk, Partition, Covered, LiveAt;
      ghost var mem' := CutMem(mem, p, nunits);
      mem := mem[p := Header(mem[p].ptr, mem[p].size - nunits)];
      q := p + mem[p].size;
      mem := mem[q := Header(if q in mem then mem[q].ptr else NULL, nunits)];
      assert mem == mem';
      fs := CutList(fs, j, nunits);
      live := live[q := nunits];
      freep := prevp;
      assert fs[j-1].a == prevp;
    }

    /** malloc, for a process that ends at brk and a kernel that has room or not: the result is a new
        live block of Nunits units, taken out of the free ones; memory is asked of sbrk only when no
        free block is large enough, and then once; for sizes sbrk can be asked for it fails only if
        the kernel has no room, and what it gives has been obtained. */
    method Malloc(nbytes: nat, brk: int, room: bool) returns (r: Option<int>)
      requires Valid() && Backed() && nbytes < UINT && EndsAt(brk)
      modifies this
      ensures Valid() && freep != NULL
      ensures r.Some? ==> r.value - 1 !in old(live) && live == old(live)[r.value - 1 := Nunits(nbytes)]
      ensures r.None? ==> live == old(live) && arena == old(arena)
      ensures arena == old(arena) || arena == old(arena) + Units(Blk(brk, CoreUnits(Nunits(nbytes))))
      ensures r.None? || arena != old(arena) ==> forall i :: 0 <= i < |old(fs)| ==> old(fs)[i].n < Nunits(nbytes)
      ensures Whole(Nunits(nbytes)) ==> Backed() && (r.None? ==> !room)
      ensures r.Some? ==> (Backed() <==> arena == old(arena) || Whole(Nunits(nbytes)))
    {
      hide Started, Passed, Units, Nunits, Holds, Sbrk, Gotten, AskedUnits, CoreUnits, Whole;
      var nunits := Nunits(nbytes);
      Begin();
      ghost var fs0 := fs;
      var prevp := freep;
      ghost var f: nat := FreepAt();
      RingAt(f);
      var p := mem[prevp].ptr;
      ghost var i: nat, asked := f, false;
      NonePassed(|fs|, f);
      while true
        invariant Started() && base > NULL && f < |fs| && fs[f].a == freep && i < |fs| && prevp == fs[i].a && p == fs[Next(|fs|, i)].a && p in mem
        invariant mem[p] == Header(fs[Next(|fs|, Next(|fs|, i))].a, fs[Next(|fs|, i)].n)
        invariant live == old(live)
        invariant !asked ==> fs == fs0 && arena == old(arena) && got == old(got)
        invariant asked ==> arena == old(arena) + Units(Blk(brk, CoreUnits(nunits))) && arena != old(arena)
        invariant asked ==> (Backed() <==> Whole(nunits))
        invariant asked ==> (forall m :: 0 <= m < |fs0| ==> fs0[m].n < nunits) && exists g :: 0 < g < |fs| && fs[g].n >= nunits
        invariant forall m :: 0 <= m < |fs| && Passed(|fs|, f, i, m) ==> fs[m].n < nunits
        decreases if asked then 0 else 1, Dist(|fs|, Next(|fs|, i), f)
      {
        ghost var j := Next(|fs|, i);
        if mem[p].size >= nunits {
          TakeableAt(i, nunits);
          var q := TakeBlock(prevp, p, nunits, j);
          BaseNotNull();
          return Some(q + 1);
        }
        PassOne(|fs|, f, i, j);
        if p == freep {
          SameAddress(j, f);
          assert forall m :: 0 <= m < |fs| ==> fs[m].n < nunits;
          assert !asked;
          var ok := MoreCore(nunits, brk, room);
          if !ok {
            BaseNotNull();
            return None;
          }
          asked := true;
          assert brk in Units(Blk(brk, CoreUnits(nunits))) by { FirstUnit(brk, nunits); }
          assert brk !in old(arena);
          p := freep;
          f := FreepAt();
          i := f;
        } else {
          i := j;
        }
        RingAt(i);
        NonePassed(|fs|, f);
        prevp := p;
        p := mem[p].ptr;
      }
    }

    lemma FreepAt() returns (f: nat)
      requires Started()
      ensures f < |fs| && fs[f].a == freep
    {
      f :| 0 <= f < |fs| && fs[f].a == freep;
    }

    lemma SameAddress(i: nat, j: nat)
      requires Started() && i < |fs| && j < |fs| && fs[i].a == fs[j].a
      ensures i == j
    {
    }

    // What is in memory at place i of the ring and at the next one.
    lemma RingAt(i: nat)
      requires Started() && i < |fs|
      ensures var j := Next(|fs|, i);
        && fs[i].a in mem && mem[fs[i].a] == Header(fs[j].a, fs[i].n)
        && fs[j].a in mem && mem[fs[j].a] == Header(fs[Next(|fs|, j)].a, fs[j].n)
    {
      assert Link(mem, fs, i) && Link(mem, fs, Next(|fs|, i));
    }

    // Base is never large enough.
    lemma TakeableAt(i: nat, nunits: nat)
      requires Started() && i < |fs| && nunits >= 1 && fs[Next(|fs|, i)].n >= nunits
      ensures Next(|fs|, i) == i + 1 < |fs|
    {
    }

    // The first call makes a ring of base alone.
    method Begin()
      requires Valid()
      modifies this`mem, this`freep, this`fs
      ensures Started() && base > NULL && freep != NULL && live == old(live) && arena == old(arena)
      ensures old(freep) != NULL ==> fs == old(fs) && mem == old(mem) && freep == old(freep)
      ensures old(freep) == NULL ==> fs == [Blk(base, 0)]
    {
      if freep == NULL {
        freep := base;
        mem := mem[base := Header(base, 0)];
        fs := [Blk(base, 0)];
        assert Link(mem, fs, 0);
      }
    }
  }

  /** malloc's size in units, computed in 32 bits. */
  function Nunits(nbytes: nat): (n: nat)
    requires nbytes < UINT
    ensures n >= 1
  {
    (nbytes + UNIT - 1) % UINT / UNIT + 1
  }

  // The units on the list after morecore, for nu asked of it.
  function CoreUnits(nu: nat): nat {
    if nu < MINCORE then MINCORE else nu
  }

  // What sbrk is asked for: a product in 32 bits, taken as an int.
  function AskedBytes(nu: nat): int {
    var n := CoreUnits(nu) * UNIT % UINT;
    if n >= UINT / 2 then n - UINT else n
  }

  function AskedUnits(nu: nat): int {
    AskedBytes(nu) / UNIT
  }

  // The number of bytes is a positive int.
  predicate Whole(nu: nat) {
    CoreUnits(nu) * UNIT < UINT / 2
  }

  /** What sbrk and growproc return, in units, for a process that ends at brk: growing may fail; a
      size below zero wraps to a large one, which changes nothing; shrinking to nothing fails. */
  function Sbrk(brk: int, n: int, room: bool): Option<int> {
    if (n > 0 && !room) || (n < 0 && brk + n == 0) then None else Some(brk)
  }

  // What is then left of the memory obtained so far, and added to it.
  ghost function Gotten(got: set<int>, brk: int, n: int, room: bool): set<int> {
    if n > 0 then got + if room then Units(Blk(brk, n)) else {}
    else if n == 0 || brk + n < 0 then got
    else set x | x in got && x < brk + n
  }

  lemma AskedIsWhole(nu: nat)
    ensures AskedUnits(nu) * UNIT == AskedBytes(nu) && AskedUnits(nu) <= CoreUnits(nu)
    ensures AskedUnits(nu) == CoreUnits(nu) <==> Whole(nu)
  {
    var n := CoreUnits(nu) * UNIT;
    assert UINT == UNIT * 0x2000_0000;
    assert n % UINT <= n && n % UINT % UNIT == 0;
  }

  lemma SbrkGives(got: set<int>, brk: int, nu: nat, room: bool)
    requires nu >= 1 && forall x :: x in got ==> x < brk
    ensures Whole(nu) ==> Sbrk(brk, AskedUnits(nu), room).Some? == room
    ensures Whole(nu) ==> Gotten(got, brk, AskedUnits(nu), room) == got + if room then Units(Blk(brk, CoreUnits(nu))) else {}
    ensures !Whole(nu) ==> Gotten(got, brk, AskedUnits(nu), room) != got + Units(Blk(brk, CoreUnits(nu)))
  {
    AskedIsWhole(nu);
    var last := brk + CoreUnits(nu) - 1;
    assert Holds(Blk(brk, CoreUnits(nu)), last) && last in Units(Blk(brk, CoreUnits(nu)));
    assert !Whole(nu) ==> last !in Gotten(got, brk, AskedUnits(nu), room);
  }

  lemma FirstUnit(brk: int, nu: nat)
    ensures brk in Units(Blk(brk, CoreUnits(nu)))
  {
    assert Holds(Blk(brk, CoreUnits(nu)), brk);
  }

  /** The block malloc returns has room for nbytes bytes behind its header exactly when the
      rounding up does not wrap around. */
  lemma RoomIff(nbytes: nat)
    requires nbytes < UINT
    ensures (Nunits(nbytes) - 1) * UNIT >= nbytes <==> nbytes + UNIT - 1 < UINT
  {
    if nbytes + UNIT - 1 >= UINT {
      assert (nbytes + UNIT - 1) % UINT == nbytes + UNIT - 1 - UINT;
    }
  }

  /** Both wraps together: a request that goes to sbrk gets a block with room for it, of memory that
      was obtained, exactly up to 2GB less 16 bytes. */
  lemma ServedIff(nbytes: nat)
    requires nbytes < UINT
    ensures (Nunits(nbytes) - 1) * UNIT >= nbytes && Whole(Nunits(nbytes)) <==> nbytes <= 0x7FFF_FFF0
  {
    RoomIff(nbytes);
  }

  /** Requests that fail: the rounding wraps; the byte count wraps to 0, so that sbrk succeeds and
      gives nothing; it is negative, so that sbrk succeeds and takes memory away. */
  lemma NotServed(got: set<int>, brk: int, room: bool)
    requires 4096 < brk && brk - 1 in got
    ensures (Nunits(0xFFFF_FFFF) - 1) * UNIT < 0xFFFF_FFFF
    ensures var n := Nunits(0xFFFF_FFF8); n == 0x2000_0000 && AskedBytes(n) == 0
    ensures var n := AskedUnits(Nunits(0xFFFF_FFF8)); Sbrk(brk, n, room) == Some(brk) && Gotten(got, brk, n, room) == got
    ensures AskedBytes(Nunits(0xFFFF_7FF8)) == -0x8000
    ensures var n := AskedUnits(Nunits(0xFFFF_7FF8)); Sbrk(brk, n, room) == Some(brk) && brk - 1 !in Gotten(got, brk, n, room)
  {
  }

  // Going round from behind f, place m has been looked at by the time the last one is i.
  predicate Passed(n: nat, f: nat, i: nat, m: nat)
    requires f < n && i < n && m < n
  {
    i != f && Dist(n, Next(n, f), m) <= Dist(n, Next(n, f), i)
  }

  lemma PassOne(n: nat, f: nat, i: nat, j: nat)
    requires f < n && i < n && j == Next(n, i)
    ensures forall m :: 0 <= m < n && j != f && Passed(n, f, j, m) ==> m == j || Passed(n, f, i, m)
    ensures j == f ==> forall m :: 0 <= m < n && m != f ==> Passed(n, f, i, m)
    ensures j != f ==> Dist(n, Next(n, j), f) < Dist(n, j, f)
  {
  }

  lemma NonePassed(n: nat, f: nat)
    requires f < n
    ensures forall m :: 0 <= m < n ==> !Passed(n, f, f, m)
  {
  }

  // Block j leaves the list and becomes live.
  lemma TakenWhole(mem: Mem, base: int, fs: seq<Blk>, live: map<int, int>, arena: set<int>, j: nat)
    requires FreeList(mem, base, fs) && LiveOk(mem, base, fs, live) && Partition(fs, live, arena) && 0 < j < |fs|
    ensures fs[j].a in mem && fs[j-1].a in mem && mem[fs[j-1].a].size == fs[j-1].n && fs[j].a !in live
    ensures var mem', fs', live' := mem[fs[j-1].a := Header(mem[fs[j].a].ptr, fs[j-1].n)], Without(fs, j), live[fs[j].a := fs[j].n];
      && FreeList(mem', base, fs') && LiveOk(mem', base, fs', live') && Partition(fs', live', arena)
      && forall x :: Holds(fs[j], x) ==> Covered(fs, x)
  {
    UnlinkLinked(mem, fs, j);
    var mem', fs' := mem[fs[j-1].a := Header(mem[fs[j].a].ptr, fs[j-1].n)], Without(fs, j);
    assert Link(mem, fs, j);
    WithoutShape(base, fs, j);
    forall x ensures Covered(fs', x) <==> Covered(fs, x) && !Holds(fs[j], x) {
      WithoutCovers(fs, j, x);
    }
    forall x | Holds(fs[j], x) ensures Covered(fs, x) {
    }
    NotLive(mem, base, fs, live, j - 1, fs[j-1].a);
    hide Gapped, Linked, Without;
    BecomesLive(mem, mem', base, fs, fs', live, arena, fs[j]);
  }

  lemma WithoutShape(base: int, fs: seq<Blk>, j: nat)
    requires Gapped(fs) && 0 < j < |fs| && fs[0] == Blk(base, 0) && forall i :: 0 < i < |fs| ==> fs[i].n >= 1
    ensures var s := Without(fs, j); Gapped(s) && |s| >= 1 && s[0] == fs[0] && forall i :: 0 < i < |s| ==> s[i].n >= 1
  {
    var s := Without(fs, j);
    assert forall i :: 0 <= i < |s| ==> s[i] == fs[if i < j then i else i + 1];
  }

  // An address in a free block, or base itself, is no live block's.
  lemma NotLive(mem: Mem, base: int, fs: seq<Blk>, live: map<int, int>, i: nat, x: int)
    requires LiveOk(mem, base, fs, live) && i < |fs| && (Holds(fs[i], x) || x == base)
    ensures x !in live
  {
    assert forall a :: a in live ==> Apart(Blk(a, live[a]), fs[i]);
  }

  lemma EndIsCovered(fs: seq<Blk>, j: nat, m: nat)
    requires j < |fs| && m <= fs[j].n
    ensures forall x :: Holds(Blk(fs[j].a + fs[j].n - m, m), x) ==> Covered(fs, x)
  {
    forall x | Holds(Blk(fs[j].a + fs[j].n - m, m), x) ensures Covered(fs, x) {
      assert Holds(fs[j], x);
    }
  }

  // The last m units of block j become live.
  lemma TakenPart(mem: Mem, base: int, fs: seq<Blk>, live: map<int, int>, arena: set<int>, j: nat, m: nat)
    requires FreeList(mem, base, fs) && LiveOk(mem, base, fs, live) && Partition(fs, live, arena) && 0 < j < |fs| && 1 <= m < fs[j].n
    ensures fs[j].a in mem && mem[fs[j].a].size == fs[j].n
    ensures var mem', fs', b := CutMem(mem, fs[j].a, m), CutList(fs, j, m), Blk(fs[j].a + fs[j].n - m, m);
      && b.a !in live && FreeList(mem', base, fs') && LiveOk(mem', base, fs', live[b.a := m]) && Partition(fs', live[b.a := m], arena)
      && forall x :: Holds(b, x) ==> Covered(fs, x)
  {
    CutLinked(mem, fs, j, m);
    CutGapped(fs, j, m);
    EndIsCovered(fs, j, m);
    CutKeepsLive(mem, base, fs, live, j, m);
    var mem', fs', b := CutMem(mem, fs[j].a, m), CutList(fs, j, m), Blk(fs[j].a + fs[j].n - m, m);
    assert base < b.a && fs'[0] == fs[0];
    hide Gapped, Linked, LiveOk, Partition, Covered, LiveAt, CutMem;
    forall x ensures Covered(fs', x) <==> Covered(fs, x) && !Holds(b, x) {
      CutCovers(fs, j, m, x);
    }
    BecomesLive(mem, mem', base, fs, fs', live, arena, b);
  }

  lemma CutKeepsLive(mem: Mem, base: int, fs: seq<Blk>, live: map<int, int>, j: nat, m: nat)
    requires LiveOk(mem, base, fs, live) && j < |fs| && 1 <= m < fs[j].n && fs[j].a in mem && mem[fs[j].a].size == fs[j].n
    ensures var mem', q := CutMem(mem, fs[j].a, m), fs[j].a + fs[j].n - m;
      q in mem' && mem'[q].size == m && forall a :: a in live ==> a in mem' && mem'[a].size == mem[a].size
  {
    NotLive(mem, base, fs, live, j, fs[j].a);
    NotLive(mem, base, fs, live, j, fs[j].a + fs[j].n - m);
  }

  // Free units that leave the free list become a live block.
  lemma BecomesLive(mem: Mem, mem': Mem, base: int, fs: seq<Blk>, fs': seq<Blk>, live: map<int, int>, arena: set<int>, b: Blk)
    requires Partition(fs, live, arena) && b.n >= 1 && base < b.a && b.a in mem' && mem'[b.a].size == b.n
    requires LiveOk(mem, base, fs, live) && forall a :: a in live ==> a in mem' && mem'[a].size == mem[a].size
    requires (forall x :: Holds(b, x) ==> Covered(fs, x)) && forall x :: Covered(fs', x) <==> Covered(fs, x) && !Holds(b, x)
    requires forall i :: 0 <= i < |fs'| ==> fs'[i].n >= 1 || fs'[i] == Blk(base, 0)
    ensures b.a !in live && LiveOk(mem', base, fs', live[b.a := b.n]) && Partition(fs', live[b.a := b.n], arena)
  {
    var live' := live[b.a := b.n];
    assert Holds(b, b.a);
    var i :| 0 <= i < |fs| && Holds(fs[i], b.a);
    NotLive(mem, base, fs, live, i, b.a);
    forall a | a in live ensures Apart(Blk(a, live[a]), b) {
      var x := if a < b.a then b.a else a;
      if Holds(Blk(a, live[a]), x) {
        NotCovered(fs, Blk(a, live[a]), x);
        assert !Holds(b, x);
      }
    }
    LiveKept(mem, mem', base, fs, fs', live, b);
    ApartFromCover(fs', b);
    forall x ensures x in arena <==> Covered(fs', x) || LiveAt(live', x) {
      assert live' - {b.a} == live;
      LiveSplit(live', b.a, x);
    }
  }

  lemma LiveSplit(live: map<int, int>, bp: int, x: int)
    requires bp in live
    ensures LiveAt(live, x) <==> LiveAt(live - {bp}, x) || Holds(Blk(bp, live[bp]), x)
  {
    var rest := live - {bp};
    if LiveAt(live, x) {
      var a :| a in live && Holds(Blk(a, live[a]), x);
      assert a == bp || (a in rest && Holds(Blk(a, rest[a]), x));
    }
    if LiveAt(rest, x) {
      var a :| a in rest && Holds(Blk(a, rest[a]), x);
      assert a in live && Holds(Blk(a, live[a]), x);
    }
  }

  // A region sbrk has just handed out is apart from everything, and its header is nobody's.
  lemma NewRegion(mem: Mem, base: int, fs: seq<Blk>, live: map<int, int>, arena: set<int>, b: Blk)
    requires FreeList(mem, base, fs) && LiveOk(mem, base, fs, live) && Partition(fs, live, arena)
    requires base < b.a && b.n >= 1 && forall x :: Holds(b, x) ==> x !in arena
    ensures Fits(fs, b) && (forall a :: a in live ==> Apart(Blk(a, live[a]), b))
    ensures forall h :: var mem' := mem[b.a := Header(h, b.n)]; FreeList(mem', base, fs) && LiveOk(mem', base, fs, live)
  {
    ApartFromCover(fs, b);
    forall a | a in live ensures Apart(Blk(a, live[a]), b) {
      var x := if a < b.a then b.a else a;
      assert Holds(b, x) && Holds(Blk(a, live[a]), x) ==> LiveAt(live, x);
    }
    forall h ensures var mem' := mem[b.a := Header(h, b.n)]; FreeList(mem', base, fs) && LiveOk(mem', base, fs, live) {
      var mem' := mem[b.a := Header(h, b.n)];
      forall i | 0 <= i < |fs| ensures Link(mem', fs, i) {
        assert Link(mem, fs, i) && Apart(b, fs[i]);
      }
    }
  }

  // What PutBack has to show about the lists.
  lemma PutBackList(mem: Mem, base: int, fs: seq<Blk>, k: nat, b: Blk, rest: map<int, int>)
    requires FreeList(mem, base, fs) && Below(fs, k, b.a) && Fits(fs, b) && base < b.a && b.a in mem && mem[b.a].size == b.n
    requires LiveOk(mem, base, fs, rest) && forall a :: a in rest ==> Apart(Blk(a, rest[a]), b)
    ensures fs[k].a in mem && var mem', fs' := Freed(mem, fs[k].a, b.a), Insert(fs, k, b);
      && FreeList(mem', base, fs') && LiveOk(mem', base, fs', rest) && k < |fs'| && fs'[k].a == fs[k].a
      && (forall x :: Covered(fs', x) <==> Covered(fs, x) || Holds(b, x))
      && exists i :: 0 < i < |fs'| && fs'[i].n >= b.n
  {
    hide Gapped, Linked;
    FreedLinked(mem, fs, k, b);
    InsertGapped(fs, k, b);
    InsertShape(fs, k, b, base);
    var mem', fs' := Freed(mem, fs[k].a, b.a), Insert(fs, k, b);
    forall x ensures Covered(fs', x) <==> Covered(fs, x) || Holds(b, x) {
      InsertCovers(fs, k, b, x);
    }
    forall a | a in rest ensures a in mem' && mem'[a].size == mem[a].size {
      assert Apart(Blk(a, rest[a]), b) && Apart(Blk(a, rest[a]), fs[k]);
      assert a != fs[k].a && a != b.a;
    }
    LiveKept(mem, mem', base, fs, fs', rest, b);
  }

  // Base stays first, other blocks keep at least one unit, and one is at least as large as b.
  lemma InsertShape(fs: seq<Blk>, k: nat, b: Blk, base: int)
    requires k < |fs| && fs[0] == Blk(base, 0) && base < b.a && b.n >= 1 && forall i :: 0 < i < |fs| ==> fs[i].n >= 1
    ensures var s := Insert(fs, k, b);
      && |s| >= 1 && s[0] == Blk(base, 0) && (forall i :: 0 < i < |s| ==> s[i].n >= 1) && k < |s| && s[k].a == fs[k].a
      && exists i :: 0 < i < |s| && s[i].n >= b.n
  {
    var s := Placed(fs, k, b);
    PlacedSlots(fs, k, b);
    assert forall i :: 0 < i < |s| ==> s[i].n >= 1;
    assert s[0] == fs[0];
    JoinedShape(s, k + 1, base);
    var s2 := Joined(s, k + 1);
    JoinedShape(s2, k, base);
    var s3 := Joined(s2, k);
    if Touch(s2, k) {
      assert s3[k].n >= b.n;
    } else {
      assert s3[k+1].n >= b.n;
    }
  }

  lemma JoinedShape(s: seq<Blk>, i: nat, base: int)
    requires i < |s| && s[0] == Blk(base, 0) && (forall m :: 0 < m < |s| ==> s[m].n >= 1) && (i == 0 && 1 < |s| ==> base < s[1].a)
    ensures var t := Joined(s, i);
      && i < |t| && t[0] == Blk(base, 0) && (forall m :: 0 < m < |t| ==> t[m].n >= 1)
      && (forall m :: 0 <= m < i ==> t[m] == s[m]) && t[i].a == s[i].a && t[i].n >= s[i].n
      && (Touch(s, i) ==> i > 0 && t[i].n >= s[i+1].n) && (!Touch(s, i) ==> t == s)
  {
  }

  // What address order says about place i of the ring, when a belongs behind block k.
  lemma OrderAt(fs: seq<Blk>, k: nat, a: int, i: nat)
    requires Gapped(fs) && Below(fs, k, a) && i < |fs| && fs[0].a < a
    ensures fs[i].a < a <==> i <= k
    ensures var n := Next(|fs|, i); (fs[n].a < a <==> n <= k) && (fs[i].a >= fs[n].a <==> i + 1 == |fs|)
  {
  }

  lemma {:induction false} LastBelow(fs: seq<Blk>, a: int) returns (k: nat)
    requires Gapped(fs) && |fs| >= 1 && fs[0].a < a && forall i :: 0 <= i < |fs| ==> fs[i].a != a
    ensures Below(fs, k, a)
  {
    k := 0;
    while k + 1 < |fs| && fs[k+1].a < a
      invariant k < |fs| && fs[k].a < a
    {
      k := k + 1;
    }
  }

  lemma BelowIsLargest(fs: seq<Blk>, k: nat, a: int)
    requires Gapped(fs) && Below(fs, k, a)
    ensures forall j :: 0 <= j < |fs| && fs[j].a < a ==> fs[j].a <= fs[k].a
  {
  }
}
