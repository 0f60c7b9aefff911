/** Two-level page tables over the page allocator: walkpgdir, mappages, setupkvm, deallocuvm,
    freevm and copyuvm of vm.c. Virtual and physical pages are given by number. */
module Vm {
  import opened Kalloc
  import opened Sets

  const ENTRIES := 1024
  const USER_PAGES := 0x8_0000    // KERNBASE / PGSIZE
  const ALL_PAGES := 0x10_0000

  const PTE_W := 2
  const PTE_WU := 6

  predicate Present(w: nat) {
    w % 2 == 1
  }

  function Frame(w: nat): nat {
    w / PGSIZE
  }

  function Flags(w: nat): nat {
    w % PGSIZE
  }

  function WithPresent(perm: nat): nat {
    if perm % 2 == 1 then perm else perm + 1
  }

  function MakePte(f: nat, perm: nat): nat {
    f * PGSIZE + WithPresent(perm)
  }

  lemma MakePteParts(f: nat, perm: nat)
    requires perm < PGSIZE
    ensures var w := MakePte(f, perm); Present(w) && Frame(w) == f && Flags(w) == WithPresent(perm)
  {
  }

  // The page table for directory slot i, or 0.
  function TableOf(mem: seq<Page>, d: nat, i: nat): nat {
    if d < |mem| && i < |mem[d]| && Present(mem[d][i]) then Frame(mem[d][i]) else 0
  }

  // The entry of virtual page v; 0, not present, where there is no table.
  function Entry(mem: seq<Page>, d: nat, v: nat): nat {
    var t := TableOf(mem, d, v / ENTRIES);
    if t != 0 && t < |mem| && v % ENTRIES < |mem[t]| then mem[t][v % ENTRIES] else 0
  }

  predicate Ram(lo: nat, f: nat) {
    0 < lo <= f < PHYS_FRAMES
  }

  function TableSet(mem: seq<Page>, d: nat): set<nat> {
    {d} + set i | 0 <= i < ENTRIES && TableOf(mem, d, i) != 0 :: TableOf(mem, d, i)
  }

  function UserSet(mem: seq<Page>, d: nat): set<nat> {
    set v | 0 <= v < USER_PAGES && Present(Entry(mem, d, v)) :: Frame(Entry(mem, d, v))
  }

  // The frames an address space holds: directory, page tables, user pages.
  function Owned(mem: seq<Page>, d: nat): set<nat> {
    TableSet(mem, d) + UserSet(mem, d)
  }

  ghost predicate Pages(mem: seq<Page>) {
    |mem| == PHYS_FRAMES && forall f {:trigger mem[f]} :: 0 <= f < |mem| ==> |mem[f]| == PAGE_WORDS
  }

  ghost predicate Tables(mem: seq<Page>, d: nat, lo: nat) {
    && Pages(mem) && Ram(lo, d)
    && (forall i {:trigger TableOf(mem, d, i)} :: 0 <= i < ENTRIES && Present(mem[d][i]) ==> Ram(lo, TableOf(mem, d, i)) && TableOf(mem, d, i) != d)
    && (forall i, j {:trigger TableOf(mem, d, i), TableOf(mem, d, j)} ::
          0 <= i < j < ENTRIES && TableOf(mem, d, i) != 0 ==> TableOf(mem, d, i) != TableOf(mem, d, j))
  }

  ghost predicate UserPages(mem: seq<Page>, d: nat, lo: nat) {
    && (forall v {:trigger Entry(mem, d, v)} :: 0 <= v < USER_PAGES && Present(Entry(mem, d, v)) ==>
          Ram(lo, Frame(Entry(mem, d, v))) && Frame(Entry(mem, d, v)) !in TableSet(mem, d))
    && (forall v, u {:trigger Entry(mem, d, v), Entry(mem, d, u)} ::
          0 <= v < u < USER_PAGES && Present(Entry(mem, d, v)) && Present(Entry(mem, d, u)) ==> Frame(Entry(mem, d, v)) != Frame(Entry(mem, d, u)))
  }

  /** Directory d heads a well-formed address space: no frame of it is used twice. */
  ghost predicate Space(mem: seq<Page>, d: nat, lo: nat) {
    Tables(mem, d, lo) && UserPages(mem, d, lo)
  }

  lemma TableIndex(v: nat)
    requires v < ALL_PAGES
    ensures v / ENTRIES < ENTRIES && v % ENTRIES < ENTRIES && v == v / ENTRIES * ENTRIES + v % ENTRIES
  {
  }

  lemma OwnedInRam(mem: seq<Page>, d: nat, lo: nat)
    requires Space(mem, d, lo)
    ensures forall f :: f in Owned(mem, d) ==> Ram(lo, f)
  {
  }

  // An address space depends on its directory and tables alone.
  lemma SameTables(mem: seq<Page>, mem': seq<Page>, d: nat, lo: nat)
    requires Space(mem, d, lo) && Pages(mem') && forall f :: f in TableSet(mem, d) ==> mem'[f] == mem[f]
    ensures Space(mem', d, lo) && TableSet(mem', d) == TableSet(mem, d) && UserSet(mem', d) == UserSet(mem, d)
    ensures forall v :: 0 <= v < ALL_PAGES ==> Entry(mem', d, v) == Entry(mem, d, v)
  {
    assert d in TableSet(mem, d);
    assert forall i :: 0 <= i < ENTRIES ==> TableOf(mem', d, i) == TableOf(mem, d, i);
    forall v | 0 <= v < ALL_PAGES
      ensures Entry(mem', d, v) == Entry(mem, d, v)
    {
      TableIndex(v);
      var t := TableOf(mem, d, v / ENTRIES);
      if t != 0 {
        assert t in TableSet(mem, d);
      }
    }
  }

  /* A new page table. */

  function ZeroPage(): Page {
    seq(PAGE_WORDS, _ => 0)
  }

  function AddTable(mem: seq<Page>, d: nat, i: nat, t: nat): seq<Page>
    requires d < |mem| && t < |mem| && i < |mem[d]| && t != d
  {
    mem[t := ZeroPage()][d := mem[d][i := MakePte(t, PTE_WU)]]
  }

  ghost predicate CanAddTable(mem: seq<Page>, d: nat, lo: nat, i: nat, t: nat) {
    Space(mem, d, lo) && i < ENTRIES && !Present(mem[d][i]) && Ram(lo, t) && t !in Owned(mem, d)
  }

  lemma AddTableTables(mem: seq<Page>, d: nat, lo: nat, i: nat, t: nat)
    requires CanAddTable(mem, d, lo, i, t) && t != d
    ensures var mem' := AddTable(mem, d, i, t); Tables(mem', d, lo) && TableSet(mem', d) == TableSet(mem, d) + {t}
    ensures var mem' := AddTable(mem, d, i, t); forall j :: 0 <= j < ENTRIES ==> TableOf(mem', d, j) == if j == i then t else TableOf(mem, d, j)
  {
    var mem' := AddTable(mem, d, i, t);
    MakePteParts(t, PTE_WU);
    forall j | 0 <= j < ENTRIES
      ensures TableOf(mem', d, j) == if j == i then t else TableOf(mem, d, j)
      ensures TableOf(mem, d, j) != t
    {
      assert TableOf(mem, d, j) == 0 || TableOf(mem, d, j) in TableSet(mem, d);
    }
    assert TableOf(mem', d, i) == t;
    forall f | f in TableSet(mem, d) + {t}
      ensures f in TableSet(mem', d)
    {
      if f != t && f != d {
        var j :| 0 <= j < ENTRIES && TableOf(mem, d, j) != 0 && TableOf(mem, d, j) == f;
        assert TableOf(mem', d, j) == f;
      }
    }
  }

  lemma AddTableKeeps(mem: seq<Page>, d: nat, lo: nat, i: nat, t: nat)
    requires CanAddTable(mem, d, lo, i, t) && t != d
    ensures var mem' := AddTable(mem, d, i, t); Space(mem', d, lo) && TableSet(mem', d) == TableSet(mem, d) + {t} && UserSet(mem', d) == UserSet(mem, d)
    ensures var mem' := AddTable(mem, d, i, t); TableOf(mem', d, i) == t && forall v :: 0 <= v < ALL_PAGES ==> Entry(mem', d, v) == Entry(mem, d, v)
  {
    AddTableTables(mem, d, lo, i, t);
    var mem' := AddTable(mem, d, i, t);
    forall v | 0 <= v < ALL_PAGES
      ensures Entry(mem', d, v) == Entry(mem, d, v)
    {
      TableIndex(v);
      var u := TableOf(mem, d, v / ENTRIES);
      assert TableOf(mem', d, v / ENTRIES) == if v / ENTRIES == i then t else u;
      if v / ENTRIES != i && u != 0 {
        assert u in TableSet(mem, d);
      }
    }
  }

  /* Writing an entry. */

  function PutEntry(mem: seq<Page>, d: nat, v: nat, w: nat): seq<Page>
    requires var t := TableOf(mem, d, v / ENTRIES); t < |mem| && v % ENTRIES < |mem[t]|
  {
    var t := TableOf(mem, d, v / ENTRIES);
    var page: Page := mem[t][v % ENTRIES := w];
    mem[t := page]
  }

  // A page that was not mapped gets a frame of its own, or a mapped one is cleared.
  ghost predicate CanPut(mem: seq<Page>, d: nat, lo: nat, v: nat, w: nat) {
    && Space(mem, d, lo) && v < ALL_PAGES && TableOf(mem, d, v / ENTRIES) != 0
    && (w == 0 || (!Present(Entry(mem, d, v)) && (v < USER_PAGES ==> Ram(lo, Frame(w)) && Frame(w) !in Owned(mem, d))))
  }

  lemma PutEntryTables(mem: seq<Page>, d: nat, lo: nat, v: nat, w: nat)
    requires CanPut(mem, d, lo, v, w)
    ensures var t := TableOf(mem, d, v / ENTRIES); t < |mem| && t in TableSet(mem, d) && v % ENTRIES < |mem[t]| && Entry(mem, d, v) == mem[t][v % ENTRIES]
    ensures var mem' := PutEntry(mem, d, v, w); Tables(mem', d, lo) && TableSet(mem', d) == TableSet(mem, d)
    ensures var mem' := PutEntry(mem, d, v, w); forall u :: 0 <= u < ALL_PAGES ==> Entry(mem', d, u) == if u == v then w else Entry(mem, d, u)
  {
    TableIndex(v);
    var t := TableOf(mem, d, v / ENTRIES);
    assert t in TableSet(mem, d);
    var mem' := PutEntry(mem, d, v, w);
    assert forall j :: 0 <= j < ENTRIES ==> TableOf(mem', d, j) == TableOf(mem, d, j);
    forall u | 0 <= u < ALL_PAGES
      ensures Entry(mem', d, u) == if u == v then w else Entry(mem, d, u)
    {
      TableIndex(u);
      assert u / ENTRIES == v / ENTRIES || TableOf(mem, d, u / ENTRIES) != t;
    }
  }

  lemma PutEntryKeeps(mem: seq<Page>, d: nat, lo: nat, v: nat, w: nat)
    requires CanPut(mem, d, lo, v, w)
    ensures var t := TableOf(mem, d, v / ENTRIES); t < |mem| && v % ENTRIES < |mem[t]| && Space(PutEntry(mem, d, v, w), d, lo)
    ensures v >= USER_PAGES ==> UserSet(PutEntry(mem, d, v, w), d) == UserSet(mem, d)
    ensures v < USER_PAGES && Present(w) ==> UserSet(PutEntry(mem, d, v, w), d) == UserSet(mem, d) + {Frame(w)}
    ensures v < USER_PAGES && w == 0 && Present(Entry(mem, d, v)) ==> UserSet(PutEntry(mem, d, v, w), d) == UserSet(mem, d) - {Frame(Entry(mem, d, v))}
  {
    hide Tables, TableSet;
    PutEntryTables(mem, d, lo, v, w);
    var mem' := PutEntry(mem, d, v, w);
    forall u | 0 <= u < USER_PAGES && Present(Entry(mem, d, u))
      ensures Frame(Entry(mem, d, u)) in UserSet(mem, d)
    {
    }
    if v < USER_PAGES && Present(w) {
      assert Entry(mem', d, v) == w;
      forall f | f in UserSet(mem, d)
        ensures f in UserSet(mem', d)
      {
        var u :| 0 <= u < USER_PAGES && Present(Entry(mem, d, u)) && f == Frame(Entry(mem, d, u));
        assert Entry(mem', d, u) == Entry(mem, d, u);
      }
    } else {
      forall f | f in UserSet(mem, d) && (v >= USER_PAGES || f != Frame(Entry(mem, d, v)))
        ensures f in UserSet(mem', d)
      {
        var u :| 0 <= u < USER_PAGES && Present(Entry(mem, d, u)) && f == Frame(Entry(mem, d, u));
        assert Entry(mem', d, u) == Entry(mem, d, u);
      }
    }
  }

  /* The operations. */

  /** The address space under d is well formed and shares no frame with the free list. */
  ghost predicate Holds(ram: Memory, d: nat)
    reads ram
  {
    ram.Valid() && Space(ram.mem, d, ram.lowest) && Owned(ram.mem, d) !! FreeSet(ram.free)
  }

  // Tables were added from the free list, and nothing was written but tables.
  ghost predicate Grown(mem: seq<Page>, free: seq<nat>, mem': seq<Page>, free': seq<nat>, d: nat) {
    && TableSet(mem, d) <= TableSet(mem', d)
    && FreeSet(free') + TableSet(mem', d) == FreeSet(free) + TableSet(mem, d)
    && |mem'| == |mem| && forall f {:trigger mem'[f]} :: 0 <= f < |mem| && f !in TableSet(mem', d) ==> mem'[f] == mem[f]
  }

  lemma GrownTransitive(mem: seq<Page>, free: seq<nat>, mem1: seq<Page>, free1: seq<nat>, mem2: seq<Page>, free2: seq<nat>, d: nat)
    requires Grown(mem, free, mem1, free1, d) && Grown(mem1, free1, mem2, free2, d)
    ensures Grown(mem, free, mem2, free2, d)
  {
    hide TableSet, FreeSet;
  }

  lemma PopFree(free: seq<nat>)
    requires free != []
    ensures FreeSet(free) == FreeSet(free[1..]) + {free[0]}
  {
    assert free == [free[0]] + free[1..];
  }

  // The table for page v, made if asked for; 0 if there is none.
  method WalkPgdir(ram: Memory, d: nat, v: nat, alloc: bool) returns (t: nat)
    requires Holds(ram, d) && v < ALL_PAGES
    modifies ram
    ensures Holds(ram, d) && t == TableOf(ram.mem, d, v / ENTRIES)
    ensures !alloc || t == 0 || TableOf(old(ram.mem), d, v / ENTRIES) != 0 ==> unchanged(ram)
    ensures t == 0 && alloc ==> ram.free == []
    ensures |ram.free| + 1 >= |old(ram.free)|
    ensures Grown(old(ram.mem), old(ram.free), ram.mem, ram.free, d) && UserSet(ram.mem, d) == UserSet(old(ram.mem), d)
    ensures forall u :: 0 <= u < ALL_PAGES ==> Entry(ram.mem, d, u) == Entry(old(ram.mem), d, u)
  {
    hide UserPages, UserSet, Entry, FreeSet, TableSet;
    TableIndex(v);
    var i := v / ENTRIES;
    if Present(ram.mem[d][i]) {
      return Frame(ram.mem[d][i]);
    }
    if !alloc {
      return 0;
    }
    t := ram.Kalloc();
    if t == 0 {
      return;
    }
    NewTable(ram.mem, old(ram.free), d, ram.lowest, i);
    var mem' := AddTable(ram.mem, d, i, t);
    ram.Store(mem');
  }

  // Facts for a table taken from the head of the free list.
  lemma NewTable(mem: seq<Page>, free: seq<nat>, d: nat, lo: nat, i: nat)
    requires Space(mem, d, lo) && i < ENTRIES && !Present(mem[d][i]) && free != [] && Ram(lo, free[0])
    requires Owned(mem, d) !! FreeSet(free) && Distinct(free)
    ensures free[0] != d && var mem' := AddTable(mem, d, i, free[0]); Space(mem', d, lo) && Owned(mem', d) !! FreeSet(free[1..])
    ensures var mem' := AddTable(mem, d, i, free[0]); Grown(mem, free, mem', free[1..], d) && UserSet(mem', d) == UserSet(mem, d)
    ensures var mem' := AddTable(mem, d, i, free[0]); forall f :: f in free[1..] && f < |mem| ==> mem'[f] == mem[f]
    ensures var mem' := AddTable(mem, d, i, free[0]); TableOf(mem', d, i) == free[0] && forall v :: 0 <= v < ALL_PAGES ==> Entry(mem', d, v) == Entry(mem, d, v)
  {
    var t := free[0];
    PopFree(free);
    assert t in FreeSet(free) && d in TableSet(mem, d);
    AddTableKeeps(mem, d, lo, i, t);
    assert forall f :: f in free[1..] ==> f in FreeSet(free) && f != t;
  }

  // Facts for an entry written over a free one.
  lemma NewEntry(mem: seq<Page>, free: seq<nat>, d: nat, lo: nat, v: nat, w: nat)
    requires CanPut(mem, d, lo, v, w) && Present(w) && Owned(mem, d) !! FreeSet(free) && (v < USER_PAGES ==> Frame(w) !in free)
    ensures var t := TableOf(mem, d, v / ENTRIES); t < |mem| && v % ENTRIES < |mem[t]|
    ensures var mem' := PutEntry(mem, d, v, w); Space(mem', d, lo) && Owned(mem', d) !! FreeSet(free) && Grown(mem, free, mem', free, d)
    ensures var mem' := PutEntry(mem, d, v, w); UserSet(mem', d) == UserSet(mem, d) + if v < USER_PAGES then {Frame(w)} else {}
    ensures var mem' := PutEntry(mem, d, v, w); forall f :: f in free && f < |mem| ==> mem'[f] == mem[f]
    ensures var mem' := PutEntry(mem, d, v, w); forall u :: 0 <= u < ALL_PAGES ==> Entry(mem', d, u) == if u == v then w else Entry(mem, d, u)
  {
    hide Tables, UserPages, UserSet, TableSet;
    PutEntryTables(mem, d, lo, v, w);
    PutEntryKeeps(mem, d, lo, v, w);
    assert forall f :: f in free ==> f in FreeSet(free);
  }

  datatype Mapping = Mapped | NoMemory | Remap

  // Map one page. A user page needs a frame of its own.
  method MapOne(ram: Memory, d: nat, v: nat, f: nat, perm: nat) returns (r: Mapping)
    requires Holds(ram, d) && v < ALL_PAGES && perm < PGSIZE
    requires v < USER_PAGES ==> ram.InRam(f) && f !in Owned(ram.mem, d) && f !in ram.free
    modifies ram
    ensures Holds(ram, d) && (r.Remap? <==> Present(Entry(old(ram.mem), d, v)))
    ensures !r.Mapped? ==> unchanged(ram)
    ensures r.NoMemory? ==> ram.free == []
    ensures |ram.free| + 1 >= |old(ram.free)|
    ensures r.Mapped? ==> Grown(old(ram.mem), old(ram.free), ram.mem, ram.free, d)
    ensures r.Mapped? ==> UserSet(ram.mem, d) == UserSet(old(ram.mem), d) + if v < USER_PAGES then {f} else {}
    ensures r.Mapped? ==> forall u :: 0 <= u < ALL_PAGES ==> Entry(ram.mem, d, u) == if u == v then MakePte(f, perm) else Entry(old(ram.mem), d, u)
  {
    hide UserPages, UserSet, TableSet;
    TableIndex(v);
    var t := WalkPgdir(ram, d, v, true);
    if t == 0 {
      return NoMemory;
    }
    if Present(ram.mem[t][v % ENTRIES]) {
      return Remap;
    }
    MakePteParts(f, perm);
    NewEntry(ram.mem, ram.free, d, ram.lowest, v, MakePte(f, perm));
    var mem' := PutEntry(ram.mem, d, v, MakePte(f, perm));
    ram.Store(mem');
    r := Mapped;
  }

  // The frames that pages v .. v+k-1 take, where they are user pages, when mapped from f on.
  function Frames(v: nat, f: nat, k: nat): (fs: set<nat>)
    ensures forall g :: g in fs ==> f <= g < f + k
    ensures v >= USER_PAGES ==> fs == {}
  {
    if k == 0 then {} else Frames(v, f, k - 1) + if v + k - 1 < USER_PAGES then {f + k - 1} else {}
  }

  // Map n pages from v on to frames from f on. User pages need frames of their own.
  method MapPages(ram: Memory, d: nat, v: nat, n: nat, f: nat, perm: nat) returns (r: Mapping)
    requires Holds(ram, d) && v < v + n <= ALL_PAGES && perm < PGSIZE
    requires forall g :: g in Frames(v, f, n) ==> ram.InRam(g) && g !in Owned(ram.mem, d) && g !in ram.free
    modifies ram
    ensures Holds(ram, d) && Grown(old(ram.mem), old(ram.free), ram.mem, ram.free, d)
    ensures r.Remap? ==> exists u :: v <= u < v + n && Present(Entry(old(ram.mem), d, u))
    ensures UserSet(old(ram.mem), d) <= UserSet(ram.mem, d) <= UserSet(old(ram.mem), d) + Frames(v, f, n)
    ensures r.Mapped? ==> UserSet(ram.mem, d) == UserSet(old(ram.mem), d) + Frames(v, f, n)
    ensures n == 1 ==> (r.Remap? <==> Present(Entry(old(ram.mem), d, v))) && (!r.Mapped? ==> unchanged(ram))
    ensures n == 1 ==> |ram.free| + 1 >= |old(ram.free)|
    ensures r.NoMemory? ==> ram.free == []
    ensures r.Mapped? ==> forall u :: 0 <= u < ALL_PAGES ==>
                            Entry(ram.mem, d, u) == if v <= u < v + n then MakePte(f + (u - v), perm) else Entry(old(ram.mem), d, u)
  {
    hide Space, UserSet, TableSet, Entry;
    var k := 0;
    while true
      invariant 0 <= k < n && Holds(ram, d) && Grown(old(ram.mem), old(ram.free), ram.mem, ram.free, d)
      invariant UserSet(ram.mem, d) == UserSet(old(ram.mem), d) + Frames(v, f, k)
      invariant k == 0 ==> unchanged(ram)
      invariant forall u :: 0 <= u < ALL_PAGES ==>
                  Entry(ram.mem, d, u) == if v <= u < v + k then MakePte(f + (u - v), perm) else Entry(old(ram.mem), d, u)
      decreases n - k
    {
      ghost var mem1, free1 := ram.mem, ram.free;
      FramesGrow(v, f, k + 1, n);
      r := MapOne(ram, d, v + k, f + k, perm);
      if !r.Mapped? {
        return;
      }
      GrownTransitive(old(ram.mem), old(ram.free), mem1, free1, ram.mem, ram.free, d);
      k := k + 1;
      if k == n {
        break;
      }
    }
  }

  lemma OneFrame(v: nat, f: nat)
    ensures Frames(v, f, 1) == if v < USER_PAGES then {f} else {}
  {
    assert Frames(v, f, 0) == {};
  }

  lemma {:induction false} FramesGrow(v: nat, f: nat, k: nat, n: nat)
    requires k <= n
    ensures Frames(v, f, k) <= Frames(v, f, n)
  {
    if k < n {
      FramesGrow(v, f, k, n - 1);
    }
  }

  // The kernel's mappings; data is the page where the kernel's writable data start.
  function KernelEntry(data: nat, v: nat): nat {
    if USER_PAGES <= v < USER_PAGES + 256 then MakePte(v - USER_PAGES, PTE_W)
    else if USER_PAGES + 256 <= v < data then MakePte(v - USER_PAGES, 0)
    else if USER_PAGES <= data <= v < USER_PAGES + PHYS_FRAMES then MakePte(v - USER_PAGES, PTE_W)
    else if 0xF_E000 <= v < ALL_PAGES then MakePte(v, PTE_W)
    else 0
  }

  ghost predicate DataStarts(data: nat) {
    USER_PAGES + 256 < data < USER_PAGES + PHYS_FRAMES
  }

  lemma EmptyDirectory(mem: seq<Page>, d: nat, lo: nat)
    requires Pages(mem) && Ram(lo, d) && mem[d] == ZeroPage()
    ensures Space(mem, d, lo) && TableSet(mem, d) == {d} && UserSet(mem, d) == {}
    ensures forall v :: 0 <= v < ALL_PAGES ==> Entry(mem, d, v) == 0
  {
    assert forall i :: 0 <= i < ENTRIES ==> TableOf(mem, d, i) == 0;
    forall v | 0 <= v < ALL_PAGES
      ensures Entry(mem, d, v) == 0
    {
      TableIndex(v);
    }
  }

  // Map one range of the kernel's map, which nothing occupies yet.
  method MapKernel(ram: Memory, d: nat, v: nat, n: nat, f: nat, perm: nat) returns (ok: bool)
    requires Holds(ram, d) && USER_PAGES <= v < v + n <= ALL_PAGES && perm < PGSIZE
    requires forall u :: v <= u < v + n ==> Entry(ram.mem, d, u) == 0
    modifies ram
    ensures Holds(ram, d) && Grown(old(ram.mem), old(ram.free), ram.mem, ram.free, d) && UserSet(ram.mem, d) == UserSet(old(ram.mem), d)
    ensures !ok ==> ram.free == []
    ensures ok ==> forall u :: 0 <= u < ALL_PAGES ==>
                     Entry(ram.mem, d, u) == if v <= u < v + n then MakePte(f + (u - v), perm) else Entry(old(ram.mem), d, u)
  {
    hide Space, UserSet, TableSet, FreeSet, Entry;
    var r := MapPages(ram, d, v, n, f, perm);
    assert !r.Remap?;
    ok := r.Mapped?;
  }

  /* How many frames an address space takes. */

  lemma {:induction false} FreeSize(free: seq<nat>)
    requires Distinct(free)
    ensures |FreeSet(free)| == |free|
  {
    if free != [] {
      FreeSize(free[1..]);
      PopFree(free);
    }
  }

  // The tables of the first n directory slots.
  function TablesTo(mem: seq<Page>, d: nat, n: nat): set<nat> {
    set i | 0 <= i < n && TableOf(mem, d, i) != 0 :: TableOf(mem, d, i)
  }

  lemma TablesToStep(mem: seq<Page>, d: nat, n: nat)
    ensures TablesTo(mem, d, n + 1) == TablesTo(mem, d, n) + if TableOf(mem, d, n) != 0 then {TableOf(mem, d, n)} else {}
  {
  }

  lemma {:induction false} TablesSize(mem: seq<Page>, d: nat, n: nat)
    ensures |TablesTo(mem, d, n)| <= n
  {
    if n == 0 {
      assert TablesTo(mem, d, 0) == {};
    } else {
      TablesSize(mem, d, n - 1);
      TablesToStep(mem, d, n - 1);
    }
  }

  // The frames of the user pages below n.
  function UserTo(mem: seq<Page>, d: nat, n: nat): set<nat> {
    set v | 0 <= v < n && Present(Entry(mem, d, v)) :: Frame(Entry(mem, d, v))
  }

  lemma {:induction false} UserSize(mem: seq<Page>, d: nat, n: nat)
    ensures |UserTo(mem, d, n)| <= n
  {
    if n == 0 {
      assert UserTo(mem, d, 0) == {};
    } else {
      UserSize(mem, d, n - 1);
      var w := Entry(mem, d, n - 1);
      assert UserTo(mem, d, n) == UserTo(mem, d, n - 1) + if Present(w) then {Frame(w)} else {};
    }
  }

  // When all that was free is the directory, its tables, at most n user pages and lost ones.
  lemma AllTaken(mem: seq<Page>, free: seq<nat>, d: nat, n: nat, lost: set<nat>)
    requires Distinct(free) && FreeSet(free) <= Owned(mem, d) + lost && n <= USER_PAGES
    requires forall v :: n <= v < USER_PAGES ==> !Present(Entry(mem, d, v))
    ensures |free| <= 1 + ENTRIES + n + |lost|
  {
    FreeSize(free);
    TablesSize(mem, d, ENTRIES);
    UserSize(mem, d, n);
    assert UserSet(mem, d) == UserTo(mem, d, n);
    var all := {d} + TablesTo(mem, d, ENTRIES) + UserTo(mem, d, n) + lost;
    assert TableSet(mem, d) == {d} + TablesTo(mem, d, ENTRIES);
    SubsetSize(FreeSet(free), all);
  }

  lemma NoUserPages(mem: seq<Page>, d: nat)
    requires UserSet(mem, d) == {}
    ensures forall v :: 0 <= v < USER_PAGES ==> !Present(Entry(mem, d, v))
  {
    forall v | 0 <= v < USER_PAGES
      ensures !Present(Entry(mem, d, v))
    {
      assert Frame(Entry(mem, d, v)) !in UserSet(mem, d);
    }
  }

  // A new address space with the kernel's part only, or 0.
  method SetupKvm(ram: Memory, data: nat) returns (d: nat)
    requires ram.Valid() && DataStarts(data)
    modifies ram
    ensures ram.Valid() && |ram.mem| == |old(ram.mem)|
    ensures FreeSet(ram.free) <= FreeSet(old(ram.free)) && forall f :: 0 <= f < |ram.mem| && f !in old(ram.free) ==> ram.mem[f] == old(ram.mem)[f]
    ensures d == 0 ==> ram.free == [] && |old(ram.free)| <= 1 + ENTRIES
    ensures d != 0 ==> Holds(ram, d) && FreeSet(ram.free) + Owned(ram.mem, d) == FreeSet(old(ram.free)) && UserSet(ram.mem, d) == {}
    ensures d != 0 ==> forall v :: 0 <= v < ALL_PAGES ==> Entry(ram.mem, d, v) == KernelEntry(data, v)
  {
    hide Space, UserSet, TableSet, Entry;
    d := ram.Kalloc();
    if d == 0 {
      return;
    }
    PopFree(old(ram.free));
    var mem' := ram.mem[d := ZeroPage()];
    ram.Store(mem');
    EmptyDirectory(ram.mem, d, ram.lowest);
    ghost var mem1, free1 := ram.mem, ram.free;
    var ok := MapKernel(ram, d, USER_PAGES, 256, 0, PTE_W);
    if ok {
      ghost var mem2, free2 := ram.mem, ram.free;
      ok := MapKernel(ram, d, USER_PAGES + 256, data - USER_PAGES - 256, 256, 0);
      GrownTransitive(mem1, free1, mem2, free2, ram.mem, ram.free, d);
    }
    if ok {
      ghost var mem2, free2 := ram.mem, ram.free;
      ok := MapKernel(ram, d, data, USER_PAGES + PHYS_FRAMES - data, data - USER_PAGES, PTE_W);
      GrownTransitive(mem1, free1, mem2, free2, ram.mem, ram.free, d);
    }
    if ok {
      ghost var mem2, free2 := ram.mem, ram.free;
      ok := MapKernel(ram, d, 0xF_E000, ALL_PAGES - 0xF_E000, 0xF_E000, PTE_W);
      GrownTransitive(mem1, free1, mem2, free2, ram.mem, ram.free, d);
    }
    if !ok {
      NoUserPages(ram.mem, d);
      AllTaken(ram.mem, old(ram.free), d, 0, {});
      d := 0;
    }
  }

  /* Taking pages away. */

  function Dropped(w: nat): nat {
    if Present(w) then 0 else w
  }

  // User pages went to the free list; the tables stay, and nothing foreign was written.
  ghost predicate Shrunk(mem: seq<Page>, free: seq<nat>, mem': seq<Page>, free': seq<nat>, d: nat) {
    && TableSet(mem', d) == TableSet(mem, d) && UserSet(mem', d) <= UserSet(mem, d)
    && FreeSet(free') + UserSet(mem', d) == FreeSet(free) + UserSet(mem, d)
    && (forall i :: 0 <= i < ENTRIES ==> TableOf(mem', d, i) == TableOf(mem, d, i))
    && |mem'| == |mem| && forall f {:trigger mem'[f]} :: 0 <= f < |mem| && f !in Owned(mem, d) ==> mem'[f] == mem[f]
  }

  lemma ShrunkTransitive(mem: seq<Page>, free: seq<nat>, mem1: seq<Page>, free1: seq<nat>, mem2: seq<Page>, free2: seq<nat>, d: nat)
    requires Shrunk(mem, free, mem1, free1, d) && Shrunk(mem1, free1, mem2, free2, d)
    ensures Shrunk(mem, free, mem2, free2, d)
  {
    hide TableSet, UserSet, FreeSet, TableOf;
    assert Owned(mem1, d) <= Owned(mem, d);
  }

  // Facts for clearing a mapped entry whose page has been overwritten.
  lemma ClearedEntry(mem: seq<Page>, mem1: seq<Page>, free: seq<nat>, d: nat, lo: nat, v: nat)
    requires Space(mem, d, lo) && Owned(mem, d) !! FreeSet(free) && v < USER_PAGES && Present(Entry(mem, d, v))
    requires Pages(mem1) && forall f {:trigger mem1[f]} :: 0 <= f < |mem1| && f != Frame(Entry(mem, d, v)) ==> mem1[f] == mem[f]
    ensures TableOf(mem1, d, v / ENTRIES) == TableOf(mem, d, v / ENTRIES)
    ensures var t := TableOf(mem1, d, v / ENTRIES); t < |mem1| && v % ENTRIES < |mem1[t]|
    ensures var mem' := PutEntry(mem1, d, v, 0); Pages(mem') && Space(mem', d, lo) && Owned(mem', d) !! FreeSet([Frame(Entry(mem, d, v))] + free)
    ensures var mem' := PutEntry(mem1, d, v, 0); Shrunk(mem, free, mem', [Frame(Entry(mem, d, v))] + free, d)
    ensures var mem' := PutEntry(mem1, d, v, 0); forall f :: f in [Frame(Entry(mem, d, v))] + free && f < |mem1| ==> mem'[f] == mem1[f]
    ensures var mem' := PutEntry(mem1, d, v, 0); forall u :: 0 <= u < ALL_PAGES ==> Entry(mem', d, u) == if u == v then 0 else Entry(mem, d, u)
  {
    var w := Entry(mem, d, v);
    var f := Frame(w);
    TableIndex(v);
    assert f in UserSet(mem, d) && f !in TableSet(mem, d);
    SameTables(mem, mem1, d, lo);
    PutEntryTables(mem1, d, lo, v, 0);
    PutEntryKeeps(mem1, d, lo, v, 0);
    assert Entry(mem1, d, v) == w;
    FreePush(free, f);
    ClearedTables(mem, mem1, d, lo, v);
    assert forall g :: g in free ==> g in FreeSet(free);
  }

  lemma ClearedTables(mem: seq<Page>, mem1: seq<Page>, d: nat, lo: nat, v: nat)
    requires Space(mem, d, lo) && v < USER_PAGES && Present(Entry(mem, d, v))
    requires Pages(mem1) && mem1[d] == mem[d] && TableOf(mem, d, v / ENTRIES) != d
    requires var t := TableOf(mem1, d, v / ENTRIES); t < |mem1| && v % ENTRIES < |mem1[t]|
    ensures forall i :: 0 <= i < ENTRIES ==> TableOf(PutEntry(mem1, d, v, 0), d, i) == TableOf(mem, d, i)
  {
  }

  lemma FreePush(free: seq<nat>, f: nat)
    ensures FreeSet([f] + free) == FreeSet(free) + {f}
  {
  }

  method DropPage(ram: Memory, d: nat, v: nat)
    requires Holds(ram, d) && v < USER_PAGES && TableOf(ram.mem, d, v / ENTRIES) != 0
    modifies ram
    ensures Holds(ram, d) && Shrunk(old(ram.mem), old(ram.free), ram.mem, ram.free, d)
    ensures forall u :: 0 <= u < ALL_PAGES ==> Entry(ram.mem, d, u) == if u == v then Dropped(Entry(old(ram.mem), d, u)) else Entry(old(ram.mem), d, u)
  {
    hide UserSet, TableSet;
    TableIndex(v);
    var t := TableOf(ram.mem, d, v / ENTRIES);
    var w := ram.mem[t][v % ENTRIES];
    assert w == Entry(ram.mem, d, v);
    if !Present(w) {
      return;
    }
    MappedIsOwned(ram.mem, d, v);
    var stopped := ram.KFree(Frame(w));
    ClearedEntry(old(ram.mem), ram.mem, old(ram.free), d, ram.lowest, v);
    var mem' := PutEntry(ram.mem, d, v, 0);
    ram.Store(mem');
  }

  lemma MappedIsOwned(mem: seq<Page>, d: nat, v: nat)
    requires v < USER_PAGES && Present(Entry(mem, d, v))
    ensures Frame(Entry(mem, d, v)) in UserSet(mem, d)
  {
  }

  // The pages deallocuvm looks at between a and b: where a table is missing it goes 4MB ahead.
  predicate Visits(mem: seq<Page>, d: nat, a: nat, b: nat, v: nat)
    decreases b - a
  {
    a < b && if TableOf(mem, d, a / ENTRIES) == 0 then Visits(mem, d, a + ENTRIES, b, v)
    else v == a || Visits(mem, d, a + 1, b, v)
  }

  function UpPages(sz: nat): nat {
    (sz + PGSIZE - 1) / PGSIZE
  }

  lemma {:induction false} VisitsAhead(mem: seq<Page>, d: nat, a: nat, b: nat, v: nat)
    requires Visits(mem, d, a, b, v)
    ensures a <= v < b
    decreases b - a
  {
    if TableOf(mem, d, a / ENTRIES) == 0 {
      VisitsAhead(mem, d, a + ENTRIES, b, v);
    } else if v != a {
      VisitsAhead(mem, d, a + 1, b, v);
    }
  }

  // No table from the one of page a up to the one of page v.
  predicate NoTableBefore(mem: seq<Page>, d: nat, a: nat, v: nat) {
    forall i :: a / ENTRIES <= i < v / ENTRIES ==> TableOf(mem, d, i) == 0
  }

  /** The pages visited are those with a table, but for the leading ones that a jump from the
      middle of a missing table carries past. */
  lemma {:induction false} VisitsExactly(mem: seq<Page>, d: nat, a: nat, b: nat, v: nat)
    ensures Visits(mem, d, a, b, v) <==>
              a <= v < b && TableOf(mem, d, v / ENTRIES) != 0 && !(v % ENTRIES < a % ENTRIES && NoTableBefore(mem, d, a, v))
    decreases b - a
  {
    if a < b {
      if TableOf(mem, d, a / ENTRIES) == 0 {
        VisitsExactly(mem, d, a + ENTRIES, b, v);
        JumpFromMissing(mem, d, a, v);
      } else {
        VisitsExactly(mem, d, a + 1, b, v);
        StepInTable(mem, d, a, v);
      }
    }
  }

  lemma JumpFromMissing(mem: seq<Page>, d: nat, a: nat, v: nat)
    requires TableOf(mem, d, a / ENTRIES) == 0
    ensures (a + ENTRIES) % ENTRIES == a % ENTRIES
    ensures a <= v && TableOf(mem, d, v / ENTRIES) != 0 ==> v / ENTRIES > a / ENTRIES && NoTableBefore(mem, d, a, v) == NoTableBefore(mem, d, a + ENTRIES, v)
    ensures a <= v < a + ENTRIES && TableOf(mem, d, v / ENTRIES) != 0 ==> v % ENTRIES < a % ENTRIES && NoTableBefore(mem, d, a, v)
  {
    assert (a + ENTRIES) / ENTRIES == a / ENTRIES + 1;
    if a <= v && TableOf(mem, d, v / ENTRIES) != 0 {
      assert v / ENTRIES >= a / ENTRIES;
      if NoTableBefore(mem, d, a + ENTRIES, v) {
        forall i | a / ENTRIES <= i < v / ENTRIES
          ensures TableOf(mem, d, i) == 0
        {
        }
      }
    }
  }

  lemma StepInTable(mem: seq<Page>, d: nat, a: nat, v: nat)
    requires TableOf(mem, d, a / ENTRIES) != 0
    ensures a <= v ==> !(v % ENTRIES < a % ENTRIES && NoTableBefore(mem, d, a, v))
    ensures a < v && v % ENTRIES < (a + 1) % ENTRIES ==> !NoTableBefore(mem, d, a + 1, v)
  {
    if a < v && v % ENTRIES < (a + 1) % ENTRIES {
      assert (a + 1) / ENTRIES == a / ENTRIES && a / ENTRIES < v / ENTRIES;
    }
    if a <= v && v % ENTRIES < a % ENTRIES {
      assert a / ENTRIES < v / ENTRIES;
    }
  }

  // A mapped page of the range that the jump leaves behind.
  predicate LeftBehind(mem: seq<Page>, d: nat, a: nat, b: nat, v: nat) {
    a <= v < b && Present(Entry(mem, d, v)) && v % ENTRIES < a % ENTRIES && NoTableBefore(mem, d, a, v)
  }

  /** Every mapped page from a to b is visited, if and only if the first table at or past page a
      maps nothing in the slots before the one of a. */
  lemma ClearsAllIff(mem: seq<Page>, d: nat, a: nat, b: nat)
    requires b <= USER_PAGES
    ensures (forall v :: a <= v < b && Present(Entry(mem, d, v)) ==> Visits(mem, d, a, b, v)) <==> !exists v :: LeftBehind(mem, d, a, b, v)
  {
    forall v | a <= v < b && Present(Entry(mem, d, v))
      ensures Visits(mem, d, a, b, v) <==> !LeftBehind(mem, d, a, b, v)
    {
      VisitsExactly(mem, d, a, b, v);
    }
  }

  /** From a page whose table exists, or a multiple of 4MB, no mapped page is passed over. */
  lemma SkipIsSafe(mem: seq<Page>, d: nat, a: nat, b: nat, v: nat)
    requires (a % ENTRIES == 0 || TableOf(mem, d, a / ENTRIES) != 0) && a <= v < b && Present(Entry(mem, d, v))
    ensures Visits(mem, d, a, b, v)
  {
    VisitsExactly(mem, d, a, b, v);
    if a % ENTRIES != 0 {
      StepInTable(mem, d, a, v);
    }
  }

  /** It can be otherwise: with no table for page 1 and page 1024 mapped, taking the pages from 1 on misses it. */
  lemma SkipPassesOver(mem: seq<Page>, d: nat, b: nat)
    requires TableOf(mem, d, 0) == 0 && Present(Entry(mem, d, 1024)) && 1024 < b
    ensures !Visits(mem, d, 1, b, 1024)
  {
    VisitsExactly(mem, d, 1, b, 1024);
  }

  // The user pages mapped are those below n, as growproc and exec make them.
  ghost predicate Contiguous(mem: seq<Page>, d: nat, n: nat) {
    forall v {:trigger Entry(mem, d, v)} :: 0 <= v < USER_PAGES ==> (Present(Entry(mem, d, v)) <==> v < n)
  }

  lemma GapBefore(mem: seq<Page>, d: nat, a: nat, v: nat)
    requires a <= v && v % ENTRIES < a % ENTRIES && NoTableBefore(mem, d, a, v)
    ensures !Present(Entry(mem, d, a))
  {
    assert a / ENTRIES < v / ENTRIES;
  }

  /** In a contiguous address space nothing is passed over, from wherever it starts. */
  lemma ContiguousIsCleared(mem: seq<Page>, d: nat, n: nat, a: nat, b: nat)
    requires Contiguous(mem, d, n) && b <= USER_PAGES
    ensures !exists v: nat :: LeftBehind(mem, d, a, b, v)
    ensures forall v :: a <= v < b && v < n ==> Visits(mem, d, a, b, v)
  {
    forall v: nat | LeftBehind(mem, d, a, b, v)
      ensures false
    {
      GapBefore(mem, d, a, v);
    }
    ClearsAllIff(mem, d, a, b);
    assert forall v :: a <= v < b && v < n ==> Present(Entry(mem, d, v));
  }

  /** An address space that is not: page 1024 mapped, and no table for the pages before it. */
  lemma SpaceWithGap(lo: nat) returns (mem: seq<Page>, d: nat)
    requires 0 < lo && lo + 2 < PHYS_FRAMES
    ensures Space(mem, d, lo) && TableOf(mem, d, 0) == 0 && Present(Entry(mem, d, 1024))
    ensures forall b :: 1024 < b ==> !Visits(mem, d, 1, b, 1024)
  {
    d := lo;
    var mem0: seq<Page> := seq(PHYS_FRAMES, _ => ZeroPage());
    EmptyDirectory(mem0, d, lo);
    AddTableTables(mem0, d, lo, 1, lo + 1);
    AddTableKeeps(mem0, d, lo, 1, lo + 1);
    var mem1 := AddTable(mem0, d, 1, lo + 1);
    assert TableOf(mem1, d, 0) == 0 && TableOf(mem1, d, 1) == lo + 1;
    var w := MakePte(lo + 2, PTE_WU);
    MakePteParts(lo + 2, PTE_WU);
    assert Entry(mem1, d, 1024) == 0;
    PutEntryTables(mem1, d, lo, 1024, w);
    PutEntryKeeps(mem1, d, lo, 1024, w);
    mem := PutEntry(mem1, d, 1024, w);
    assert mem[d] == mem1[d];
    forall b | 1024 < b
      ensures !Visits(mem, d, 1, b, 1024)
    {
      SkipPassesOver(mem, d, b);
    }
  }

  // Bring the process from oldsz to newsz bytes.
  method DeallocUvm(ram: Memory, d: nat, oldsz: nat, newsz: nat) returns (sz: nat)
    requires Holds(ram, d) && oldsz <= KERNBASE
    modifies ram
    ensures Holds(ram, d) && Shrunk(old(ram.mem), old(ram.free), ram.mem, ram.free, d)
    ensures sz == if newsz >= oldsz then oldsz else newsz
    ensures forall v :: 0 <= v < ALL_PAGES ==>
              Entry(ram.mem, d, v) == if newsz < oldsz && Visits(old(ram.mem), d, UpPages(newsz), UpPages(oldsz), v) then Dropped(Entry(old(ram.mem), d, v))
                                      else Entry(old(ram.mem), d, v)
    ensures newsz < oldsz && Contiguous(old(ram.mem), d, UpPages(oldsz)) ==> Contiguous(ram.mem, d, UpPages(newsz))
  {
    hide Space, UserSet, TableSet, FreeSet, Entry, TableOf, Owned;
    if newsz >= oldsz {
      return oldsz;
    }
    var a := UpPages(newsz);
    ghost var start, end := a, UpPages(oldsz);
    while a * PGSIZE < oldsz
      invariant start <= a && Holds(ram, d) && Shrunk(old(ram.mem), old(ram.free), ram.mem, ram.free, d)
      invariant forall v :: Visits(old(ram.mem), d, a, end, v) ==> Visits(old(ram.mem), d, start, end, v)
      invariant forall v :: 0 <= v < ALL_PAGES ==>
                  Entry(ram.mem, d, v) == if Visits(old(ram.mem), d, start, end, v) && !Visits(old(ram.mem), d, a, end, v) then Dropped(Entry(old(ram.mem), d, v))
                                          else Entry(old(ram.mem), d, v)
    {
      TableIndex(a);
      var t := WalkPgdir(ram, d, a, false);
      if t == 0 {
        a := a + ENTRIES;
      } else {
        ghost var mem1, free1 := ram.mem, ram.free;
        DropPage(ram, d, a);
        ShrunkTransitive(old(ram.mem), old(ram.free), mem1, free1, ram.mem, ram.free, d);
        if Visits(old(ram.mem), d, a + 1, end, a) {
          VisitsAhead(old(ram.mem), d, a + 1, end, a);
        }
        a := a + 1;
      }
    }
    sz := newsz;
    if Contiguous(old(ram.mem), d, end) {
      ContiguousIsCleared(old(ram.mem), d, end, start, end);
      forall v | 0 <= v < start && Visits(old(ram.mem), d, start, end, v)
        ensures false
      {
        VisitsAhead(old(ram.mem), d, start, end, v);
      }
    }
  }

  /* Growing. */

  // Page v is mapped writable for the user, on a page of zeros.
  ghost predicate Fresh(mem: seq<Page>, d: nat, v: nat) {
    Placed(mem, d, v, ZeroPage(), PTE_WU)
  }

  // Page v is mapped with the permissions, on a page with the contents.
  ghost predicate Placed(mem: seq<Page>, d: nat, v: nat, page: Page, perm: nat) {
    var w := Entry(mem, d, v);
    Present(w) && Flags(w) == WithPresent(perm) && Frame(w) < |mem| && mem[Frame(w)] == page
  }

  // A page is taken, filled and mapped, as in a round of allocuvm or copyuvm; f is the page taken, 0 if
  // there was none.
  method PlacePage(ram: Memory, d: nat, v: nat, page: Page, perm: nat) returns (r: Mapping, f: nat)
    requires Holds(ram, d) && v < USER_PAGES && |page| == PAGE_WORDS && perm < PGSIZE
    modifies ram
    ensures Holds(ram, d) && |ram.mem| == |old(ram.mem)| && |ram.free| + 2 >= |old(ram.free)|
    ensures if f == 0 then r == NoMemory && unchanged(ram) && ram.free == [] else f in FreeSet(old(ram.free))
    ensures r.NoMemory? ==> ram.free == [] && |old(ram.free)| <= 1
    ensures FreeSet(ram.free) + Owned(ram.mem, d) + (if f == 0 || r.Mapped? then {} else {f}) == FreeSet(old(ram.free)) + Owned(old(ram.mem), d)
    ensures r.Mapped? ==> Placed(ram.mem, d, v, page, perm)
    ensures r.Remap? <==> f != 0 && Present(Entry(old(ram.mem), d, v))
    ensures forall u :: 0 <= u < ALL_PAGES && (u != v || !r.Mapped?) ==> Entry(ram.mem, d, u) == Entry(old(ram.mem), d, u)
    ensures forall g {:trigger ram.mem[g]} :: 0 <= g < |ram.mem| && g !in FreeSet(old(ram.free)) + TableSet(old(ram.mem), d) ==> ram.mem[g] == old(ram.mem)[g]
  {
    hide Space, TableSet, UserSet, Entry;
    f := ram.Kalloc();
    if f == 0 {
      r := NoMemory;
      return;
    }
    PopFree(old(ram.free));
    assert f in FreeSet(old(ram.free));
    var mem' := ram.mem[f := page];
    OwnedInRam(ram.mem, d, ram.lowest);
    SameTables(ram.mem, mem', d, ram.lowest);
    ram.Store(mem');
    OneFrame(v, f);
    r := MapPages(ram, d, v, 1, f, perm);
    if r.Mapped? {
      MakePteParts(f, perm);
      assert f in Owned(ram.mem, d) && f !in TableSet(ram.mem, d) by { NewFrameIsUser(ram, d, v, f); }
    }
  }

  lemma NewFrameIsUser(ram: Memory, c: nat, v: nat, f: nat)
    requires Holds(ram, c) && v < USER_PAGES && Present(Entry(ram.mem, c, v)) && Frame(Entry(ram.mem, c, v)) == f
    ensures f in UserSet(ram.mem, c) && f !in TableSet(ram.mem, c)
  {
  }

  datatype Growth = Size(sz: nat) | Stop

  lemma StillFresh(mem: seq<Page>, mem': seq<Page>, d: nat, v: nat, lo: nat, taken: set<nat>)
    requires Fresh(mem, d, v) && v < USER_PAGES && Space(mem, d, lo) && Entry(mem', d, v) == Entry(mem, d, v) && |mem'| == |mem| && Owned(mem, d) !! taken
    requires forall g {:trigger mem'[g]} :: 0 <= g < |mem'| && g !in taken + TableSet(mem, d) ==> mem'[g] == mem[g]
    ensures Fresh(mem', d, v)
  {
    hide TableSet;
    MappedIsOwned(mem, d, v);
  }

  /** allocuvm ignores a failure of mappages, so a page whose table cannot be had is lost and its
      address stays unmapped though the new size is returned. With two free pages for each new one
      nothing is lost, and every new page is mapped, zeroed and private. */
  method AllocUvm(ram: Memory, d: nat, oldsz: nat, newsz: nat) returns (r: Growth, ghost lost: set<nat>)
    requires Holds(ram, d) && oldsz <= KERNBASE
    modifies ram
    ensures Holds(ram, d) && (newsz >= KERNBASE ==> r == Size(0) && unchanged(ram)) && (newsz < oldsz && newsz < KERNBASE ==> r == Size(oldsz) && unchanged(ram))
    ensures r.Size? ==> FreeSet(ram.free) + Owned(ram.mem, d) + lost == FreeSet(old(ram.free)) + Owned(old(ram.mem), d)
    ensures r == Size(newsz) && oldsz <= newsz && lost == {} && newsz > 0 ==> forall v :: UpPages(oldsz) <= v < UpPages(newsz) ==> Fresh(ram.mem, d, v)
    ensures oldsz <= newsz < KERNBASE && |old(ram.free)| >= 2 * (UpPages(newsz) - UpPages(oldsz)) ==> lost == {} && (r == Stop || r == Size(newsz))
    ensures r.Stop? ==> exists v :: UpPages(oldsz) <= v < UpPages(newsz) && Present(Entry(old(ram.mem), d, v))
    ensures r == Size(newsz) && oldsz <= newsz && lost == {} && newsz > 0 && Contiguous(old(ram.mem), d, UpPages(oldsz)) ==> Contiguous(ram.mem, d, UpPages(newsz))
  {
    hide Space, TableSet, UserSet, Entry, Placed, Visits;
    lost := {};
    if newsz >= KERNBASE {
      r := Size(0);
      return;
    }
    if newsz < oldsz {
      r := Size(oldsz);
      return;
    }
    var a := UpPages(oldsz);
    while a * PGSIZE < newsz
      invariant UpPages(oldsz) <= a && (a == UpPages(oldsz) || a <= UpPages(newsz)) && Holds(ram, d) && |ram.mem| == |old(ram.mem)|
      invariant FreeSet(ram.free) + Owned(ram.mem, d) + lost == FreeSet(old(ram.free)) + Owned(old(ram.mem), d)
      invariant lost == {} ==> forall v :: UpPages(oldsz) <= v < a ==> Fresh(ram.mem, d, v)
      invariant forall v {:trigger Entry(ram.mem, d, v)} :: 0 <= v < ALL_PAGES && !(UpPages(oldsz) <= v < a) ==> Entry(ram.mem, d, v) == Entry(old(ram.mem), d, v)
      invariant |ram.free| + 2 * (a - UpPages(oldsz)) >= |old(ram.free)| && (lost != {} ==> |old(ram.free)| < 2 * (UpPages(newsz) - UpPages(oldsz)))
      decreases newsz - a * PGSIZE
    {
      ghost var mem1, free1 := ram.mem, ram.free;
      var m, f := PlacePage(ram, d, a, ZeroPage(), PTE_WU);
      if f == 0 {
        var sz := DeallocUvm(ram, d, newsz, oldsz);
        r := Size(0);
        return;
      }
      if m.Remap? {
        r := Stop;
        return;
      }
      if m.NoMemory? {
        lost := lost + {f};
      } else {
        forall v | lost == {} && UpPages(oldsz) <= v < a
          ensures Fresh(ram.mem, d, v)
        {
          StillFresh(mem1, ram.mem, d, v, ram.lowest, FreeSet(free1));
        }
      }
      a := a + 1;
    }
    r := Size(newsz);
    assert lost == {} ==> forall v :: UpPages(oldsz) <= v < a ==> Present(Entry(ram.mem, d, v)) by { FreshIsPresent(ram.mem, d); }
  }

  lemma FreshIsPresent(mem: seq<Page>, d: nat)
    ensures forall v :: Fresh(mem, d, v) ==> Present(Entry(mem, d, v))
  {
  }

  /* Teardown and copy. */

  lemma TableIsNew(mem: seq<Page>, d: nat, lo: nat, n: nat)
    requires Tables(mem, d, lo) && n < ENTRIES && Present(mem[d][n])
    ensures Ram(lo, TableOf(mem, d, n)) && TableOf(mem, d, n) in TableSet(mem, d) && TableOf(mem, d, n) !in TablesTo(mem, d, n) && TableOf(mem, d, n) != d
  {
    assert TableOf(mem, d, n) != 0;
  }

  // Free the page tables and the directory of an address space without user pages.
  method FreeTables(ram: Memory, d: nat)
    requires Holds(ram, d) && UserSet(ram.mem, d) == {}
    modifies ram
    ensures ram.Valid() && FreeSet(ram.free) == FreeSet(old(ram.free)) + TableSet(old(ram.mem), d)
    ensures |ram.mem| == |old(ram.mem)| && forall f {:trigger ram.mem[f]} :: 0 <= f < |ram.mem| && f !in TableSet(old(ram.mem), d) ==> ram.mem[f] == old(ram.mem)[f]
  {
    hide UserPages, UserSet, TableOf;
    ghost var mem0, free0 := ram.mem, ram.free;
    assert Pages(mem0) && d in TableSet(mem0, d);
    var i := 0;
    while i < ENTRIES
      invariant i <= ENTRIES && ram.Valid() && ram.mem[d] == mem0[d] && |ram.mem| == |mem0|
      invariant FreeSet(ram.free) == FreeSet(free0) + TablesTo(mem0, d, i) && d !in ram.free
      invariant forall f {:trigger ram.mem[f]} :: 0 <= f < |ram.mem| && f !in TableSet(mem0, d) ==> ram.mem[f] == mem0[f]
    {
      TablesToStep(mem0, d, i);
      if Present(ram.mem[d][i]) {
        TableIsNew(mem0, d, ram.lowest, i);
        FreeTableStep(mem0, d, i);
        var f := Frame(ram.mem[d][i]);
        assert f !in FreeSet(free0) && f !in FreeSet(ram.free);
        FreePush(ram.free, f);
        var stopped := ram.KFree(f);
      } else {
        FreeTableStep(mem0, d, i);
      }
      i := i + 1;
    }
    assert d !in FreeSet(ram.free);
    FreePush(ram.free, d);
    var stopped := ram.KFree(d);
  }

  lemma FreeTableStep(mem: seq<Page>, d: nat, i: nat)
    requires d < |mem| && i < |mem[d]|
    ensures TableOf(mem, d, i) == if Present(mem[d][i]) then Frame(mem[d][i]) else 0
  {
  }

  /** freevm gives back every frame of the address space, and touches no other. */
  method FreeVm(ram: Memory, d: nat)
    requires Holds(ram, d)
    modifies ram
    ensures ram.Valid() && FreeSet(ram.free) == FreeSet(old(ram.free)) + Owned(old(ram.mem), d)
    ensures |ram.mem| == |old(ram.mem)| && forall f {:trigger ram.mem[f]} :: 0 <= f < |ram.mem| && f !in Owned(old(ram.mem), d) ==> ram.mem[f] == old(ram.mem)[f]
  {
    hide Space, TableSet, TableOf, Entry, Visits;
    var sz := DeallocUvm(ram, d, KERNBASE, 0);
    forall v | 0 <= v < USER_PAGES
      ensures !Present(Entry(ram.mem, d, v))
    {
      if Present(Entry(old(ram.mem), d, v)) {
        SkipIsSafe(old(ram.mem), d, 0, USER_PAGES, v);
      }
    }
    assert UserSet(ram.mem, d) == {};
    FreeTables(ram, d);
  }

  datatype Copy = Child(dir: nat) | OutOfMemory | Panic

  // Child page v has the flags and the bytes the parent's page had.
  ghost predicate Copied(mem: seq<Page>, d: nat, mem': seq<Page>, c: nat, v: nat) {
    var w, w' := Entry(mem, d, v), Entry(mem', c, v);
    && Present(w) && Present(w') && Flags(w') == Flags(w) && Frame(w) < |mem| && Frame(w') < |mem'|
    && mem'[Frame(w')] == mem[Frame(w)]
  }

  // What was copied stays, while the user pages of c stay.
  lemma StillCopied(mem: seq<Page>, d: nat, mem1: seq<Page>, mem2: seq<Page>, c: nat, v: nat, lo: nat, taken: set<nat>)
    requires Copied(mem, d, mem1, c, v) && Entry(mem2, c, v) == Entry(mem1, c, v) && v < USER_PAGES && Space(mem1, c, lo)
    requires |mem2| == |mem1| && UserSet(mem1, c) !! taken
    requires forall g {:trigger mem2[g]} :: 0 <= g < |mem2| && g !in taken + TableSet(mem1, c) ==> mem2[g] == mem1[g]
    ensures Copied(mem, d, mem2, c, v)
  {
    hide TableSet;
    MappedIsOwned(mem1, c, v);
  }

  // The parent is as it was, and the frames that were free are free or the child's.
  ghost predicate Apart(ram: Memory, mem0: seq<Page>, free0: seq<nat>, c: nat)
    reads ram
  {
    && Holds(ram, c) && |ram.mem| == |mem0| && FreeSet(ram.free) + Owned(ram.mem, c) == FreeSet(free0)
    && forall f {:trigger ram.mem[f]} :: 0 <= f < |ram.mem| && f !in FreeSet(free0) ==> ram.mem[f] == mem0[f]
  }

  // Pages below n are copied, the others up to the kernel's are not mapped yet, and the kernel's are.
  ghost predicate CopiedTo(mem0: seq<Page>, d: nat, mem: seq<Page>, c: nat, data: nat, n: nat) {
    && (forall u :: 0 <= u < n ==> Copied(mem0, d, mem, c, u))
    && (forall u {:trigger Entry(mem, c, u)} :: n <= u < ALL_PAGES ==> Entry(mem, c, u) == KernelEntry(data, u))
  }

  // One round of the copy; stops where the parent's page is missing.
  method CopyNext(ram: Memory, ghost mem0: seq<Page>, ghost free0: seq<nat>, d: nat, c: nat, ghost data: nat, v: nat) returns (r: Mapping)
    requires Space(mem0, d, ram.lowest) && Owned(mem0, d) !! FreeSet(free0) && Distinct(free0) && v < USER_PAGES
    requires Apart(ram, mem0, free0, c) && CopiedTo(mem0, d, ram.mem, c, data, v)
    modifies ram
    ensures r.Remap? <==> !Present(Entry(mem0, d, v))
    ensures r.Mapped? ==> Apart(ram, mem0, free0, c) && CopiedTo(mem0, d, ram.mem, c, data, v + 1)
    ensures !r.Mapped? ==> Holds(ram, c) && |ram.mem| == |mem0| && FreeSet(ram.free) + Owned(ram.mem, c) <= FreeSet(free0)
    ensures r.NoMemory? ==> |free0| <= 1 + ENTRIES + v + 1
    ensures forall f {:trigger ram.mem[f]} :: 0 <= f < |ram.mem| == |mem0| && f !in FreeSet(free0) ==> ram.mem[f] == mem0[f]
  {
    hide TableSet, UserSet, Entry, UserPages;
    OwnedInRam(mem0, d, ram.lowest);
    SameTables(mem0, ram.mem, d, ram.lowest);
    var t := WalkPgdir(ram, d, v, false);
    TableIndex(v);
    EntryInTable(ram.mem, d, ram.lowest, v);
    if t == 0 || !Present(ram.mem[t][v % ENTRIES]) {
      return Remap;
    }
    var w := ram.mem[t][v % ENTRIES];
    MappedIsOwned(mem0, d, v);
    FlagsPresent(w);
    r := CopyPage(ram, mem0, free0, d, c, data, v, Frame(w), Flags(w));
  }

  // The same from where the parent's frame and flags are known.
  method CopyPage(ram: Memory, ghost mem0: seq<Page>, ghost free0: seq<nat>, ghost d: nat, c: nat, ghost data: nat, v: nat, pa: nat, flags: nat)
    returns (r: Mapping)
    requires Distinct(free0) && v < USER_PAGES && Apart(ram, mem0, free0, c) && CopiedTo(mem0, d, ram.mem, c, data, v)
    requires pa < |ram.mem| && pa !in FreeSet(free0) && flags < PGSIZE && Present(flags)
    requires Present(Entry(mem0, d, v)) && Frame(Entry(mem0, d, v)) == pa && Flags(Entry(mem0, d, v)) == flags
    modifies ram
    ensures !r.Remap? && Holds(ram, c) && |ram.mem| == |mem0| && FreeSet(ram.free) + Owned(ram.mem, c) <= FreeSet(free0)
    ensures r.Mapped? ==> Apart(ram, mem0, free0, c) && CopiedTo(mem0, d, ram.mem, c, data, v + 1)
    ensures r.NoMemory? ==> |free0| <= 1 + ENTRIES + v + 1
    ensures forall f {:trigger ram.mem[f]} :: 0 <= f < |ram.mem| && f !in FreeSet(free0) ==> ram.mem[f] == mem0[f]
  {
    hide TableSet, UserSet, Entry, Space, Placed, CopiedTo;
    ghost var mem1, free1 := ram.mem, ram.free;
    NotYetMapped(mem0, d, mem1, c, data, v);
    assert ram.mem[pa] == mem0[pa];
    var f;
    r, f := PlacePage(ram, c, v, ram.mem[pa], flags);
    if r.NoMemory? {
      StillUnmapped(mem0, d, mem1, ram.mem, c, data, v);
      AllTaken(ram.mem, free0, c, v, if f == 0 then {} else {f});
    } else {
      CopiedMore(mem0, d, mem1, ram.mem, c, data, v, ram.lowest, FreeSet(free1));
    }
  }

  lemma NotYetMapped(mem0: seq<Page>, d: nat, mem: seq<Page>, c: nat, data: nat, v: nat)
    requires CopiedTo(mem0, d, mem, c, data, v) && v < USER_PAGES
    ensures forall u :: v <= u < USER_PAGES ==> !Present(Entry(mem, c, u))
  {
    forall u | v <= u < USER_PAGES
      ensures !Present(Entry(mem, c, u))
    {
      assert KernelEntry(data, u) == 0;
    }
  }

  lemma StillUnmapped(mem0: seq<Page>, d: nat, mem1: seq<Page>, mem2: seq<Page>, c: nat, data: nat, v: nat)
    requires CopiedTo(mem0, d, mem1, c, data, v) && v < USER_PAGES
    requires forall u :: 0 <= u < ALL_PAGES ==> Entry(mem2, c, u) == Entry(mem1, c, u)
    ensures forall u :: v <= u < USER_PAGES ==> !Present(Entry(mem2, c, u))
  {
    NotYetMapped(mem0, d, mem1, c, data, v);
  }

  lemma CopiedMore(mem0: seq<Page>, d: nat, mem1: seq<Page>, mem2: seq<Page>, c: nat, data: nat, v: nat, lo: nat, taken: set<nat>)
    requires CopiedTo(mem0, d, mem1, c, data, v) && v < USER_PAGES && Space(mem1, c, lo) && |mem2| == |mem1| && Owned(mem1, c) !! taken
    requires forall g {:trigger mem2[g]} :: 0 <= g < |mem2| && g !in taken + TableSet(mem1, c) ==> mem2[g] == mem1[g]
    requires forall u :: 0 <= u < ALL_PAGES && u != v ==> Entry(mem2, c, u) == Entry(mem1, c, u)
    requires var w := Entry(mem0, d, v); Present(w) && Frame(w) < |mem0| && Placed(mem2, c, v, mem0[Frame(w)], Flags(w))
    ensures CopiedTo(mem0, d, mem2, c, data, v + 1)
  {
    hide TableSet, UserSet, Entry, Space;
    FlagsPresent(Entry(mem0, d, v));
    forall u | 0 <= u < v + 1
      ensures Copied(mem0, d, mem2, c, u)
    {
      if u < v {
        StillCopied(mem0, d, mem1, mem2, c, u, lo, taken);
      }
    }
  }

  lemma FlagsPresent(w: nat)
    requires Present(w)
    ensures Present(Flags(w)) && Flags(w) < PGSIZE
  {
  }

  lemma EntryInTable(mem: seq<Page>, d: nat, lo: nat, v: nat)
    requires Space(mem, d, lo) && v < ALL_PAGES
    ensures var t := TableOf(mem, d, v / ENTRIES); if t == 0 then Entry(mem, d, v) == 0 else t < |mem| && |mem[t]| == ENTRIES && Entry(mem, d, v) == mem[t][v % ENTRIES]
  {
    TableIndex(v);
  }

  lemma CopyIsContiguous(mem0: seq<Page>, d: nat, mem: seq<Page>, c: nat, data: nat, n: nat)
    requires CopiedTo(mem0, d, mem, c, data, n) && n <= USER_PAGES && DataStarts(data)
    ensures Contiguous(mem, c, n)
  {
    forall v | 0 <= v < USER_PAGES
      ensures Present(Entry(mem, c, v)) <==> v < n
    {
      assert v < n ==> Copied(mem0, d, mem, c, v);
    }
  }

  /** copyuvm: unless memory runs out or a page is missing, the child's pages hold the parent's
      bytes and flags on frames taken from the free list, one for each, and every other frame is as
      before. A directory, all its tables and one page for each of the parent's are memory enough. */
  method CopyUvm(ram: Memory, d: nat, sz: nat, data: nat) returns (r: Copy)
    requires Holds(ram, d) && sz <= KERNBASE && DataStarts(data)
    modifies ram
    ensures ram.Valid() && FreeSet(ram.free) <= FreeSet(old(ram.free)) && |ram.mem| == |old(ram.mem)|
    ensures forall f {:trigger ram.mem[f]} :: 0 <= f < |ram.mem| && f !in FreeSet(old(ram.free)) ==> ram.mem[f] == old(ram.mem)[f]
    ensures r.Child? ==> Apart(ram, old(ram.mem), old(ram.free), r.dir) && CopiedTo(old(ram.mem), d, ram.mem, r.dir, data, UpPages(sz))
    ensures r.Panic? ==> exists v :: 0 <= v < UpPages(sz) && !Present(Entry(old(ram.mem), d, v))
    ensures r.Child? ==> forall v :: 0 <= v < UpPages(sz) ==> Present(Entry(old(ram.mem), d, v))
    ensures r.Child? ==> Contiguous(ram.mem, r.dir, UpPages(sz))
    ensures r.OutOfMemory? ==> |old(ram.free)| <= 1 + ENTRIES + UpPages(sz)
  {
    hide Space, TableSet, UserSet, Entry, Copied, Owned;
    var c := SetupKvm(ram, data);
    if c == 0 {
      return OutOfMemory;
    }
    var v := 0;
    while v * PGSIZE < sz
      invariant v <= UpPages(sz) && Apart(ram, old(ram.mem), old(ram.free), c) && CopiedTo(old(ram.mem), d, ram.mem, c, data, v)
      invariant forall u :: 0 <= u < v ==> Present(Entry(old(ram.mem), d, u))
    {
      var m := CopyNext(ram, old(ram.mem), old(ram.free), d, c, data, v);
      if m.Remap? {
        return Panic;
      }
      if m.NoMemory? {
        FreeVm(ram, c);
        return OutOfMemory;
      }
      v := v + 1;
    }
    CopyIsContiguous(old(ram.mem), d, ram.mem, c, data, v);
    r := Child(c);
  }

  /** Copying an address space and freeing the copy gives back exactly the free pages there were,
      and the parent is untouched. */
  method CopyThenFree(ram: Memory, d: nat, sz: nat, data: nat) returns (r: Copy)
    requires Holds(ram, d) && sz <= KERNBASE && DataStarts(data)
    modifies ram
    ensures r.Child? ==> FreeSet(ram.free) == FreeSet(old(ram.free))
    ensures |ram.mem| == |old(ram.mem)| && forall f {:trigger ram.mem[f]} :: 0 <= f < |ram.mem| && f in Owned(old(ram.mem), d) ==> ram.mem[f] == old(ram.mem)[f]
    ensures Holds(ram, d)
  {
    hide TableSet, UserSet, Entry, UserPages, CopiedTo;
    OwnedInRam(ram.mem, d, ram.lowest);
    r := CopyUvm(ram, d, sz, data);
    if r.Child? {
      FreeVm(ram, r.dir);
    }
    SameTables(old(ram.mem), ram.mem, d, ram.lowest);
  }

  /** The child's user frames are distinct, and none is the parent's. */
  lemma ChildFramesFresh(mem0: seq<Page>, free0: seq<nat>, d: nat, ram: Memory, c: nat, v: nat, u: nat)
    requires Space(mem0, d, ram.lowest) && Owned(mem0, d) !! FreeSet(free0) && Apart(ram, mem0, free0, c)
    requires v < USER_PAGES && u < USER_PAGES && Present(Entry(ram.mem, c, v)) && Present(Entry(ram.mem, c, u))
    ensures v != u ==> Frame(Entry(ram.mem, c, v)) != Frame(Entry(ram.mem, c, u))
    ensures Frame(Entry(ram.mem, c, v)) in FreeSet(free0) && Frame(Entry(ram.mem, c, v)) !in Owned(mem0, d)
  {
    MappedIsOwned(ram.mem, c, v);
  }
}
