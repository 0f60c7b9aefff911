/** Physical pages and their free list, threaded through the pages themselves (kalloc.c). */
module Kalloc {

  const PAGE_WORDS := 1024
  const PGSIZE := 4096
  const KERNBASE := 0x8000_0000
  const PHYS_FRAMES := 0xE000  // PHYSTOP / PGSIZE

  type Page = seq<nat>

  // The kernel's pointer to a physical frame.
  function Pointer(f: nat): nat {
    KERNBASE + f * PGSIZE
  }

  function FrameAt(v: nat): nat
    requires v >= KERNBASE
  {
    (v - KERNBASE) / PGSIZE
  }

  function FreeSet(free: seq<nat>): set<nat> {
    set f | f in free
  }

  ghost predicate Distinct(free: seq<nat>) {
    forall i, j :: 0 <= i < j < |free| ==> free[i] != free[j]
  }

  function Next(free: seq<nat>, k: nat): nat {
    if k < |free| then Pointer(free[k]) else 0
  }

  // The k-th free page points at the one after it.
  ghost predicate Links(mem: seq<Page>, free: seq<nat>, k: nat)
    requires k < |free|
  {
    free[k] < |mem| && |mem[free[k]]| == PAGE_WORDS && mem[free[k]][0] == Next(free, k + 1)
  }

  class Memory {
    const lowest: nat  // the first frame past the kernel image
    var mem: seq<Page>
    var freelist: nat
    ghost var free: seq<nat>

    predicate InRam(f: nat) {
      0 < lowest <= f < PHYS_FRAMES
    }

    ghost predicate Valid()
      reads this
    {
      && |mem| == PHYS_FRAMES && (forall f {:trigger mem[f]} :: 0 <= f < |mem| ==> |mem[f]| == PAGE_WORDS)
      && Distinct(free) && (forall f :: f in free ==> InRam(f))
      && freelist == Next(free, 0) && (forall k {:trigger Links(mem, free, k)} :: 0 <= k < |free| ==> Links(mem, free, k))
    }

    // Writing to pages that are in use leaves the free list alone.
    method Store(mem': seq<Page>)
      requires Valid() && |mem'| == |mem|
      requires forall f {:trigger mem'[f]} :: 0 <= f < |mem'| ==> |mem'[f]| == PAGE_WORDS
      requires forall f :: f in free ==> 0 <= f < |mem'| && mem'[f] == mem[f]
      modifies this`mem
      ensures Valid() && mem == mem'
    {
      assert forall k {:trigger Links(mem', free, k)} :: 0 <= k < |free| ==> Links(mem, free, k) && Links(mem', free, k);
      mem := mem';
    }

    method Kalloc() returns (f: nat)
      requires Valid()
      modifies this`freelist, this`free
      ensures Valid() && (f == 0 <==> old(free) == [])
      ensures f == 0 ==> free == old(free)
      ensures f != 0 ==> f == old(free)[0] && InRam(f) && free == old(free)[1..] && f !in free
    {
      assert freelist == Next(free, 0);
      if freelist == 0 {
        return 0;
      }
      assert Links(mem, free, 0);
      f := FrameAt(freelist);
      assert f == free[0] && f in free;
      freelist := mem[f][0];
      ghost var was := free;
      free := free[1..];
      forall k | 0 <= k < |free|
        ensures Links(mem, free, k)
      {
        assert Links(mem, was, k + 1);
      }
    }

    // A frame outside the allocator's range stops the kernel.
    method KFree(f: nat) returns (stopped: bool)
      requires Valid() && f !in free
      modifies this
      ensures stopped == !InRam(f) && (stopped ==> unchanged(this))
      ensures !stopped ==> Valid() && free == [f] + old(free) && |mem| == |old(mem)|
      ensures forall g :: 0 <= g < |mem| == |old(mem)| && g != f ==> mem[g] == old(mem)[g]
    {
      stopped := !InRam(f);
      if stopped {
        return;
      }
      ghost var was, before := free, mem;
      var page: Page := seq(PAGE_WORDS, _ => 0x0101_0101);
      mem := mem[f := page[0 := freelist]];
      freelist := Pointer(f);
      free := [f] + free;
      forall k | 0 <= k < |free|
        ensures Links(mem, free, k)
      {
        if k > 0 {
          assert Links(before, was, k - 1);
        }
      }
    }

    // Hand the frames lo .. hi to the allocator.
    method FreeRange(lo: nat, hi: nat)
      requires Valid() && 0 < lowest <= lo <= hi <= PHYS_FRAMES && forall f :: f in free ==> f < lo
      modifies this
      ensures Valid() && forall f :: f in free <==> f in old(free) || lo <= f < hi
    {
      var p := lo;
      while p < hi
        invariant lo <= p <= hi && Valid() && forall f :: f in free <==> f in old(free) || lo <= f < p
      {
        var stopped := KFree(p);
        p := p + 1;
      }
    }
  }
}
