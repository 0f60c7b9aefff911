/** The buffer cache of bio.c: a doubly linked ring of buffers in order of use, over a disk
    whose block reads and writes are synchronous (memide.c). */
module BufferCache {
  import opened Blocks
  import opened Journal
  import opened Sets

  const NBUF := 30
  const NODEV := -1
  const DISK := 1

  class Buf {
    var busy: bool
    var valid: bool
    var dirty: bool
    var dev: int
    var blockno: nat
    var data: Block
    var prev: Buf
    var next: Buf

    constructor ()
      ensures !busy && !valid && !dirty && dev == NODEV
    {
      busy, valid, dirty := false, false, false;
      dev, blockno, data := NODEV, 0, ZeroBlock();
      prev, next := this, this;
    }
  }

  /** Outcome of asking for a buffer: one is handed over; the block is in use and the caller
      sleeps until it is released; or the kernel panics. */
  datatype Fetch = Fetched(b: Buf) | InUse | Panic

  ghost predicate Distinct(s: seq<Buf>) {
    forall i, j :: 0 <= i < j < |s| ==> s[i] != s[j]
  }

  // Starting at h and following next, the ring is s; following prev, it is s backwards.
  ghost predicate Ring(h: Buf, s: seq<Buf>)
    reads h`prev, h`next, s`prev, s`next
  {
    && h !in s && Distinct(s)
    && (s == [] ==> h.next == h && h.prev == h)
    && (s != [] ==> h.next == s[0] && s[0].prev == h && h.prev == s[|s|-1] && s[|s|-1].next == h)
    && forall i, j :: 0 <= i && j == i + 1 && j < |s| ==> s[i].next == s[j] && s[j].prev == s[i]
  }

  class Cache {
    const head: Buf
    var disk: Disk
    ghost var bufs: set<Buf>      // all buffers
    ghost var order: seq<Buf>     // the ring, most recently used first
    ghost var writes: seq<Write>  // block writes issued so far
    ghost var view: Disk          // what a reader of each block sees

    ghost predicate Valid()
      reads this, head, bufs, order
    {
      && |order| == |bufs| == NBUF && Ring(head, order) && (forall b :: b in order ==> b in bufs) && (forall b :: b in bufs ==> b in order)
      && Coherent()
    }

    ghost predicate Coherent()
      reads this`disk, this`view, this`bufs
      reads bufs`busy, bufs`valid, bufs`dirty, bufs`dev, bufs`blockno, bufs`data
    {
      && |view| == |disk|
      && (forall b :: b in bufs ==> GoodBuf(b))
      && (forall b, c :: b in bufs && c in bufs && b != c && b.dev == c.dev && b.dev != NODEV ==> b.blockno != c.blockno)
      && (forall n :: 0 <= n < |disk| ==> view[n] == disk[n] || Held(n))
    }

    // A buffer nobody holds either shows the disk or waits for the log to write it.
    ghost predicate GoodBuf(b: Buf)
      reads this`disk, this`view, b`busy, b`valid, b`dirty, b`dev, b`blockno, b`data
    {
      && (b.valid ==> b.dev == DISK && b.blockno < |disk| && b.blockno < |view| && b.data == view[b.blockno])
      && (b.dirty ==> b.valid)
      && (b.valid && !Pinned(b) ==> b.data == disk[b.blockno])
    }

    ghost predicate Pinned(b: Buf)
      reads b`busy, b`dirty
    {
      b.busy || b.dirty
    }

    // Some buffer that bget cannot reassign has block n.
    ghost predicate Held(n: nat)
      reads this`bufs, bufs`valid, bufs`blockno, bufs`busy, bufs`dirty
    {
      exists b :: b in bufs && b.valid && b.blockno == n && Pinned(b)
    }

    // The blocks that wait for the log.
    ghost function DirtyBlocks(): set<nat>
      reads this`bufs, bufs`dirty, bufs`blockno
    {
      set b | b in bufs && b.dirty :: b.blockno
    }

    ghost predicate Idle()
      reads this`bufs, bufs`busy
    {
      forall b :: b in bufs ==> !b.busy
    }

    constructor (disk: Disk)
      ensures Valid() && this.disk == disk == view && writes == []
      ensures fresh(head) && fresh(bufs) && forall b :: b in bufs ==> !b.busy && !b.valid && !b.dirty && b.dev == NODEV
    {
      this.disk := disk;
      head := new Buf();
      order, writes, view, bufs := [], [], disk, {};
      new;
      head.prev := head;
      head.next := head;
      for i := 0 to NBUF
        invariant Building(i) && fresh(bufs)
        invariant this.disk == disk == view && writes == []
      {
        AddBuffer(i);
      }
    }

    ghost predicate Building(n: nat)
      reads this, head, bufs, order
    {
      && |order| == |bufs| == n && Ring(head, order) && head !in bufs
      && (forall b :: b in order ==> b in bufs) && (forall b :: b in bufs ==> b in order)
      && forall b :: b in bufs ==> !b.busy && !b.valid && !b.dirty && b.dev == NODEV
    }

    // One turn of binit's loop.
    method AddBuffer(ghost n: nat)
      requires Building(n)
      modifies this`order, this`bufs, head, bufs
      ensures Building(n + 1) && fresh(bufs - old(bufs))
    {
      hide Ring;
      var b := new Buf();
      PushFront(b, order);
      order := [b] + order;
      bufs := bufs + {b};
    }

    // Insert b after the head.
    method PushFront(b: Buf, ghost s: seq<Buf>)
      requires Ring(head, s) && b !in s && b != head
      modifies b`prev, b`next, head`next, head`prev, s`prev, s`next
      ensures Ring(head, [b] + s)
    {
      b.next := head.next;
      b.prev := head;
      head.next.prev := b;
      head.next := b;
      ghost var t := [b] + s;
      assert forall i :: 0 < i < |t| ==> t[i] == s[i-1];
    }

    // Take b = s[k] out of the ring.
    method Detach(b: Buf, ghost s: seq<Buf>, ghost k: nat)
      requires Ring(head, s) && k < |s| && b == s[k]
      modifies head`next, head`prev, s`prev, s`next
      ensures Ring(head, s[..k] + s[k+1..])
    {
      assert b.next == if k + 1 < |s| then s[k+1] else head;
      assert b.prev == if 0 < k then s[k-1] else head;
      b.next.prev := b.prev;
      b.prev.next := b.next;
      ghost var t := s[..k] + s[k+1..];
      assert forall i :: 0 <= i < |t| ==> t[i] == s[if i < k then i else i + 1];
    }

    // A buffer for (dev, blockno), whatever state it is in.
    ghost predicate Cached(dev: int, blockno: nat)
      reads this`bufs, bufs`dev, bufs`blockno
    {
      exists b :: b in bufs && b.dev == dev && b.blockno == blockno
    }

    /** bget's first scan, forward from the most recently used. */
    method Lookup(dev: int, blockno: nat) returns (r: Buf?)
      requires Valid()
      ensures r == null <==> !Cached(dev, blockno)
      ensures r != null ==> r in bufs && r.dev == dev && r.blockno == blockno
    {
      var b := head.next;
      ghost var i := 0;
      while b != head
        invariant 0 <= i <= |order| && b == if i < |order| then order[i] else head
        invariant forall j :: 0 <= j < i ==> !(order[j].dev == dev && order[j].blockno == blockno)
        decreases |order| - i
      {
        if b.dev == dev && b.blockno == blockno {
          return b;
        }
        b := b.next;
        i := i + 1;
      }
      return null;
    }

    // b is the least recently used of the buffers that may be reassigned.
    ghost predicate LeastRecent(b: Buf)
      reads this`order, order`busy, order`dirty
    {
      exists k :: 0 <= k < |order| && order[k] == b && !Pinned(b) && forall i :: k < i < |order| ==> Pinned(order[i])
    }

    /** bget's second scan, backward from the least recently used. */
    method Victim() returns (r: Buf?)
      requires Valid()
      ensures r == null <==> forall b :: b in bufs ==> Pinned(b)
      ensures r != null ==> LeastRecent(r)
    {
      var b := head.prev;
      ghost var i := |order| - 1;
      while b != head
        invariant -1 <= i < |order| && b == if 0 <= i then order[i] else head
        invariant forall j :: i < j < |order| ==> Pinned(order[j])
        decreases i
      {
        if !b.busy && !b.dirty {
          assert b in bufs && !Pinned(b);
          return b;
        }
        b := b.prev;
        i := i - 1;
      }
      return null;
    }

    // Give an unpinned buffer to a block that has none.
    method Reassign(b: Buf, dev: int, blockno: nat)
      requires Valid() && dev != NODEV && b in bufs && !Pinned(b) && !Cached(dev, blockno)
      modifies b`busy, b`valid, b`dirty, b`dev, b`blockno
      ensures Valid() && b.busy && !b.valid && !b.dirty && b.dev == dev && b.blockno == blockno
    {
      hide Ring;
      b.dev := dev;
      b.blockno := blockno;
      b.busy, b.valid, b.dirty := true, false, false;
    }

    method Hold(b: Buf)
      requires Valid() && b in bufs
      modifies b`busy
      ensures Valid() && b.busy
    {
      hide Ring;
      b.busy := true;
    }

    /** bget: hand over the buffer already assigned to the block; failing that, reassign the
        least recently used one that is neither held nor dirty. Nothing else changes. */
    method BGet(dev: int, blockno: nat) returns (r: Fetch)
      requires Valid() && dev != NODEV
      modifies bufs`busy, bufs`valid, bufs`dirty, bufs`dev, bufs`blockno
      ensures Valid()
      ensures r.InUse? <==> exists b :: b in bufs && old(b.dev == dev && b.blockno == blockno && b.busy)
      ensures r.Panic? <==> !old(Cached(dev, blockno)) && forall b :: b in bufs ==> old(Pinned(b))
      ensures r.Fetched? ==> r.b in bufs && !old(r.b.busy) && r.b.busy && r.b.dev == dev && r.b.blockno == blockno
      ensures r.Fetched? && old(Cached(dev, blockno)) ==>
        old(r.b.dev == dev && r.b.blockno == blockno) && r.b.valid == old(r.b.valid) && r.b.dirty == old(r.b.dirty)
      ensures r.Fetched? && !old(Cached(dev, blockno)) ==> old(LeastRecent(r.b)) && !r.b.valid && !r.b.dirty
      ensures forall c :: c in bufs && r != Fetched(c) ==> unchanged(c)
    {
      hide Ring;
      var b := Lookup(dev, blockno);
      if b != null {
        if b.busy {
          return InUse;
        }
        Hold(b);
        return Fetched(b);
      }
      b := Victim();
      if b == null {
        return Panic;
      }
      Reassign(b, dev, blockno);
      return Fetched(b);
    }

    // memide.c: a dirty buffer is written out, any other is read in.
    method IdeRw(b: Buf)
      requires Coherent() && b in bufs && b.busy && b.dev == DISK && b.blockno < |disk|
      requires b.dirty || !b.valid
      modifies this`disk, this`writes, b`dirty, b`valid, b`data
      ensures Coherent() && b.valid && !b.dirty
      ensures old(b.dirty) ==> disk == old(disk)[b.blockno := b.data] && writes == old(writes) + [Write(b.blockno, b.data)] && b.data == old(b.data)
      ensures !old(b.dirty) ==> disk == old(disk) && writes == old(writes)
    {
      if b.dirty {
        WriteOut(b);
      } else {
        b.data := disk[b.blockno];
        b.valid := true;
      }
    }

    method WriteOut(b: Buf)
      requires Coherent() && b in bufs && b.busy && b.dirty
      modifies this`disk, this`writes, b`dirty
      ensures Coherent() && !b.dirty
      ensures disk == old(disk)[b.blockno := b.data] && writes == old(writes) + [Write(b.blockno, b.data)]
    {
      b.dirty := false;
      disk := disk[b.blockno := b.data];
      writes := writes + [Write(b.blockno, b.data)];
      assert forall n :: 0 <= n < |disk| && old(Held(n)) ==> Held(n);
    }

    /** bread: on return the caller holds the block's only buffer and it shows the block's
        current contents. No block changes for any reader, and no pinned buffer moves to
        another block. */
    method BRead(blockno: nat) returns (r: Fetch)
      requires Valid()
      modifies this`disk, this`writes, bufs`busy, bufs`valid, bufs`dirty, bufs`dev, bufs`blockno, bufs`data
      ensures disk == old(disk) && writes == old(writes)
      ensures r.Fetched? ==> Valid() && blockno < |disk|
      ensures r.Fetched? ==> r.b in bufs && !old(r.b.busy) && r.b.busy && r.b.valid && r.b.dev == DISK && r.b.blockno == blockno
      ensures r.Fetched? ==> r.b.data == view[blockno] && (r.b.dirty || r.b.data == disk[blockno])
      ensures r.Fetched? ==> forall c :: c in bufs && c != r.b ==> unchanged(c)
      ensures r.Fetched? ==> DirtyBlocks() == old(DirtyBlocks())
      ensures r.InUse? ==> exists c :: c in bufs && old(c.busy) && old(c.blockno) == blockno
      ensures r.Panic? ==> blockno >= |disk| || (old(!Cached(DISK, blockno)) && forall c :: c in bufs ==> old(Pinned(c)))
    {
      hide Ring;
      r := BGet(DISK, blockno);
      if r.Fetched? && !r.b.valid {
        if blockno >= |disk| {
          return Panic;
        }
        IdeRw(r.b);
      }
    }

    /** bwrite: one block write, of what the buffer holds. */
    method BWrite(b: Buf)
      requires Valid() && b in bufs && b.busy && b.valid
      modifies this`disk, this`writes, b`dirty, b`valid, b`data
      ensures Valid() && b.valid && !b.dirty && b.data == old(b.data)
      ensures disk == old(disk)[b.blockno := b.data] && writes == old(writes) + [Write(b.blockno, b.data)]
    {
      hide Ring;
      b.dirty := true;
      IdeRw(b);
    }

    // The holder of a buffer stores new contents in it.
    method Fill(b: Buf, data: Block)
      requires Valid() && b in bufs && b.busy && b.valid
      modifies this`view, b`data
      ensures Valid() && b.data == data && view == old(view)[b.blockno := data]
    {
      hide Ring;
      b.data := data;
      view := view[b.blockno := data];
    }

    // The holder marks the buffer as waiting for the log.
    method MarkDirty(b: Buf)
      requires Valid() && b in bufs && b.busy && b.valid
      modifies b`dirty
      ensures Valid() && b.dirty
    {
      hide Ring;
      b.dirty := true;
      assert forall n :: 0 <= n < |disk| && old(Held(n)) ==> Held(n);
    }

    /** brelse, by a holder that has written or logged what it changed: the buffer becomes the
        most recently used. */
    method BRelse(b: Buf)
      requires Valid() && b in bufs && b.busy && b.valid
      requires b.dirty || b.data == disk[b.blockno]
      modifies this`order, head`prev, head`next, bufs`prev, bufs`next, b`busy
      ensures Valid() && !b.busy
      ensures exists k :: 0 <= k < |old(order)| && old(order)[k] == b && order == [b] + old(order)[..k] + old(order)[k+1..]
    {
      MoveToFront(b);
      LetGo(b);
    }

    // Two buffers at once; while getting them no buffer changes its dirtiness and no dirty
    // buffer its block.
    method ReadTwo(n: nat, m: nat) returns (r: Fetch, q: Fetch)
      requires Valid() && n != m
      modifies this`disk, this`writes, bufs`busy, bufs`valid, bufs`dirty, bufs`dev, bufs`blockno, bufs`data
      ensures disk == old(disk) && writes == old(writes)
      ensures q.Fetched? ==> r.Fetched? && Valid() && r.b != q.b && Ready(r.b, n) && Ready(q.b, m)
      ensures q.Fetched? ==> DirtyBlocks() == old(DirtyBlocks())
      ensures q.Fetched? ==> forall c :: c in bufs && c != r.b && c != q.b ==> c.busy == old(c.busy)
      ensures old(Idle() && Roomy(m)) && n < |disk| && m < |disk| ==> q.Fetched?
    {
      hide Ring;
      if Idle() && Roomy(m) {
        SomeUnpinned({});
      }
      r := BRead(n);
      q := r;
      if r.Fetched? {
        if old(Idle() && Roomy(m)) && m !in DirtyBlocks() {
          SomeUnpinned({r.b});
        }
        q := BRead(m);
      }
    }

    // Enough clean buffers for any block and then for block m.
    ghost predicate Roomy(m: nat)
      reads this`bufs, bufs`dirty, bufs`blockno
    {
      |DirtyBlocks()| < if m in DirtyBlocks() then NBUF else NBUF - 1
    }

    // Dirty blocks and held buffers do not use up the cache.
    lemma SomeUnpinned(held: set<Buf>)
      requires Valid() && (forall b :: b in bufs && b.busy ==> b in held)
      requires |DirtyBlocks()| + |held| < NBUF
      ensures exists b :: b in bufs && !Pinned(b)
    {
      if forall b :: b in bufs ==> Pinned(b) {
        var bs := bufs - held;
        assert bufs <= bs + held;
        SubsetSize(bufs, bs + held);
        BlocksOfSize(bs);
        SubsetSize(BlocksOf(bs), DirtyBlocks());
        assert false;
      }
    }

    // The buffers in use that do not wait for the log.
    ghost function HeldClean(): set<Buf>
      reads this`bufs, bufs`busy, bufs`dirty
    {
      set b | b in bufs && b.busy && !b.dirty
    }

    /** bget finds no buffer to reassign exactly when the blocks that wait for the log and the clean
        buffers in use number NBUF. */
    lemma AllPinnedIff()
      requires Valid()
      ensures (forall b :: b in bufs ==> Pinned(b)) <==> |DirtyBlocks()| + |HeldClean()| == NBUF
    {
      hide Ring;
      var bs := set b | b in bufs && b.dirty;
      BlocksOfSize(bs);
      assert BlocksOf(bs) == DirtyBlocks();
      assert bs + HeldClean() <= bufs && bs !! HeldClean();
      if x :| x in bufs && !Pinned(x) {
        SubsetSize(bs + HeldClean(), bufs - {x});
      } else {
        assert bs + HeldClean() == bufs;
      }
    }

    ghost function BlocksOf(bs: set<Buf>): set<nat>
      reads bs`blockno
    {
      set b | b in bs :: b.blockno
    }

    lemma {:induction false} BlocksOfSize(bs: set<Buf>)
      requires forall b, c :: b in bs && c in bs && b != c ==> b.blockno != c.blockno
      ensures |BlocksOf(bs)| == |bs|
      decreases |bs|
    {
      if bs == {} {
        assert BlocksOf(bs) == {};
      } else {
        var x :| x in bs;
        BlocksOfSize(bs - {x});
        assert BlocksOf(bs) == BlocksOf(bs - {x}) + {x.blockno};
        assert x.blockno !in BlocksOf(bs - {x});
      }
    }

    // What bread returns.
    ghost predicate Ready(b: Buf, n: nat)
      reads this`disk, this`view, this`bufs, b`busy, b`valid, b`dirty, b`dev, b`blockno, b`data
    {
      && b in bufs && b.busy && b.valid && b.dev == DISK && b.blockno == n && n < |disk| && n < |view|
      && b.data == view[n] && (b.dirty || b.data == disk[n])
    }

    // Copy one held buffer to another, write that one to disk, let both go.
    method CopyOver(src: Buf, dst: Buf)
      requires Valid() && src != dst && Ready(src, src.blockno) && Ready(dst, dst.blockno)
      modifies this`view, this`disk, this`writes, this`order, head`prev, head`next, bufs`prev, bufs`next, src`busy, dst`busy, dst`dirty, dst`valid, dst`data
      ensures Valid() && !src.busy && !dst.busy && !dst.dirty
      ensures view == old(view)[dst.blockno := src.data] && disk == old(disk)[dst.blockno := src.data]
      ensures writes == old(writes) + [Write(dst.blockno, src.data)]
      ensures DirtyBlocks() == old(DirtyBlocks()) - {dst.blockno}
    {
      hide Ring;
      WriteThrough(dst, src.data);
      ReleaseTwo(src, dst);
    }

    ghost predicate IdleBut(b: Buf)
      reads this`bufs, bufs`busy
    {
      forall c :: c in bufs && c != b ==> !c.busy
    }

    // bread when nothing else is held: it succeeds as long as some buffer is clean.
    method ReadOne(n: nat) returns (r: Fetch)
      requires Valid() && n < |disk|
      modifies this`disk, this`writes, bufs`busy, bufs`valid, bufs`dirty, bufs`dev, bufs`blockno, bufs`data
      ensures disk == old(disk) && writes == old(writes)
      ensures r.Fetched? ==> Valid() && Ready(r.b, n) && DirtyBlocks() == old(DirtyBlocks())
      ensures r.Fetched? && old(Idle()) ==> IdleBut(r.b)
      ensures old(Idle() && |DirtyBlocks()| < NBUF) ==> r.Fetched?
    {
      hide Ring;
      if Idle() && |DirtyBlocks()| < NBUF {
        SomeUnpinned({});
      }
      r := BRead(n);
    }

    /** The body of write_log's and install_trans's loops: read a log block, read a home block,
        copy one to the other, write it, release both. */
    method CopyBlock(n: nat, m: nat, forward: bool) returns (ok: bool)
      requires Valid() && n != m && n < |disk| && m < |disk|
      modifies this`view, this`disk, this`writes, this`order, head`prev, head`next, bufs
      ensures ok ==> Valid() && (old(Idle()) ==> Idle())
      ensures ok ==> var dst, x := if forward then m else n, old(view)[if forward then n else m];
        && view == old(view)[dst := x] && disk == old(disk)[dst := x]
        && writes == old(writes) + [Write(dst, x)] && DirtyBlocks() == old(DirtyBlocks()) - {dst}
      ensures !ok ==> writes == old(writes)
      ensures old(Idle() && Roomy(m)) ==> ok
    {
      hide Ring, Coherent;
      var r, q := ReadTwo(n, m);
      if !q.Fetched? {
        return false;
      }
      if forward {
        CopyOver(r.b, q.b);
      } else {
        CopyOver(q.b, r.b);
      }
      return true;
    }

    method WriteThrough(b: Buf, data: Block)
      requires Valid() && b in bufs && b.busy && b.valid
      modifies this`view, this`disk, this`writes, b`dirty, b`valid, b`data
      ensures Valid() && b.valid && !b.dirty && b.data == data && b.blockno < |disk|
      ensures view == old(view)[b.blockno := data] && disk == old(disk)[b.blockno := data]
      ensures writes == old(writes) + [Write(b.blockno, data)]
    {
      hide Ring;
      Fill(b, data);
      BWrite(b);
    }

    // Store data in a held buffer, write it to disk, let it go.
    method WriteAndRelease(b: Buf, data: Block)
      requires Valid() && b in bufs && b.busy && b.valid
      modifies this`view, this`disk, this`writes, this`order, head`prev, head`next, bufs`prev, bufs`next, b`busy, b`dirty, b`valid, b`data
      ensures Valid() && !b.busy && !b.dirty && b.blockno < |disk|
      ensures view == old(view)[b.blockno := data] && disk == old(disk)[b.blockno := data]
      ensures writes == old(writes) + [Write(b.blockno, data)]
      ensures DirtyBlocks() == old(DirtyBlocks()) - {b.blockno}
      ensures old(IdleBut(b)) ==> Idle()
    {
      hide Ring;
      WriteThrough(b, data);
      BRelse(b);
    }

    method Release(b: Buf)
      requires Valid() && Ready(b, b.blockno)
      modifies this`order, head`prev, head`next, bufs`prev, bufs`next, b`busy
      ensures Valid() && !b.busy && DirtyBlocks() == old(DirtyBlocks())
      ensures old(IdleBut(b)) ==> Idle()
    {
      BRelse(b);
    }

    method ReleaseTwo(b: Buf, c: Buf)
      requires Valid() && b != c && Ready(b, b.blockno) && Ready(c, c.blockno)
      modifies this`order, head`prev, head`next, bufs`prev, bufs`next, b`busy, c`busy
      ensures Valid() && !b.busy && !c.busy
    {
      BRelse(b);
      BRelse(c);
    }

    method MoveToFront(b: Buf)
      requires Ring(head, order) && b in order
      modifies this`order, head`prev, head`next, order`prev, order`next
      ensures Ring(head, order) && |order| == |old(order)| && forall c :: c in order <==> c in old(order)
      ensures exists k :: 0 <= k < |old(order)| && old(order)[k] == b && order == [b] + old(order)[..k] + old(order)[k+1..]
    {
      ghost var s := order;
      ghost var k :| 0 <= k < |s| && s[k] == b;
      ghost var t := s[..k] + s[k+1..];
      Detach(b, s, k);
      PushFront(b, t);
      order := [b] + t;
      SameBuffers(s, k, order);
    }

    method LetGo(b: Buf)
      requires Coherent() && b in bufs && b.valid && (b.dirty || b.data == disk[b.blockno])
      modifies b`busy
      ensures Coherent() && !b.busy
    {
      b.busy := false;
      assert forall n :: 0 <= n < |disk| && old(Held(n)) && n != b.blockno ==> Held(n);
    }
  }

  lemma SameBuffers(s: seq<Buf>, k: nat, t: seq<Buf>)
    requires k < |s| && t == [s[k]] + (s[..k] + s[k+1..])
    ensures t == [s[k]] + s[..k] + s[k+1..]
    ensures forall c :: c in t <==> c in s
  {
    assert s == s[..k] + [s[k]] + s[k+1..];
  }
}
