/** Files of fs.c: the block allocator, the map from file blocks to disk blocks, and reading,
    writing and truncating inodes. A file is proved to be a byte string. */
module Files {
  import opened Blocks
  import opened Bitmap
  import opened Sets

  const NDIRECT := 12
  const NINDIRECT := 128
  const MAXFILE := 140
  const NADDR := 13
  const SLOTS := 141  // 12 direct entries, the indirect block, its 128 entries

  /** The parts of the super block used here; data blocks are datastart..size-1. */
  datatype Super = Super(size: nat, inodestart: nat, bmapstart: nat, datastart: nat)

  predicate GoodSuper(sb: Super) {
    && 0 < sb.datastart <= sb.size < WORD_LIMIT
    && sb.inodestart <= sb.bmapstart && sb.bmapstart + (sb.size - 1) / BPB < sb.datastart
  }

  function BBlock(sb: Super, b: nat): nat {
    b / BPB + sb.bmapstart
  }

  function IBlock(sb: Super, inum: nat): nat {
    inum / 8 + sb.inodestart
  }

  datatype InodeRecord = Inode(addrs: seq<nat>, size: nat)

  type Inode = i: InodeRecord | |i.addrs| == NADDR witness Inode(seq(NADDR, _ => 0), 0)

  const EMPTY: Inode := Inode(seq(NADDR, _ => 0), 0)

  /** Which pointer of which inode refers to a block. */
  datatype Ref = Ref(inum: nat, slot: nat)

  // Where the pointer in the given slot leads; 0 if it is not set.
  function Addr(blocks: seq<Block>, ip: Inode, slot: nat): nat
    requires slot < SLOTS
  {
    if slot < NADDR then ip.addrs[slot]
    else if 0 < ip.addrs[NDIRECT] < |blocks| then Word(blocks[ip.addrs[NDIRECT]], slot - NADDR)
    else 0
  }

  // The slot of file block bn.
  function Slot(bn: nat): nat {
    if bn < NDIRECT then bn else bn + 1
  }

  predicate Used(sb: Super, blocks: seq<Block>, b: nat)
    requires GoodSuper(sb) && |blocks| == sb.size && b < sb.size
  {
    assert b / BPB <= (sb.size - 1) / BPB;
    Bit(blocks[BBlock(sb, b)], b % BPB)
  }

  ghost predicate GoodRef(sb: Super, blocks: seq<Block>, inodes: seq<Inode>, owner: map<nat, Ref>, a: nat, r: Ref) {
    && sb.datastart <= a < sb.size && a in owner && owner[a] == r
    && r.inum < |inodes| && r.slot < SLOTS && Addr(blocks, inodes[r.inum], r.slot) == a
  }

  /** Every pointer leads to a data block that records it as its only owner, and every owned
      block is pointed to by its owner. */
  ghost predicate Owned(sb: Super, blocks: seq<Block>, inodes: seq<Inode>, owner: map<nat, Ref>) {
    && (forall i, k :: 0 <= i < |inodes| && 0 <= k < SLOTS && Addr(blocks, inodes[i], k) != 0 ==>
          GoodRef(sb, blocks, inodes, owner, Addr(blocks, inodes[i], k), Ref(i, k)))
    && (forall a :: a in owner ==> GoodRef(sb, blocks, inodes, owner, a, owner[a]))
  }

  /** The bitmap marks the metadata blocks, the owned blocks, the blocks in extra, and no other. */
  ghost predicate Marked(sb: Super, blocks: seq<Block>, owner: map<nat, Ref>, extra: set<nat>)
    requires GoodSuper(sb) && |blocks| == sb.size
  {
    forall b :: 0 <= b < sb.size ==> (Used(sb, blocks, b) <==> b < sb.datastart || b in owner || b in extra)
  }

  ghost predicate Sound(sb: Super, blocks: seq<Block>, inodes: seq<Inode>, owner: map<nat, Ref>, extra: set<nat>) {
    && GoodSuper(sb) && |blocks| == sb.size
    && Owned(sb, blocks, inodes, owner) && Marked(sb, blocks, owner, extra)
  }

  // No block is left to allocate.
  ghost predicate Exhausted(sb: Super, blocks: seq<Block>) {
    GoodSuper(sb) && |blocks| == sb.size && forall b :: 0 <= b < sb.size ==> Used(sb, blocks, b)
  }

  // Pointers of data blocks and what those blocks hold stay as they were.
  ghost predicate Keeps(blocks: seq<Block>, inodes: seq<Inode>, blocks': seq<Block>, inodes': seq<Inode>) {
    && |inodes'| == |inodes| && |blocks'| == |blocks|
    && forall i, k :: 0 <= i < |inodes| && 0 <= k < SLOTS && k != NDIRECT && Addr(blocks, inodes[i], k) != 0 ==>
         Addr(blocks', inodes'[i], k) == Addr(blocks, inodes[i], k)
         && (Addr(blocks, inodes[i], k) < |blocks| ==> blocks'[Addr(blocks, inodes[i], k)] == blocks[Addr(blocks, inodes[i], k)])
  }

  // Writing a block that is nobody's indirect block moves no pointer.
  lemma PointersStay(sb: Super, blocks: seq<Block>, inodes: seq<Inode>, owner: map<nat, Ref>, n: nat, x: Block)
    requires |blocks| == sb.size && Owned(sb, blocks, inodes, owner) && n < |blocks|
    requires n in owner ==> owner[n].slot != NDIRECT
    ensures forall i, k :: 0 <= i < |inodes| && 0 <= k < SLOTS ==> Addr(blocks[n := x], inodes[i], k) == Addr(blocks, inodes[i], k)
    ensures Owned(sb, blocks[n := x], inodes, owner)
  {
    var blocks' := blocks[n := x];
    forall i, k | 0 <= i < |inodes| && 0 <= k < SLOTS ensures Addr(blocks', inodes[i], k) == Addr(blocks, inodes[i], k) {
      assert Addr(blocks, inodes[i], NDIRECT) != 0 ==> GoodRef(sb, blocks, inodes, owner, Addr(blocks, inodes[i], NDIRECT), Ref(i, NDIRECT));
    }
    forall a | a in owner ensures GoodRef(sb, blocks', inodes, owner, a, owner[a]) {
      assert GoodRef(sb, blocks, inodes, owner, a, owner[a]);
    }
    forall i, k | 0 <= i < |inodes| && 0 <= k < SLOTS && Addr(blocks', inodes[i], k) != 0
      ensures GoodRef(sb, blocks', inodes, owner, Addr(blocks', inodes[i], k), Ref(i, k)) {
      assert GoodRef(sb, blocks, inodes, owner, Addr(blocks, inodes[i], k), Ref(i, k));
    }
  }

  // Data blocks do not change the bitmap.
  lemma BitsStay(sb: Super, blocks: seq<Block>, owner: map<nat, Ref>, extra: set<nat>, n: nat, x: Block)
    requires GoodSuper(sb) && |blocks| == sb.size && Marked(sb, blocks, owner, extra) && sb.datastart <= n < sb.size
    ensures Marked(sb, blocks[n := x], owner, extra)
  {
    var blocks' := blocks[n := x];
    forall b | 0 <= b < sb.size ensures Used(sb, blocks', b) == Used(sb, blocks, b) {
      assert b / BPB <= (sb.size - 1) / BPB;
    }
  }

  // Setting or clearing the bit of block a.
  function Mark(sb: Super, blocks: seq<Block>, a: nat): seq<Block>
    requires GoodSuper(sb) && |blocks| == sb.size && a < sb.size && !Used(sb, blocks, a)
  {
    assert a / BPB <= (sb.size - 1) / BPB;
    blocks[BBlock(sb, a) := SetBit(blocks[BBlock(sb, a)], a % BPB)]
  }

  function Unmark(sb: Super, blocks: seq<Block>, a: nat): seq<Block>
    requires GoodSuper(sb) && |blocks| == sb.size && a < sb.size && Used(sb, blocks, a)
  {
    assert a / BPB <= (sb.size - 1) / BPB;
    blocks[BBlock(sb, a) := ClearBit(blocks[BBlock(sb, a)], a % BPB)]
  }

  lemma MarkUsed(sb: Super, blocks: seq<Block>, a: nat)
    requires GoodSuper(sb) && |blocks| == sb.size && a < sb.size && !Used(sb, blocks, a)
    ensures forall b :: 0 <= b < sb.size ==> (Used(sb, Mark(sb, blocks, a), b) <==> b == a || Used(sb, blocks, b))
  {
    SetBitBits(blocks[BBlock(sb, a)], a % BPB);
    forall b | 0 <= b < sb.size ensures Used(sb, Mark(sb, blocks, a), b) <==> b == a || Used(sb, blocks, b) {
      assert b / BPB == a / BPB && b % BPB == a % BPB ==> b == a;
    }
  }

  lemma UnmarkUsed(sb: Super, blocks: seq<Block>, a: nat)
    requires GoodSuper(sb) && |blocks| == sb.size && a < sb.size && Used(sb, blocks, a)
    ensures forall b :: 0 <= b < sb.size ==> (Used(sb, Unmark(sb, blocks, a), b) <==> b != a && Used(sb, blocks, b))
  {
    ClearBitBits(blocks[BBlock(sb, a)], a % BPB);
    forall b | 0 <= b < sb.size ensures Used(sb, Unmark(sb, blocks, a), b) <==> b != a && Used(sb, blocks, b) {
      assert b / BPB == a / BPB && b % BPB == a % BPB ==> b == a;
    }
  }

  /** Allocating: a free block becomes marked and zero, owned by nobody yet; nothing that any
      file can reach changes. */
  lemma AllocSound(sb: Super, blocks: seq<Block>, inodes: seq<Inode>, owner: map<nat, Ref>, extra: set<nat>, a: nat)
    requires Sound(sb, blocks, inodes, owner, extra) && a < sb.size && !Used(sb, blocks, a)
    ensures var blocks' := Mark(sb, blocks, a)[a := ZeroBlock()];
      sb.datastart <= a && a !in owner && a !in extra
      && Sound(sb, blocks', inodes, owner, extra + {a}) && Keeps(blocks, inodes, blocks', inodes)
      && forall i, k :: 0 <= i < |inodes| && 0 <= k < SLOTS ==> Addr(blocks', inodes[i], k) == Addr(blocks, inodes[i], k)
  {
    var mid := Mark(sb, blocks, a);
    assert BBlock(sb, a) < sb.datastart by {
      assert a / BPB <= (sb.size - 1) / BPB;
    }
    assert BBlock(sb, a) !in owner by {
      assert BBlock(sb, a) in owner ==> GoodRef(sb, blocks, inodes, owner, BBlock(sb, a), owner[BBlock(sb, a)]);
    }
    MarkUsed(sb, blocks, a);
    PointersStay(sb, blocks, inodes, owner, BBlock(sb, a), mid[BBlock(sb, a)]);
    assert Marked(sb, mid, owner, extra + {a});
    PointersStay(sb, mid, inodes, owner, a, ZeroBlock());
    BitsStay(sb, mid, owner, extra + {a}, a, ZeroBlock());
    var blocks' := mid[a := ZeroBlock()];
    forall i, k | 0 <= i < |inodes| && 0 <= k < SLOTS && Addr(blocks, inodes[i], k) != 0
      ensures blocks'[Addr(blocks, inodes[i], k)] == blocks[Addr(blocks, inodes[i], k)] {
      assert GoodRef(sb, blocks, inodes, owner, Addr(blocks, inodes[i], k), Ref(i, k));
    }
  }

  // A data block may be rewritten.
  lemma WriteSound(sb: Super, blocks: seq<Block>, inodes: seq<Inode>, owner: map<nat, Ref>, extra: set<nat>, a: nat, x: Block)
    requires Sound(sb, blocks, inodes, owner, extra) && a in owner && owner[a].slot != NDIRECT
    ensures a < |blocks| && Sound(sb, blocks[a := x], inodes, owner, extra)
    ensures forall i, k :: 0 <= i < |inodes| && 0 <= k < SLOTS ==> Addr(blocks[a := x], inodes[i], k) == Addr(blocks, inodes[i], k)
  {
    assert GoodRef(sb, blocks, inodes, owner, a, owner[a]);
    PointersStay(sb, blocks, inodes, owner, a, x);
    BitsStay(sb, blocks, owner, extra, a, x);
  }

  function SetAddr(ip: Inode, slot: nat, a: nat): Inode
    requires slot < NADDR
  {
    ip.(addrs := ip.addrs[slot := a])
  }

  // An allocated zero block goes into an unset pointer of the inode itself.
  lemma LinkSound(sb: Super, blocks: seq<Block>, inodes: seq<Inode>, owner: map<nat, Ref>, extra: set<nat>, i: nat, slot: nat, a: nat)
    requires Sound(sb, blocks, inodes, owner, extra) && i < |inodes| && slot < NADDR && inodes[i].addrs[slot] == 0
    requires a in extra && a !in owner && sb.datastart <= a < sb.size && blocks[a] == ZeroBlock()
    ensures var inodes' := inodes[i := SetAddr(inodes[i], slot, a)];
      Sound(sb, blocks, inodes', owner[a := Ref(i, slot)], extra - {a}) && Keeps(blocks, inodes, blocks, inodes')
      && forall j, k :: 0 <= j < |inodes| && 0 <= k < SLOTS ==> Addr(blocks, inodes'[j], k) == if j == i && k == slot then a else Addr(blocks, inodes[j], k)
  {
    var inodes', owner' := inodes[i := SetAddr(inodes[i], slot, a)], owner[a := Ref(i, slot)];
    forall j, k | 0 <= j < |inodes| && 0 <= k < SLOTS
      ensures Addr(blocks, inodes'[j], k) == if j == i && k == slot then a else Addr(blocks, inodes[j], k) {
      if slot == NDIRECT && k >= NADDR {
        ZeroWord(k - NADDR);
      }
    }
    OwnMore(sb, blocks, inodes, blocks, inodes', owner, Ref(i, slot), a);
  }

  // Ownership when exactly one pointer has changed, from unset to a.
  lemma OwnMore(sb: Super, blocks: seq<Block>, inodes: seq<Inode>, blocks': seq<Block>, inodes': seq<Inode>, owner: map<nat, Ref>, r: Ref, a: nat)
    requires Owned(sb, blocks, inodes, owner) && |inodes'| == |inodes| && r.inum < |inodes| && r.slot < SLOTS
    requires a !in owner && sb.datastart <= a < sb.size && 0 < sb.datastart && Addr(blocks, inodes[r.inum], r.slot) == 0
    requires forall j, k :: 0 <= j < |inodes| && 0 <= k < SLOTS ==> Addr(blocks', inodes'[j], k) == if Ref(j, k) == r then a else Addr(blocks, inodes[j], k)
    ensures Owned(sb, blocks', inodes', owner[a := r])
  {
    var owner' := owner[a := r];
    forall b | b in owner' ensures GoodRef(sb, blocks', inodes', owner', b, owner'[b]) {
      if b != a {
        assert GoodRef(sb, blocks, inodes, owner, b, owner[b]);
      }
    }
    forall j, k | 0 <= j < |inodes| && 0 <= k < SLOTS && Addr(blocks', inodes'[j], k) != 0
      ensures GoodRef(sb, blocks', inodes', owner', Addr(blocks', inodes'[j], k), Ref(j, k)) {
      if Ref(j, k) != r {
        assert GoodRef(sb, blocks, inodes, owner, Addr(blocks, inodes[j], k), Ref(j, k));
      }
    }
  }

  // Only the written entry of the indirect block changes an address.
  lemma LinkEntryAddrs(sb: Super, blocks: seq<Block>, inodes: seq<Inode>, owner: map<nat, Ref>, extra: set<nat>, i: nat, e: nat, a: nat)
    requires Sound(sb, blocks, inodes, owner, extra) && i < |inodes| && e < NINDIRECT && inodes[i].addrs[NDIRECT] != 0
    requires sb.datastart <= a < sb.size
    ensures var ind := inodes[i].addrs[NDIRECT];
      ind < |blocks| && var blocks' := blocks[ind := PutWord(blocks[ind], e, a)];
      forall j, k :: 0 <= j < |inodes| && 0 <= k < SLOTS ==> Addr(blocks', inodes[j], k) == if j == i && k == NADDR + e then a else Addr(blocks, inodes[j], k)
  {
    var ind := inodes[i].addrs[NDIRECT];
    assert Addr(blocks, inodes[i], NDIRECT) == ind;
    assert GoodRef(sb, blocks, inodes, owner, ind, Ref(i, NDIRECT));
    var blocks' := blocks[ind := PutWord(blocks[ind], e, a)];
    forall j, k | 0 <= j < |inodes| && 0 <= k < SLOTS
      ensures Addr(blocks', inodes[j], k) == if j == i && k == NADDR + e then a else Addr(blocks, inodes[j], k) {
      if k >= NADDR && inodes[j].addrs[NDIRECT] != 0 {
        assert Addr(blocks, inodes[j], NDIRECT) == inodes[j].addrs[NDIRECT];
        assert GoodRef(sb, blocks, inodes, owner, inodes[j].addrs[NDIRECT], Ref(j, NDIRECT));
        PutWordWord(blocks[ind], e, a, k - NADDR);
      }
    }
  }

  // An allocated block goes into an unset entry of the indirect block.
  lemma LinkEntrySound(sb: Super, blocks: seq<Block>, inodes: seq<Inode>, owner: map<nat, Ref>, extra: set<nat>, i: nat, e: nat, a: nat)
    requires Sound(sb, blocks, inodes, owner, extra) && i < |inodes| && e < NINDIRECT
    requires inodes[i].addrs[NDIRECT] != 0 && Addr(blocks, inodes[i], NADDR + e) == 0
    requires a in extra && a !in owner && sb.datastart <= a < sb.size
    ensures var ind := inodes[i].addrs[NDIRECT];
      ind < |blocks| && ind != a && var blocks' := blocks[ind := PutWord(blocks[ind], e, a)];
      Sound(sb, blocks', inodes, owner[a := Ref(i, NADDR + e)], extra - {a}) && Keeps(blocks, inodes, blocks', inodes)
      && forall j, k :: 0 <= j < |inodes| && 0 <= k < SLOTS ==> Addr(blocks', inodes[j], k) == if j == i && k == NADDR + e then a else Addr(blocks, inodes[j], k)
  {
    var ind := inodes[i].addrs[NDIRECT];
    assert Addr(blocks, inodes[i], NDIRECT) == ind;
    assert GoodRef(sb, blocks, inodes, owner, ind, Ref(i, NDIRECT));
    var blocks' := blocks[ind := PutWord(blocks[ind], e, a)];
    LinkEntryAddrs(sb, blocks, inodes, owner, extra, i, e, a);
    OwnMore(sb, blocks, inodes, blocks', inodes, owner, Ref(i, NADDR + e), a);
    BitsStay(sb, blocks, owner, extra, ind, blocks'[ind]);
    forall j, k | 0 <= j < |inodes| && 0 <= k < SLOTS && k != NDIRECT && Addr(blocks, inodes[j], k) != 0
      ensures Addr(blocks, inodes[j], k) != ind {
      assert GoodRef(sb, blocks, inodes, owner, Addr(blocks, inodes[j], k), Ref(j, k));
    }
  }

  datatype Option<T> = None | Some(value: T)

  const MAXBYTES := MAXFILE * BSIZE
  const LOGSIZE := 30
  const CHUNK := (LOGSIZE - 1 - 1 - 2) / 2 * 512

  function Least(a: nat, b: nat): nat {
    if a > b then b else a
  }

  predicate Mapped(blocks: seq<Block>, ip: Inode, p: nat)
    requires p < MAXBYTES
  {
    Addr(blocks, ip, Slot(p / BSIZE)) != 0
  }

  function ByteAt(blocks: seq<Block>, ip: Inode, p: nat): byte
    requires p < MAXBYTES
  {
    var a := Addr(blocks, ip, Slot(p / BSIZE));
    if a < |blocks| then blocks[a][p % BSIZE] else 0
  }

  /** What a file contains. */
  function Content(blocks: seq<Block>, ip: Inode): seq<byte>
    requires ip.size <= MAXBYTES
  {
    seq(ip.size, p requires 0 <= p < ip.size => ByteAt(blocks, ip, p))
  }

  // Every byte below the size has a block.
  ghost predicate NoHoles(blocks: seq<Block>, ip: Inode) {
    ip.size <= MAXBYTES && forall p :: 0 <= p < ip.size ==> Mapped(blocks, ip, p)
  }

  /** Overwrite from position off, extending if necessary. */
  function Splice(c: seq<byte>, off: nat, src: seq<byte>): seq<byte>
    requires off <= |c|
  {
    if off + |src| < |c| then c[..off] + src + c[off + |src|..] else c[..off] + src
  }

  /** Results of writei: -1, all bytes written, or a panic for want of free blocks. */
  datatype Written = Refused | Done | Panicked

  // File blocks a write of n bytes at off touches.
  function Touched(blocks: seq<Block>, ip: Inode, off: nat, n: nat): set<nat>
    requires off + n <= MAXBYTES
  {
    set bn | off / BSIZE <= bn < MAXFILE && bn * BSIZE < off + n && 0 < n :: Addr(blocks, ip, Slot(bn))
  }

  function Indirect(ip: Inode): set<nat> {
    if ip.addrs[NDIRECT] == 0 then {} else {ip.addrs[NDIRECT]}
  }

  function BitmapBlocks(sb: Super): set<nat> {
    set b | 0 <= b < sb.size :: BBlock(sb, b)
  }

  // memmove(data + o, chunk, |chunk|)
  function Patch(b: Block, o: nat, chunk: seq<byte>): Block
    requires o + |chunk| <= BSIZE
  {
    b[..o] + chunk + b[o + |chunk|..]
  }

  lemma KeepsBytes(b0: seq<Block>, i0: seq<Inode>, b1: seq<Block>, i1: seq<Inode>, j: nat, p: nat)
    requires Keeps(b0, i0, b1, i1) && j < |i0| && p < MAXBYTES && Mapped(b0, i0[j], p)
    ensures Mapped(b1, i1[j], p) && ByteAt(b1, i1[j], p) == ByteAt(b0, i0[j], p)
  {
    assert Slot(p / BSIZE) != NDIRECT;
  }

  /** Changing part of one mapped block changes exactly those bytes of that file. */
  lemma PatchFile(sb: Super, blocks: seq<Block>, inodes: seq<Inode>, owner: map<nat, Ref>, i: nat, off: nat, chunk: seq<byte>)
    requires Sound(sb, blocks, inodes, owner, {}) && i < |inodes| && off < MAXBYTES && off % BSIZE + |chunk| <= BSIZE
    requires Mapped(blocks, inodes[i], off)
    ensures var a := Addr(blocks, inodes[i], Slot(off / BSIZE));
      a < |blocks| && var blocks' := blocks[a := Patch(blocks[a], off % BSIZE, chunk)];
      Sound(sb, blocks', inodes, owner, {})
      && (forall j, k :: 0 <= j < |inodes| && 0 <= k < SLOTS ==> Addr(blocks', inodes[j], k) == Addr(blocks, inodes[j], k))
      && forall j, p :: 0 <= j < |inodes| && 0 <= p < MAXBYTES ==>
           ByteAt(blocks', inodes[j], p) == if j == i && off <= p < off + |chunk| then chunk[p - off] else ByteAt(blocks, inodes[j], p)
  {
    var a := Addr(blocks, inodes[i], Slot(off / BSIZE));
    assert GoodRef(sb, blocks, inodes, owner, a, Ref(i, Slot(off / BSIZE)));
    var blocks' := blocks[a := Patch(blocks[a], off % BSIZE, chunk)];
    WriteSound(sb, blocks, inodes, owner, {}, a, blocks'[a]);
    forall j, p | 0 <= j < |inodes| && 0 <= p < MAXBYTES
      ensures ByteAt(blocks', inodes[j], p) == if j == i && off <= p < off + |chunk| then chunk[p - off] else ByteAt(blocks, inodes[j], p) {
      PatchByte(sb, blocks, inodes, owner, i, off, chunk, j, p);
    }
  }

  lemma PatchByte(sb: Super, blocks: seq<Block>, inodes: seq<Inode>, owner: map<nat, Ref>, i: nat, off: nat, chunk: seq<byte>, j: nat, p: nat)
    requires Sound(sb, blocks, inodes, owner, {}) && i < |inodes| && off < MAXBYTES && off % BSIZE + |chunk| <= BSIZE
    requires Mapped(blocks, inodes[i], off) && j < |inodes| && p < MAXBYTES
    ensures var a := Addr(blocks, inodes[i], Slot(off / BSIZE));
      a < |blocks| && var blocks' := blocks[a := Patch(blocks[a], off % BSIZE, chunk)];
      Addr(blocks', inodes[j], Slot(p / BSIZE)) == Addr(blocks, inodes[j], Slot(p / BSIZE)) ==>
      ByteAt(blocks', inodes[j], p) == if j == i && off <= p < off + |chunk| then chunk[p - off] else ByteAt(blocks, inodes[j], p)
  {
    var a, c := Addr(blocks, inodes[i], Slot(off / BSIZE)), Addr(blocks, inodes[j], Slot(p / BSIZE));
    assert GoodRef(sb, blocks, inodes, owner, a, Ref(i, Slot(off / BSIZE)));
    assert off <= p < off + |chunk| ==> p / BSIZE == off / BSIZE;
    if c == a {
      assert GoodRef(sb, blocks, inodes, owner, c, Ref(j, Slot(p / BSIZE)));
      assert p / BSIZE == off / BSIZE;
      assert off <= p < off + |chunk| <==> off % BSIZE <= p % BSIZE < off % BSIZE + |chunk|;
    }
  }

  /** From one state to the next, src has been written at off in file i and nothing else has
      changed in any file. */
  ghost predicate Wrote(b0: seq<Block>, i0: seq<Inode>, b1: seq<Block>, i1: seq<Inode>, i: nat, off: nat, src: seq<byte>) {
    && |i1| == |i0| && off + |src| <= MAXBYTES && i < |i0|
    && (forall j :: 0 <= j < |i0| ==> i1[j].size == i0[j].size)
    && (forall j, p :: 0 <= j < |i0| && 0 <= p < MAXBYTES && Mapped(b0, i0[j], p) && !(j == i && off <= p < off + |src|) ==>
          Mapped(b1, i1[j], p) && ByteAt(b1, i1[j], p) == ByteAt(b0, i0[j], p))
    && (forall p :: off <= p < off + |src| ==> Mapped(b1, i1[i], p) && ByteAt(b1, i1[i], p) == src[p - off])
  }

  lemma WroteMore(b0: seq<Block>, i0: seq<Inode>, b1: seq<Block>, i1: seq<Inode>, b2: seq<Block>, i2: seq<Inode>, i: nat, off: nat, src: seq<byte>, tot: nat, m: nat)
    requires tot + m <= |src| && Wrote(b0, i0, b1, i1, i, off, src[..tot]) && Wrote(b1, i1, b2, i2, i, off + tot, src[tot..tot+m])
    ensures Wrote(b0, i0, b2, i2, i, off, src[..tot+m])
  {
    hide ByteAt, Mapped;
  }

  function Raise(ip: Inode, n: nat): Inode {
    if n > ip.size then ip.(size := n) else ip
  }

  lemma SameFile(b0: seq<Block>, ip0: Inode, b1: seq<Block>, ip1: Inode)
    requires NoHoles(b0, ip0) && ip1.size == ip0.size
    requires forall p :: 0 <= p < MAXBYTES && Mapped(b0, ip0, p) ==> Mapped(b1, ip1, p) && ByteAt(b1, ip1, p) == ByteAt(b0, ip0, p)
    ensures NoHoles(b1, ip1) && Content(b1, ip1) == Content(b0, ip0)
  {
  }

  lemma SplicedFile(b0: seq<Block>, ip0: Inode, b1: seq<Block>, ip1: Inode, off: nat, src: seq<byte>)
    requires NoHoles(b0, ip0) && off <= ip0.size == ip1.size && off + |src| <= MAXBYTES
    requires forall p :: 0 <= p < MAXBYTES && Mapped(b0, ip0, p) && !(off <= p < off + |src|) ==> Mapped(b1, ip1, p) && ByteAt(b1, ip1, p) == ByteAt(b0, ip0, p)
    requires forall p :: off <= p < off + |src| ==> Mapped(b1, ip1, p) && ByteAt(b1, ip1, p) == src[p - off]
    ensures var ip2 := Raise(ip1, off + |src|); NoHoles(b1, ip2) && Content(b1, ip2) == Splice(Content(b0, ip0), off, src)
  {
    var ip2 := Raise(ip1, off + |src|);
    forall p | 0 <= p < MAXBYTES ensures Mapped(b1, ip2, p) == Mapped(b1, ip1, p) && ByteAt(b1, ip2, p) == ByteAt(b1, ip1, p) {
    }
    assert NoHoles(b1, ip2);
    SpliceAt(Content(b0, ip0), off, src);
    hide Splice, Mapped, ByteAt;
  }

  // The size may be raised over what has been written.
  lemma Grown(sb: Super, b0: seq<Block>, i0: seq<Inode>, b1: seq<Block>, i1: seq<Inode>, owner: map<nat, Ref>, i: nat, off: nat, src: seq<byte>)
    requires Wrote(b0, i0, b1, i1, i, off, src) && off <= i0[i].size && Sound(sb, b1, i1, owner, {})
    requires forall j :: 0 <= j < |i0| ==> NoHoles(b0, i0[j])
    ensures var i2 := i1[i := Raise(i1[i], off + |src|)];
      Sound(sb, b1, i2, owner, {}) && (forall j :: 0 <= j < |i2| ==> NoHoles(b1, i2[j]))
      && Content(b1, i2[i]) == Splice(Content(b0, i0[i]), off, src)
      && (forall j :: 0 <= j < |i2| && j != i ==> Content(b1, i2[j]) == Content(b0, i0[j]))
      && Touched(b1, i2[i], off, |src|) == Touched(b1, i1[i], off, |src|)
  {
    hide Sound, Content, ByteAt, Mapped;
    var i2 := i1[i := Raise(i1[i], off + |src|)];
    ResizeSound(sb, b1, i1, i2, owner);
    SplicedFile(b0, i0[i], b1, i1[i], off, src);
    forall j | 0 <= j < |i2| && j != i ensures NoHoles(b1, i2[j]) && Content(b1, i2[j]) == Content(b0, i0[j]) {
      SameFile(b0, i0[j], b1, i1[j]);
    }
    TouchedRaise(b1, i1[i], off, |src|);
  }

  lemma TouchedRaise(blocks: seq<Block>, ip: Inode, off: nat, n: nat)
    requires off + n <= MAXBYTES
    ensures Touched(blocks, Raise(ip, off + n), off, n) == Touched(blocks, ip, off, n)
  {
    forall k | 0 <= k < SLOTS ensures Addr(blocks, Raise(ip, off + n), k) == Addr(blocks, ip, k) {
    }
  }

  lemma ResizeSound(sb: Super, blocks: seq<Block>, i1: seq<Inode>, i2: seq<Inode>, owner: map<nat, Ref>)
    requires Sound(sb, blocks, i1, owner, {}) && |i2| == |i1| && forall j :: 0 <= j < |i1| ==> i2[j].addrs == i1[j].addrs
    ensures Sound(sb, blocks, i2, owner, {})
  {
    assert forall j, k :: 0 <= j < |i1| && 0 <= k < SLOTS ==> Addr(blocks, i2[j], k) == Addr(blocks, i1[j], k);
    forall a | a in owner ensures GoodRef(sb, blocks, i2, owner, a, owner[a]) {
      assert GoodRef(sb, blocks, i1, owner, a, owner[a]);
    }
    forall j, k | 0 <= j < |i2| && 0 <= k < SLOTS && Addr(blocks, i2[j], k) != 0
      ensures GoodRef(sb, blocks, i2, owner, Addr(blocks, i2[j], k), Ref(j, k)) {
      assert GoodRef(sb, blocks, i1, owner, Addr(blocks, i1[j], k), Ref(j, k));
    }
  }

  // Block numbers already touched stay touched, and one more is added.
  lemma TouchedMore(b0: seq<Block>, ip0: Inode, b1: seq<Block>, ip1: Inode, off: nat, tot: nat, m: nat)
    requires 0 < m <= BSIZE - (off + tot) % BSIZE && off + tot + m <= MAXBYTES
    requires forall k :: 0 <= k < SLOTS && Addr(b0, ip0, k) != 0 ==> Addr(b1, ip1, k) == Addr(b0, ip0, k)
    requires forall p :: off <= p < off + tot ==> Mapped(b0, ip0, p)
    ensures Touched(b0, ip0, off, tot) <= Touched(b1, ip1, off, tot + m)
    ensures Indirect(ip0) <= Indirect(ip1)
    ensures Addr(b1, ip1, Slot((off + tot) / BSIZE)) in Touched(b1, ip1, off, tot + m)
  {
    forall a | a in Touched(b0, ip0, off, tot) ensures a in Touched(b1, ip1, off, tot + m) {
      var bn :| off / BSIZE <= bn < MAXFILE && bn * BSIZE < off + tot && 0 < tot && a == Addr(b0, ip0, Slot(bn));
      var p := if bn == off / BSIZE then off else bn * BSIZE;
      assert off <= p < off + tot && p / BSIZE == bn;
      assert Mapped(b0, ip0, p);
    }
    assert Addr(b0, ip0, NDIRECT) != 0 ==> Addr(b1, ip1, NDIRECT) == Addr(b0, ip0, NDIRECT);
    var at := (off + tot) / BSIZE;
    assert off / BSIZE <= at < MAXFILE && at * BSIZE < off + (tot + m);
  }

  datatype FileOp = Read(off: nat, n: nat) | WriteAt(off: nat, src: seq<byte>)

  datatype Reply = Failed | Bytes(data: seq<byte>) | Count(n: nat)

  // Offsets and lengths are 32-bit.
  predicate Uint(op: FileOp) {
    op.off < WORD_LIMIT && match op case Read(_, n) => n < WORD_LIMIT case WriteAt(_, src) => |src| < WORD_LIMIT
  }

  /** A byte string as a file: what it becomes and what it answers. */
  function Serve(c: seq<byte>, op: FileOp): (seq<byte>, Reply) {
    match op
    case Read(off, n) =>
      if off > |c| || off + n >= WORD_LIMIT then (c, Failed)
      else (c, Bytes(c[off..if off + n > |c| then |c| else off + n]))
    case WriteAt(off, src) =>
      if off > |c| || off + |src| > MAXBYTES then (c, Failed)
      else (Splice(c, off, src), Count(|src|))
  }

  function Play(c: seq<byte>, ops: seq<FileOp>): (seq<byte>, seq<Reply>) {
    if ops == [] then (c, [])
    else
      var (c1, rs) := Play(c, ops[..|ops|-1]);
      var (c2, r) := Serve(c1, ops[|ops|-1]);
      (c2, rs + [r])
  }

  class Volume {
    const sb: Super
    var blocks: seq<Block>    // contents, as bread shows them
    var inodes: seq<Inode>    // in-memory inodes
    var dinodes: seq<Inode>   // their copies on disk
    ghost var owner: map<nat, Ref>
    ghost var logged: set<nat>  // blocks passed to log_write

    constructor (sb: Super, blocks: seq<Block>, inodes: seq<Inode>, ghost owner: map<nat, Ref>)
      requires Sound(sb, blocks, inodes, owner, {}) && forall i :: 0 <= i < |inodes| ==> NoHoles(blocks, inodes[i])
      ensures Valid() && this.sb == sb && this.blocks == blocks && this.inodes == this.dinodes == inodes
    {
      this.sb, this.blocks, this.inodes, this.dinodes := sb, blocks, inodes, inodes;
      this.owner, logged := owner, {};
    }

    ghost predicate Valid()
      reads this
    {
      && Sound(sb, blocks, inodes, owner, {}) && |dinodes| == |inodes|
      && forall i :: 0 <= i < |inodes| ==> NoHoles(blocks, inodes[i])
    }

    /** balloc: the lowest free block, marked and zeroed; None when there is none and the kernel
        panics. */
    method BAlloc() returns (r: Option<nat>)
      requires GoodSuper(sb) && |blocks| == sb.size
      modifies this`blocks, this`logged
      ensures r.None? ==> blocks == old(blocks) && forall b :: 0 <= b < sb.size ==> Used(sb, blocks, b)
      ensures r.Some? ==> r.value < sb.size && !Used(sb, old(blocks), r.value) && forall b :: 0 <= b < r.value ==> Used(sb, old(blocks), b)
      ensures r.Some? ==> blocks == Mark(sb, old(blocks), r.value)[r.value := ZeroBlock()] && logged == old(logged) + {BBlock(sb, r.value), r.value}
    {
      var b := 0;
      while b < sb.size
        invariant b % BPB == 0 && blocks == old(blocks)
        invariant forall c :: 0 <= c < b && c < sb.size ==> Used(sb, blocks, c)
        decreases sb.size - b
      {
        assert b / BPB <= (sb.size - 1) / BPB;
        var bp := blocks[BBlock(sb, b)];
        var bi := 0;
        while bi < BPB && b + bi < sb.size
          invariant 0 <= bi <= BPB && blocks == old(blocks)
          invariant forall c :: 0 <= c < b + bi && c < sb.size ==> Used(sb, blocks, c)
        {
          assert (b + bi) / BPB == b / BPB && (b + bi) % BPB == bi;
          if !Bit(bp, bi) {
            assert !Used(sb, blocks, b + bi);
            blocks := blocks[BBlock(sb, b) := SetBit(bp, bi)];
            assert blocks == Mark(sb, old(blocks), b + bi);
            logged := logged + {BBlock(sb, b)};
            BZero(b + bi);
            return Some(b + bi);
          }
          assert Used(sb, blocks, b + bi);
          bi := bi + 1;
        }
        b := b + BPB;
      }
      return None;
    }

    method BZero(n: nat)
      requires n < |blocks|
      modifies this`blocks, this`logged
      ensures blocks == old(blocks)[n := ZeroBlock()] && logged == old(logged) + {n}
    {
      blocks := blocks[n := ZeroBlock()];
      logged := logged + {n};
    }

    // balloc within a sound volume.
    method Take(ghost extra: set<nat>) returns (r: Option<nat>)
      requires Sound(sb, blocks, inodes, owner, extra)
      modifies this`blocks, this`logged
      ensures r.None? ==> Exhausted(sb, blocks)
      ensures r.Some? ==> Sound(sb, blocks, inodes, owner, extra + {r.value})
      ensures r.Some? ==> sb.datastart <= r.value < sb.size && r.value !in owner && r.value !in extra && blocks[r.value] == ZeroBlock()
      ensures r.Some? ==> Keeps(old(blocks), inodes, blocks, inodes)
      ensures r.Some? ==> forall i, k :: 0 <= i < |inodes| && 0 <= k < SLOTS ==> Addr(blocks, inodes[i], k) == Addr(old(blocks), inodes[i], k)
      ensures r.Some? ==> logged <= old(logged) + BitmapBlocks(sb) + {r.value}
    {
      r := BAlloc();
      if r.Some? {
        AllocSound(sb, old(blocks), inodes, owner, extra, r.value);
      }
    }

    // The pointer in a slot of the inode itself, allocating a block for it if it is unset.
    method OwnPointer(i: nat, slot: nat) returns (r: Option<nat>)
      requires Sound(sb, blocks, inodes, owner, {}) && i < |inodes| && slot < NADDR
      modifies this`blocks, this`inodes, this`owner, this`logged
      ensures r.None? ==> Exhausted(sb, blocks)
      ensures r.Some? ==> Sound(sb, blocks, inodes, owner, {}) && OnlyPointer(old(blocks), old(inodes), blocks, inodes, i, {slot})
      ensures r.Some? ==> r.value != 0 && inodes[i].addrs[slot] == r.value
      ensures old(inodes)[i].addrs[slot] != 0 ==> r.Some? && blocks == old(blocks) && inodes == old(inodes) && owner == old(owner) && logged == old(logged)
      ensures r.Some? ==> logged <= old(logged) + BitmapBlocks(sb) + {r.value}
    {
      var addr := inodes[i].addrs[slot];
      if addr == 0 {
        r := Take({});
        if r.None? {
          return;
        }
        addr := r.value;
        LinkSound(sb, blocks, inodes, owner, {addr}, i, slot, addr);
        assert {addr} - {addr} == {};
        inodes := inodes[i := SetAddr(inodes[i], slot, addr)];
        owner := owner[addr := Ref(i, slot)];
      }
      return Some(addr);
    }

    // The e-th entry of the indirect block, allocating a block for it if it is unset.
    method IndirectPointer(i: nat, e: nat) returns (r: Option<nat>)
      requires Sound(sb, blocks, inodes, owner, {}) && i < |inodes| && e < NINDIRECT && inodes[i].addrs[NDIRECT] != 0
      modifies this`blocks, this`owner, this`logged
      ensures r.None? ==> Exhausted(sb, blocks)
      ensures r.Some? ==> Sound(sb, blocks, inodes, owner, {}) && OnlyPointer(old(blocks), inodes, blocks, inodes, i, {NADDR + e})
      ensures r.Some? ==> r.value != 0 && Addr(blocks, inodes[i], NADDR + e) == r.value
      ensures Addr(old(blocks), inodes[i], NADDR + e) != 0 ==> r.Some? && blocks == old(blocks) && owner == old(owner) && logged == old(logged)
      ensures r.Some? ==> logged <= old(logged) + BitmapBlocks(sb) + {r.value} + Indirect(inodes[i])
    {
      var ind := inodes[i].addrs[NDIRECT];
      IndirectBlock(sb, blocks, inodes, owner, i);
      hide Sound, Keeps;
      var addr := Word(blocks[ind], e);
      assert addr == Addr(blocks, inodes[i], NADDR + e);
      if addr == 0 {
        r := Take({});
        if r.None? {
          return;
        }
        addr := r.value;
        assert Addr(blocks, inodes[i], NADDR + e) == 0;
        ghost var mid := blocks;
        StoreEntry(i, e, addr);
        KeepsTwice(old(blocks), inodes, mid, inodes, blocks, inodes);
      }
      return Some(addr);
    }

    // Store an allocated block in an unset entry of the indirect block.
    method StoreEntry(i: nat, e: nat, a: nat)
      requires Sound(sb, blocks, inodes, owner, {} + {a}) && i < |inodes| && e < NINDIRECT && inodes[i].addrs[NDIRECT] != 0
      requires Addr(blocks, inodes[i], NADDR + e) == 0 && a !in owner && sb.datastart <= a < sb.size
      modifies this`blocks, this`owner, this`logged
      ensures Sound(sb, blocks, inodes, owner, {}) && Keeps(old(blocks), inodes, blocks, inodes)
      ensures forall j, k :: 0 <= j < |inodes| && 0 <= k < SLOTS ==>
                Addr(blocks, inodes[j], k) == if j == i && k == NADDR + e then a else Addr(old(blocks), inodes[j], k)
      ensures logged == old(logged) + {inodes[i].addrs[NDIRECT]}
    {
      hide Sound, Keeps;
      var ind := inodes[i].addrs[NDIRECT];
      LinkEntrySound(sb, blocks, inodes, owner, {} + {a}, i, e, a);
      assert {} + {a} - {a} == {};
      blocks := blocks[ind := PutWord(blocks[ind], e, a)];
      owner := owner[a := Ref(i, NADDR + e)];
      logged := logged + {ind};
    }

    /** bmap: the disk block of file block bn, allocated if there is none yet. No other pointer
        changes but, when it has to be created too, the one to the indirect block; and no data
        block of any file changes. */
    method BMap(i: nat, bn: nat) returns (r: Option<nat>)
      requires Sound(sb, blocks, inodes, owner, {}) && i < |inodes|
      modifies this`blocks, this`inodes, this`owner, this`logged
      ensures bn >= MAXFILE ==> r.None?
      ensures bn < MAXFILE && r.None? ==> Exhausted(sb, blocks)
      ensures r.Some? ==> Sound(sb, blocks, inodes, owner, {}) && OnlyPointer(old(blocks), old(inodes), blocks, inodes, i, {Slot(bn), NDIRECT})
      ensures r.Some? ==> r.value != 0 && Addr(blocks, inodes[i], Slot(bn)) == r.value
      ensures r.Some? && old(inodes)[i].addrs[NDIRECT] != 0 ==> inodes[i].addrs[NDIRECT] == old(inodes)[i].addrs[NDIRECT]
      ensures bn < MAXFILE && Addr(old(blocks), old(inodes)[i], Slot(bn)) != 0 ==> r.Some? && blocks == old(blocks) && inodes == old(inodes) && owner == old(owner) && logged == old(logged)
      ensures r.Some? ==> logged <= old(logged) + BitmapBlocks(sb) + {r.value} + Indirect(inodes[i])
    {
      hide Sound, OnlyPointer;
      ghost var old1, old2 := blocks, inodes;
      if bn < NDIRECT {
        r := OwnPointer(i, bn);
        OnlyPointerMore(old1, old2, blocks, inodes, i, {bn}, {Slot(bn), NDIRECT});
        if r.Some? {
          KeptEntry(old1, old2, blocks, inodes, i, bn, NDIRECT);
        }
      } else if bn - NDIRECT < NINDIRECT {
        r := OwnPointer(i, NDIRECT);
        if r.None? {
          return;
        }
        ghost var mid1, mid2 := blocks, inodes;
        KeptEntry(old1, old2, mid1, mid2, i, NDIRECT, Slot(bn));
        r := IndirectPointer(i, bn - NDIRECT);
        if r.Some? {
          OnlyPointerTwice(old1, old2, mid1, mid2, blocks, inodes, i, {NDIRECT}, {Slot(bn)});
          assert {NDIRECT} + {Slot(bn)} == {Slot(bn), NDIRECT};
        }
      } else {
        r := None;
      }
    }

    // One turn of writei's loop: bytes within one file block.
    method WriteChunk(i: nat, off: nat, chunk: seq<byte>) returns (ok: bool)
      requires Sound(sb, blocks, inodes, owner, {}) && i < |inodes| && off < MAXBYTES && off % BSIZE + |chunk| <= BSIZE
      modifies this`blocks, this`inodes, this`owner, this`logged
      ensures !ok ==> Exhausted(sb, blocks)
      ensures ok ==> Sound(sb, blocks, inodes, owner, {}) && |inodes| == |old(inodes)|
      ensures ok ==> Wrote(old(blocks), old(inodes), blocks, inodes, i, off, chunk)
      ensures ok && Mapped(old(blocks), old(inodes)[i], off) ==> inodes == old(inodes)
      ensures ok ==> forall k :: 0 <= k < SLOTS && Addr(old(blocks), old(inodes)[i], k) != 0 ==> Addr(blocks, inodes[i], k) == Addr(old(blocks), old(inodes)[i], k)
      ensures ok ==> logged <= old(logged) + BitmapBlocks(sb) + {Addr(blocks, inodes[i], Slot(off / BSIZE))} + Indirect(inodes[i])
    {
      hide Sound;
      var r := BMap(i, off / BSIZE);
      if r.None? {
        return false;
      }
      ghost var b0, i0, b1 := old(blocks), old(inodes), blocks;
      PatchFile(sb, blocks, inodes, owner, i, off, chunk);
      blocks := blocks[r.value := Patch(blocks[r.value], off % BSIZE, chunk)];
      logged := logged + {r.value};
      forall j, p | 0 <= j < |inodes| && 0 <= p < MAXBYTES && Mapped(b0, i0[j], p)
        ensures Mapped(blocks, inodes[j], p) && ByteAt(blocks, inodes[j], p) == if j == i && off <= p < off + |chunk| then chunk[p - off] else ByteAt(b0, i0[j], p) {
        KeepsBytes(b0, i0, b1, inodes, j, p);
      }
      forall p | off <= p < off + |chunk| ensures p < MAXBYTES && Mapped(blocks, inodes[i], p) && ByteAt(blocks, inodes[i], p) == chunk[p - off] {
        assert p / BSIZE == off / BSIZE;
      }
      return true;
    }

    // iupdate: the disk copy of the inode becomes the one in memory.
    method IUpdate(i: nat)
      requires i < |inodes| == |dinodes|
      modifies this`dinodes, this`logged
      ensures dinodes == old(dinodes)[i := inodes[i]] && logged == old(logged) + {IBlock(sb, i)}
    {
      dinodes := dinodes[i := inodes[i]];
      logged := logged + {IBlock(sb, i)};
    }

    // writei's loop.
    method WriteBytes(i: nat, src: seq<byte>, off: nat) returns (ok: bool)
      requires Valid() && i < |inodes| && off <= inodes[i].size && off + |src| <= MAXBYTES
      modifies this`blocks, this`inodes, this`owner, this`logged
      ensures !ok ==> Exhausted(sb, blocks)
      ensures ok ==> Sound(sb, blocks, inodes, owner, {}) && |inodes| == |old(inodes)|
      ensures ok ==> Wrote(old(blocks), old(inodes), blocks, inodes, i, off, src) && inodes[i].size == old(inodes)[i].size
      ensures ok && off + |src| <= old(inodes)[i].size ==> inodes == old(inodes)
      ensures ok ==> logged <= old(logged) + BitmapBlocks(sb) + Touched(blocks, inodes[i], off, |src|) + Indirect(inodes[i])
    {
      hide Sound, Touched, ByteAt;
      var tot := 0;
      while tot < |src|
        invariant 0 <= tot <= |src| && Sound(sb, blocks, inodes, owner, {}) && |inodes| == |old(inodes)|
        invariant Wrote(old(blocks), old(inodes), blocks, inodes, i, off, src[..tot])
        invariant off + |src| <= old(inodes)[i].size ==> inodes == old(inodes)
        invariant logged <= old(logged) + BitmapBlocks(sb) + Touched(blocks, inodes[i], off, tot) + Indirect(inodes[i])
      {
        var at := off + tot;
        var m := if |src| - tot < BSIZE - at % BSIZE then |src| - tot else BSIZE - at % BSIZE;
        ghost var b0, i0 := blocks, inodes;
        ok := WriteChunk(i, at, src[tot..tot+m]);
        if !ok {
          return;
        }
        WroteMore(old(blocks), old(inodes), b0, i0, blocks, inodes, i, off, src, tot, m);
        TouchedMore(b0, i0[i], blocks, inodes[i], off, tot, m);
        tot := tot + m;
      }
      return true;
    }

    ghost function File(i: nat): (c: seq<byte>)
      requires Valid() && i < |inodes|
      reads this
      ensures |c| == inodes[i].size <= MAXBYTES
    {
      Content(blocks, inodes[i])
    }

    /** writei on a file: refused when it would start past the end, overflow the 32-bit offset
        or pass the largest file size; otherwise the file is the old byte string overwritten
        from off on, no other file changes, and an inode whose disk copy was current has a
        current one again. */
    method WriteI(i: nat, src: seq<byte>, off: nat) returns (r: Written)
      requires Valid() && i < |inodes| && |src| < WORD_LIMIT && off < WORD_LIMIT
      modifies this`blocks, this`inodes, this`dinodes, this`owner, this`logged
      ensures r.Refused? <==> off > old(inodes)[i].size || off + |src| >= WORD_LIMIT || off + |src| > MAXBYTES
      ensures r.Refused? ==> blocks == old(blocks) && inodes == old(inodes) && dinodes == old(dinodes) && owner == old(owner) && logged == old(logged)
      ensures r.Panicked? ==> Exhausted(sb, blocks)
      ensures r.Done? ==> Valid() && |inodes| == |old(inodes)| && off <= old(inodes)[i].size && off + |src| <= MAXBYTES
      ensures r.Done? ==> File(i) == Splice(old(File(i)), off, src)
      ensures r.Done? ==> forall j :: 0 <= j < |inodes| && j != i ==> File(j) == old(File(j)) && dinodes[j] == old(dinodes)[j]
      ensures r.Done? && old(dinodes[i] == inodes[i]) ==> dinodes[i] == inodes[i]
      ensures r.Done? ==> logged <= old(logged) + BitmapBlocks(sb) + Touched(blocks, inodes[i], off, |src|) + Indirect(inodes[i]) + {IBlock(sb, i)}
    {
      hide Sound, NoHoles, Touched, Content, Wrote;
      var n := |src|;
      if off > inodes[i].size || off + n >= WORD_LIMIT {
        return Refused;
      }
      if off + n > MAXFILE * BSIZE {
        return Refused;
      }
      var ok := WriteBytes(i, src, off);
      if !ok {
        return Panicked;
      }
      Grown(sb, old(blocks), old(inodes), blocks, inodes, owner, i, off, src);
      ghost var i2 := inodes[i := Raise(inodes[i], off + n)];
      if n > 0 && off + n > inodes[i].size {
        inodes := inodes[i := inodes[i].(size := off + n)];
        IUpdate(i);
      }
      assert inodes == i2;
      return Done;
    }

    /** readi on a file: refused when it would start past the end or overflow the 32-bit offset;
        otherwise the bytes of the file from off on, as many as there are, and nothing is
        allocated. */
    method ReadI(i: nat, off: nat, n: nat) returns (r: Option<seq<byte>>)
      requires Valid() && i < |inodes| && n < WORD_LIMIT && off < WORD_LIMIT
      modifies this`blocks, this`inodes, this`owner, this`logged
      ensures Valid() && blocks == old(blocks) && inodes == old(inodes) && owner == old(owner) && logged == old(logged)
      ensures r.None? <==> off > inodes[i].size || off + n >= WORD_LIMIT
      ensures r.Some? ==> r.value == File(i)[off..if off + n > inodes[i].size then inodes[i].size else off + n]
    {
      hide Sound;
      if off > inodes[i].size || off + n >= WORD_LIMIT {
        return None;
      }
      var n' := if off + n > inodes[i].size then inodes[i].size - off else n;
      var dst: seq<byte>, tot := [], 0;
      while tot < n'
        invariant 0 <= tot <= n' && |dst| == tot
        invariant Valid() && blocks == old(blocks) && inodes == old(inodes) && owner == old(owner) && logged == old(logged)
        invariant forall q :: 0 <= q < tot ==> dst[q] == ByteAt(blocks, inodes[i], off + q)
      {
        var at := off + tot;
        assert Mapped(blocks, inodes[i], at);
        var a := BMap(i, at / BSIZE);
        var m := if n' - tot < BSIZE - at % BSIZE then n' - tot else BSIZE - at % BSIZE;
        InRange(sb, blocks, inodes, owner, i, Slot(at / BSIZE));
        ghost var dst0 := dst;
        dst := dst + blocks[a.value][at % BSIZE..at % BSIZE + m];
        forall q | tot <= q < tot + m ensures dst[q] == ByteAt(blocks, inodes[i], off + q) {
          assert (off + q) / BSIZE == at / BSIZE && (off + q) % BSIZE == at % BSIZE + (q - tot);
        }
        tot := tot + m;
      }
      return Some(dst);
    }

    /** bfree: unmark a block; a panic if it was not marked. */
    method BFree(b: nat) returns (ok: bool)
      requires GoodSuper(sb) && |blocks| == sb.size && b < sb.size
      modifies this`blocks, this`logged
      ensures ok <==> Used(sb, old(blocks), b)
      ensures ok ==> blocks == Unmark(sb, old(blocks), b) && logged == old(logged) + {BBlock(sb, b)}
    {
      assert b / BPB <= (sb.size - 1) / BPB;
      var bp, bi := blocks[BBlock(sb, b)], b % BPB;
      if !Bit(bp, bi) {
        return false;
      }
      blocks := blocks[BBlock(sb, b) := ClearBit(bp, bi)];
      logged := logged + {BBlock(sb, b)};
      return true;
    }

    // Free the block of an owned pointer; the pointer itself stays. freed: already freed so.
    method FreeOwned(a: nat, ghost freed: set<nat>)
      requires Freeing(sb, blocks, inodes, owner, freed) && a in owner && a !in freed
      modifies this`blocks, this`logged
      ensures Freeing(sb, blocks, inodes, owner, freed + {a}) && |blocks| == |old(blocks)|
      ensures forall n :: sb.datastart <= n < |blocks| ==> blocks[n] == old(blocks)[n]
      ensures logged <= old(logged) + BitmapBlocks(sb)
    {
      FreeingSound(sb, blocks, inodes, owner, freed, a);
      var ok := BFree(a);
      assert ok;
    }

    // One turn of itrunc's first loop.
    method DropDirect(i: nat, k: nat)
      requires Sound(sb, blocks, inodes, owner, {}) && i < |inodes| && k < NDIRECT
      modifies this`blocks, this`inodes, this`owner, this`logged
      ensures Sound(sb, blocks, inodes, owner, {}) && |blocks| == |old(blocks)|
      ensures inodes == old(inodes)[i := SetAddr(old(inodes)[i], k, 0)]
      ensures forall n :: sb.datastart <= n < |blocks| ==> blocks[n] == old(blocks)[n]
      ensures owner == Without(old(owner), i, k, k + 1)
      ensures logged <= old(logged) + BitmapBlocks(sb)
    {
      hide Sound, Freeing;
      var a := inodes[i].addrs[k];
      if a != 0 {
        NothingFreed(sb, blocks, inodes, owner, i, k);
        FreeOwned(a, {});
        assert {} + {a} == {a};
        DropPointer(sb, blocks, inodes, owner, i, k);
        inodes := inodes[i := SetAddr(inodes[i], k, 0)];
        owner := owner - {a};
      } else {
        NoOwner(sb, blocks, inodes, owner, i, k);
        assert SetAddr(inodes[i], k, 0).addrs == inodes[i].addrs;
      }
    }

    // itrunc's first loop.
    method TruncDirect(i: nat)
      requires Sound(sb, blocks, inodes, owner, {}) && i < |inodes|
      modifies this`blocks, this`inodes, this`owner, this`logged
      ensures Sound(sb, blocks, inodes, owner, {}) && |blocks| == |old(blocks)|
      ensures inodes == old(inodes)[i := ZeroFirst(old(inodes)[i], NDIRECT)]
      ensures forall n :: sb.datastart <= n < |blocks| ==> blocks[n] == old(blocks)[n]
      ensures owner == Without(old(owner), i, 0, NDIRECT)
      ensures logged <= old(logged) + BitmapBlocks(sb)
    {
      hide Sound;
      assert ZeroFirst(inodes[i], 0).addrs == inodes[i].addrs;
      for k := 0 to NDIRECT
        invariant Sound(sb, blocks, inodes, owner, {}) && |blocks| == |old(blocks)|
        invariant inodes == old(inodes)[i := ZeroFirst(old(inodes)[i], k)]
        invariant forall n :: sb.datastart <= n < |blocks| ==> blocks[n] == old(blocks)[n]
        invariant owner == Without(old(owner), i, 0, k)
        invariant logged <= old(logged) + BitmapBlocks(sb)
      {
        DropDirect(i, k);
        assert SetAddr(ZeroFirst(old(inodes)[i], k), k, 0).addrs == ZeroFirst(old(inodes)[i], k + 1).addrs;
      }
    }

    // itrunc's second loop and the freeing of the indirect block.
    method TruncIndirect(i: nat)
      requires Sound(sb, blocks, inodes, owner, {}) && i < |inodes| && inodes[i].addrs[NDIRECT] != 0
      modifies this`blocks, this`inodes, this`owner, this`logged
      ensures Sound(sb, blocks, inodes, owner, {}) && |blocks| == |old(blocks)|
      ensures inodes == old(inodes)[i := SetAddr(old(inodes)[i], NDIRECT, 0)]
      ensures forall n :: sb.datastart <= n < |blocks| ==> blocks[n] == old(blocks)[n]
      ensures owner == Without(old(owner), i, NDIRECT, SLOTS)
      ensures logged <= old(logged) + BitmapBlocks(sb)
    {
      hide Sound, Freeing;
      var ind := inodes[i].addrs[NDIRECT];
      IndirectBlock(sb, blocks, inodes, owner, i);
      NothingFreed(sb, blocks, inodes, owner, i, NDIRECT);
      var a := blocks[ind];
      ghost var freed: set<nat> := {};
      for j := 0 to NINDIRECT
        invariant Freeing(sb, blocks, inodes, owner, freed) && |blocks| == |old(blocks)| && inodes == old(inodes) && owner == old(owner)
        invariant forall n :: sb.datastart <= n < |blocks| ==> blocks[n] == old(blocks)[n]
        invariant freed == Gone(owner, i, NADDR, NADDR + j)
        invariant logged <= old(logged) + BitmapBlocks(sb)
      {
        assert Word(a, j) == Addr(blocks, inodes[i], NADDR + j);
        GoneMore(sb, blocks, inodes, owner, freed, i, NADDR + j);
        assert Gone(owner, i, NADDR, NADDR + j + 1) == Gone(owner, i, NADDR, NADDR + j) + Gone(owner, i, NADDR + j, NADDR + j + 1);
        if Word(a, j) != 0 {
          FreeOwned(Word(a, j), freed);
          freed := freed + {Word(a, j)};
        }
      }
      GoneMore(sb, blocks, inodes, owner, freed, i, NDIRECT);
      FreeOwned(ind, freed);
      freed := freed + {ind};
      DropIndirect(sb, blocks, inodes, owner, freed, i);
      inodes := inodes[i := SetAddr(inodes[i], NDIRECT, 0)];
      owner := owner - freed;
    }

    /** itrunc: exactly the blocks the file owned become free, none of them twice; the inode is
        empty, on disk too, and no other file changes. */
    method ITrunc(i: nat)
      requires Valid() && i < |inodes|
      modifies this`blocks, this`inodes, this`dinodes, this`owner, this`logged
      ensures Valid() && inodes == old(inodes)[i := EMPTY] && dinodes == old(dinodes)[i := EMPTY] && File(i) == []
      ensures owner == Without(old(owner), i, 0, SLOTS)
      ensures forall b :: 0 <= b < sb.size ==> (Used(sb, blocks, b) <==> Used(sb, old(blocks), b) && !(b in old(owner) && old(owner)[b].inum == i))
      ensures forall j :: 0 <= j < |inodes| && j != i ==> File(j) == old(File(j))
      ensures logged <= old(logged) + BitmapBlocks(sb) + {IBlock(sb, i)}
    {
      hide Sound, NoHoles;
      ghost var b0, i0, owner0 := blocks, inodes, owner;
      TruncDirect(i);
      if inodes[i].addrs[NDIRECT] != 0 {
        TruncIndirect(i);
      } else {
        NoIndirectOwner(sb, blocks, inodes, owner, i);
      }
      ghost var i1 := inodes;
      inodes := inodes[i := inodes[i].(size := 0)];
      assert inodes[i] == EMPTY;
      ResizeSound(sb, blocks, i1, inodes, owner);
      IUpdate(i);
      assert owner == Without(owner0, i, 0, SLOTS) by {
        hide *;
        WithoutTwice(owner0, i);
      }
      TruncatedFiles(sb, b0, i0, owner0, blocks, inodes, owner, i);
    }

    /** filewrite on an inode: the data goes in by transactions of at most CHUNK bytes. What has
        been written when it stops is a prefix of src, placed at off; it stops early only at a
        chunk that writei refuses. On a volume with one bitmap block every transaction logs at
        most 17 blocks, which fit the 29 of the log area. */
    method FileWrite(i: nat, src: seq<byte>, off: nat) returns (r: Written, end: nat, ghost txs: seq<set<nat>>)
      requires Valid() && i < |inodes| && |src| < WORD_LIMIT && off < WORD_LIMIT
      modifies this`blocks, this`inodes, this`dinodes, this`owner, this`logged
      ensures r.Panicked? ==> Exhausted(sb, blocks)
      ensures !r.Panicked? ==> Valid() && |inodes| == |old(inodes)| && off <= end <= off + |src|
      ensures off > old(inodes)[i].size && src != [] ==> r.Refused? && end == off && blocks == old(blocks) && inodes == old(inodes)
      ensures off <= old(inodes)[i].size && !r.Panicked? ==> File(i) == Splice(old(File(i)), off, src[..end - off])
      ensures !r.Panicked? ==> forall j :: 0 <= j < |inodes| && j != i ==> File(j) == old(File(j))
      ensures r.Done? <==> !r.Panicked? && end == off + |src|
      ensures off <= old(inodes)[i].size && r.Refused? ==> end + Least(CHUNK, off + |src| - end) > MAXBYTES
      ensures sb.size <= BPB ==> forall t :: 0 <= t < |txs| ==> |txs[t]| <= 17
    {
      hide Sound, NoHoles, Touched, Content, Splice, Exhausted;
      var k := 0;
      end, txs := off, [];
      ghost var inside := off <= inodes[i].size;
      if inside {
        SpliceNone(File(i), off);
      }
      while k < |src|
        invariant 0 <= k <= |src| && end == off + k && Valid() && |inodes| == |old(inodes)|
        invariant inside ==> end <= inodes[i].size
        invariant inside ==> File(i) == Splice(old(File(i)), off, src[..k])
        invariant !inside ==> k == 0 && blocks == old(blocks) && inodes == old(inodes)
        invariant forall j :: 0 <= j < |inodes| && j != i ==> File(j) == old(File(j))
        invariant sb.size <= BPB ==> forall t :: 0 <= t < |txs| ==> |txs[t]| <= 17
      {
        var n1 := Least(CHUNK, |src| - k);
        logged := {};
        ghost var f0 := File(i);
        r := WriteI(i, src[k..k + n1], end);
        if !r.Done? {
          return;
        }
        if sb.size <= BPB {
          TransactionFits(sb, blocks, inodes[i], end, n1, logged, i);
        }
        txs := txs + [logged];
        SpliceTwice(old(File(i)), off, src, k, n1);
        end, k := end + n1, k + n1;
      }
      assert src[..k] == src;
      return Done, end, txs;
    }

    /** Any sequence of reads and writes of one file that meets no panic: every answer and the
        final contents are those of a byte string, and no other file changes. */
    method Session(i: nat, ops: seq<FileOp>) returns (ok: bool, replies: seq<Reply>)
      requires Valid() && i < |inodes| && forall k :: 0 <= k < |ops| ==> Uint(ops[k])
      modifies this`blocks, this`inodes, this`dinodes, this`owner, this`logged
      ensures ok ==> Valid() && |inodes| == |old(inodes)| && (File(i), replies) == Play(old(File(i)), ops)
      ensures ok ==> forall j :: 0 <= j < |inodes| && j != i ==> File(j) == old(File(j))
      ensures !ok ==> Exhausted(sb, blocks)
    {
      hide Sound, NoHoles, Content, Splice;
      replies := [];
      ghost var c0 := File(i);
      assert ops[..0] == [];
      for k := 0 to |ops|
        invariant Valid() && |inodes| == |old(inodes)| && (File(i), replies) == Play(c0, ops[..k])
        invariant forall j :: 0 <= j < |inodes| && j != i ==> File(j) == old(File(j))
      {
        assert ops[..k + 1][..k] == ops[..k];
        ghost var c := File(i);
        match ops[k]
        case Read(off, n) =>
          var r := ReadI(i, off, n);
          replies := replies + [if r.None? then Failed else Bytes(r.value)];
        case WriteAt(off, src) =>
          var w := WriteI(i, src, off);
          if w.Panicked? {
            return false, replies;
          }
          replies := replies + [if w.Refused? then Failed else Count(|src|)];
      }
      assert ops[..|ops|] == ops;
      return true, replies;
    }
  }

  /** Of all pointers only those of inode i in the given slots may have been set, and the data
      blocks that were reachable are as before. */
  ghost predicate OnlyPointer(blocks: seq<Block>, inodes: seq<Inode>, blocks': seq<Block>, inodes': seq<Inode>, i: nat, slots: set<nat>) {
    && Keeps(blocks, inodes, blocks', inodes')
    && (forall j, k {:trigger Addr(blocks', inodes'[j], k)} {:trigger Addr(blocks, inodes[j], k)} :: 0 <= j < |inodes| && 0 <= k < SLOTS && !(j == i && k in slots) ==> Addr(blocks', inodes'[j], k) == Addr(blocks, inodes[j], k))
    && (forall j :: 0 <= j < |inodes| ==> inodes'[j].size == inodes[j].size)
  }

  lemma InRange(sb: Super, blocks: seq<Block>, inodes: seq<Inode>, owner: map<nat, Ref>, i: nat, k: nat)
    requires Sound(sb, blocks, inodes, owner, {}) && i < |inodes| && k < SLOTS && Addr(blocks, inodes[i], k) != 0
    ensures Addr(blocks, inodes[i], k) < |blocks|
  {
    assert GoodRef(sb, blocks, inodes, owner, Addr(blocks, inodes[i], k), Ref(i, k));
  }

  /** While a file is truncated: pointers and owners as before, but the blocks in freed are
      already unmarked. */
  ghost predicate Freeing(sb: Super, blocks: seq<Block>, inodes: seq<Inode>, owner: map<nat, Ref>, freed: set<nat>) {
    && GoodSuper(sb) && |blocks| == sb.size && Owned(sb, blocks, inodes, owner)
    && Marked(sb, blocks, owner - freed, {})
  }

  lemma NothingFreed(sb: Super, blocks: seq<Block>, inodes: seq<Inode>, owner: map<nat, Ref>, i: nat, k: nat)
    requires Sound(sb, blocks, inodes, owner, {}) && i < |inodes| && k < SLOTS && Addr(blocks, inodes[i], k) != 0
    ensures Freeing(sb, blocks, inodes, owner, {})
    ensures Addr(blocks, inodes[i], k) in owner
  {
    assert owner - {} == owner;
    assert GoodRef(sb, blocks, inodes, owner, Addr(blocks, inodes[i], k), Ref(i, k));
  }

  lemma FreeingSound(sb: Super, blocks: seq<Block>, inodes: seq<Inode>, owner: map<nat, Ref>, freed: set<nat>, a: nat)
    requires Freeing(sb, blocks, inodes, owner, freed) && a in owner && a !in freed
    ensures a < sb.size && Used(sb, blocks, a) && Freeing(sb, Unmark(sb, blocks, a), inodes, owner, freed + {a})
    ensures forall n :: sb.datastart <= n < |blocks| ==> Unmark(sb, blocks, a)[n] == blocks[n]
  {
    assert GoodRef(sb, blocks, inodes, owner, a, owner[a]);
    assert a in owner - freed;
    var n := BBlock(sb, a);
    assert n < sb.datastart by {
      assert a / BPB <= (sb.size - 1) / BPB;
    }
    assert n !in owner by {
      assert n in owner ==> GoodRef(sb, blocks, inodes, owner, n, owner[n]);
    }
    UnmarkUsed(sb, blocks, a);
    PointersStay(sb, blocks, inodes, owner, n, Unmark(sb, blocks, a)[n]);
  }

  // Once its block is free a direct pointer is cleared.
  lemma DropPointer(sb: Super, blocks: seq<Block>, inodes: seq<Inode>, owner: map<nat, Ref>, i: nat, k: nat)
    requires i < |inodes| && k < NDIRECT && inodes[i].addrs[k] != 0
    requires Freeing(sb, blocks, inodes, owner, {inodes[i].addrs[k]})
    ensures Sound(sb, blocks, inodes[i := SetAddr(inodes[i], k, 0)], owner - {inodes[i].addrs[k]}, {})
    ensures inodes[i].addrs[k] in owner && owner[inodes[i].addrs[k]] == Ref(i, k)
    ensures forall b :: b in owner && owner[b] == Ref(i, k) ==> b == inodes[i].addrs[k]
  {
    var a, inodes' := inodes[i].addrs[k], inodes[i := SetAddr(inodes[i], k, 0)];
    assert GoodRef(sb, blocks, inodes, owner, Addr(blocks, inodes[i], k), Ref(i, k));
    forall b | b in owner && owner[b] == Ref(i, k) ensures b == a {
      assert GoodRef(sb, blocks, inodes, owner, b, owner[b]);
    }
    assert forall j, m :: 0 <= j < |inodes| && 0 <= m < SLOTS ==> Addr(blocks, inodes'[j], m) == if j == i && m == k then 0 else Addr(blocks, inodes[j], m);
    OwnFewer(sb, blocks, inodes, inodes', owner, {a});
  }

  // Ownership when the pointers to some blocks, and no others, have been cleared.
  lemma OwnFewer(sb: Super, blocks: seq<Block>, inodes: seq<Inode>, inodes': seq<Inode>, owner: map<nat, Ref>, gone: set<nat>)
    requires Owned(sb, blocks, inodes, owner) && |inodes'| == |inodes|
    requires forall j, m :: 0 <= j < |inodes| && 0 <= m < SLOTS ==>
      Addr(blocks, inodes'[j], m) == if Addr(blocks, inodes[j], m) in gone then 0 else Addr(blocks, inodes[j], m)
    ensures Owned(sb, blocks, inodes', owner - gone)
  {
    forall b | b in owner - gone ensures GoodRef(sb, blocks, inodes', owner - gone, b, owner[b]) {
      assert GoodRef(sb, blocks, inodes, owner, b, owner[b]);
    }
    forall j, m | 0 <= j < |inodes| && 0 <= m < SLOTS && Addr(blocks, inodes'[j], m) != 0
      ensures GoodRef(sb, blocks, inodes', owner - gone, Addr(blocks, inodes'[j], m), Ref(j, m)) {
      assert GoodRef(sb, blocks, inodes, owner, Addr(blocks, inodes[j], m), Ref(j, m));
    }
  }

  // owner less the pointers of inode i in slots lo..hi-1
  ghost function Without(owner: map<nat, Ref>, i: nat, lo: nat, hi: nat): map<nat, Ref> {
    map a | a in owner && !(owner[a].inum == i && lo <= owner[a].slot < hi) :: owner[a]
  }

  ghost function Gone(owner: map<nat, Ref>, i: nat, lo: nat, hi: nat): set<nat> {
    set a | a in owner && owner[a].inum == i && lo <= owner[a].slot < hi
  }

  function ZeroFirst(ip: Inode, k: nat): Inode
    requires k <= NADDR
  {
    ip.(addrs := seq(NADDR, m requires 0 <= m < NADDR => if m < k then 0 else ip.addrs[m]))
  }

  lemma NoOwner(sb: Super, blocks: seq<Block>, inodes: seq<Inode>, owner: map<nat, Ref>, i: nat, k: nat)
    requires Sound(sb, blocks, inodes, owner, {}) && i < |inodes| && k < SLOTS && Addr(blocks, inodes[i], k) == 0
    ensures forall b :: b in owner ==> owner[b] != Ref(i, k)
  {
    forall b | b in owner ensures owner[b] != Ref(i, k) {
      assert GoodRef(sb, blocks, inodes, owner, b, owner[b]);
    }
  }

  lemma GoneMore(sb: Super, blocks: seq<Block>, inodes: seq<Inode>, owner: map<nat, Ref>, freed: set<nat>, i: nat, k: nat)
    requires Freeing(sb, blocks, inodes, owner, freed) && i < |inodes| && k < SLOTS
    ensures var a := Addr(blocks, inodes[i], k);
      if a == 0 then Gone(owner, i, k, k + 1) == {} else a in owner && owner[a] == Ref(i, k) && Gone(owner, i, k, k + 1) == {a}
  {
    var a := Addr(blocks, inodes[i], k);
    assert a != 0 ==> GoodRef(sb, blocks, inodes, owner, a, Ref(i, k));
    forall b | b in owner && owner[b] == Ref(i, k) ensures b == a && a != 0 {
      assert GoodRef(sb, blocks, inodes, owner, b, owner[b]);
    }
    assert forall b :: b in Gone(owner, i, k, k + 1) <==> b in owner && owner[b] == Ref(i, k);
  }

  lemma NoIndirectOwner(sb: Super, blocks: seq<Block>, inodes: seq<Inode>, owner: map<nat, Ref>, i: nat)
    requires Sound(sb, blocks, inodes, owner, {}) && i < |inodes| && inodes[i].addrs[NDIRECT] == 0
    ensures owner == Without(owner, i, NDIRECT, SLOTS)
  {
    forall b | b in owner && owner[b].inum == i ensures owner[b].slot < NDIRECT {
      assert GoodRef(sb, blocks, inodes, owner, b, owner[b]);
    }
  }

  lemma WithoutTwice(owner: map<nat, Ref>, i: nat)
    ensures Without(Without(owner, i, 0, NDIRECT), i, NDIRECT, SLOTS) == Without(owner, i, 0, SLOTS)
  {
  }

  lemma TruncatedFiles(sb: Super, b0: seq<Block>, i0: seq<Inode>, owner0: map<nat, Ref>, b1: seq<Block>, i1: seq<Inode>, owner1: map<nat, Ref>, i: nat)
    requires Sound(sb, b0, i0, owner0, {}) && Sound(sb, b1, i1, owner1, {}) && i < |i0| && i1 == i0[i := EMPTY] && owner1 == Without(owner0, i, 0, SLOTS)
    requires forall n :: sb.datastart <= n < |b1| ==> b1[n] == b0[n]
    requires forall j :: 0 <= j < |i0| ==> NoHoles(b0, i0[j])
    ensures forall j :: 0 <= j < |i1| ==> NoHoles(b1, i1[j])
    ensures forall b :: 0 <= b < sb.size ==> (Used(sb, b1, b) <==> Used(sb, b0, b) && !(b in owner0 && owner0[b].inum == i))
    ensures forall j :: 0 <= j < |i1| && j != i ==> NoHoles(b0, i0[j]) && NoHoles(b1, i1[j]) && Content(b1, i1[j]) == Content(b0, i0[j])
  {
    forall j | 0 <= j < |i1| && j != i ensures NoHoles(b1, i1[j]) && Content(b1, i1[j]) == Content(b0, i0[j]) {
      forall k | 0 <= k < SLOTS && Addr(b0, i0[j], k) != 0
        ensures Addr(b1, i1[j], k) == Addr(b0, i0[j], k) && b1[Addr(b0, i0[j], k)] == b0[Addr(b0, i0[j], k)] {
        assert GoodRef(sb, b0, i0, owner0, Addr(b0, i0[j], k), Ref(j, k));
        if k >= NADDR {
          assert GoodRef(sb, b0, i0, owner0, Addr(b0, i0[j], NDIRECT), Ref(j, NDIRECT));
        }
      }
      SameFile(b0, i0[j], b1, i1[j]);
    }
    forall b | 0 <= b < sb.size ensures Used(sb, b1, b) <==> Used(sb, b0, b) && !(b in owner0 && owner0[b].inum == i) {
      assert b in owner0 ==> GoodRef(sb, b0, i0, owner0, b, owner0[b]);
    }
  }

  lemma DropIndirect(sb: Super, blocks: seq<Block>, inodes: seq<Inode>, owner: map<nat, Ref>, freed: set<nat>, i: nat)
    requires i < |inodes| && freed == Gone(owner, i, NDIRECT, SLOTS) && Freeing(sb, blocks, inodes, owner, freed)
    ensures Sound(sb, blocks, inodes[i := SetAddr(inodes[i], NDIRECT, 0)], owner - freed, {})
  {
    var inodes' := inodes[i := SetAddr(inodes[i], NDIRECT, 0)];
    forall j, m | 0 <= j < |inodes| && 0 <= m < SLOTS
      ensures Addr(blocks, inodes'[j], m) == if Addr(blocks, inodes[j], m) in freed then 0 else Addr(blocks, inodes[j], m) {
      assert Addr(blocks, inodes[j], m) != 0 ==> GoodRef(sb, blocks, inodes, owner, Addr(blocks, inodes[j], m), Ref(j, m));
    }
    OwnFewer(sb, blocks, inodes, inodes', owner, freed);
  }

  lemma SpliceNone(c: seq<byte>, off: nat)
    requires off <= |c|
    ensures Splice(c, off, []) == c
  {
  }

  lemma SpliceTwice(c: seq<byte>, off: nat, src: seq<byte>, k: nat, m: nat)
    requires off <= |c| && k + m <= |src|
    ensures off + k <= |Splice(c, off, src[..k])|
    ensures Splice(Splice(c, off, src[..k]), off + k, src[k..k+m]) == Splice(c, off, src[..k+m])
    ensures off + k + m <= |Splice(c, off, src[..k+m])|
  {
    hide Splice;
    var a, b, whole := src[..k], src[k..k+m], src[..k+m];
    SpliceAt(c, off, a);
    var once := Splice(c, off, a);
    SpliceAt(once, off + k, b);
    SpliceAt(c, off, whole);
    assert forall i :: 0 <= i < |Splice(c, off, whole)| ==> Splice(once, off + k, b)[i] == Splice(c, off, whole)[i];
  }

  lemma SpliceAt(c: seq<byte>, off: nat, src: seq<byte>)
    requires off <= |c|
    ensures var r := Splice(c, off, src); |r| == (if off + |src| < |c| then |c| else off + |src|)
    ensures var r := Splice(c, off, src); forall i :: 0 <= i < |r| ==> r[i] == if off <= i < off + |src| then src[i - off] else c[i]
  {
  }

  lemma {:induction false} ImageSize(blocks: seq<Block>, ip: Inode, lo: nat, hi: nat)
    requires lo <= hi <= MAXFILE
    ensures |RangeAddrs(blocks, ip, lo, hi)| <= hi - lo
  {
    if lo == hi {
      assert RangeAddrs(blocks, ip, lo, hi) == {};
    } else {
      ImageSize(blocks, ip, lo, hi - 1);
      assert RangeAddrs(blocks, ip, lo, hi) == RangeAddrs(blocks, ip, lo, hi - 1) + {Addr(blocks, ip, Slot(hi - 1))};
    }
  }

  function RangeAddrs(blocks: seq<Block>, ip: Inode, lo: nat, hi: nat): set<nat>
    requires hi <= MAXFILE
  {
    set bn | lo <= bn < hi :: Addr(blocks, ip, Slot(bn))
  }

  /** A write of at most CHUNK bytes, at any offset, logs at most 14 data blocks, the indirect
      block, the inode's block and the one bitmap block. */
  lemma TransactionFits(sb: Super, blocks: seq<Block>, ip: Inode, off: nat, n: nat, logged: set<nat>, i: nat)
    requires sb.size <= BPB && n <= CHUNK && off + n <= MAXBYTES
    requires logged <= BitmapBlocks(sb) + Touched(blocks, ip, off, n) + Indirect(ip) + {IBlock(sb, i)}
    ensures |logged| <= 17
  {
    var lo, hi := off / BSIZE, (off + n + BSIZE - 1) / BSIZE;
    if n == 0 {
      assert Touched(blocks, ip, off, n) == {};
    } else {
      assert lo <= hi <= MAXFILE && hi - lo <= 14;
      ImageSize(blocks, ip, lo, hi);
      forall a | a in Touched(blocks, ip, off, n) ensures a in RangeAddrs(blocks, ip, lo, hi) {
        var bn :| off / BSIZE <= bn < MAXFILE && bn * BSIZE < off + n && 0 < n && a == Addr(blocks, ip, Slot(bn));
        assert lo <= bn < hi;
      }
      SubsetSize(Touched(blocks, ip, off, n), RangeAddrs(blocks, ip, lo, hi));
    }
    assert BitmapBlocks(sb) <= {sb.bmapstart};
    SubsetSize(BitmapBlocks(sb), {sb.bmapstart});
    var all := BitmapBlocks(sb) + Touched(blocks, ip, off, n) + Indirect(ip) + {IBlock(sb, i)};
    SubsetSize(logged, all);
    assert |all| <= |BitmapBlocks(sb) + Touched(blocks, ip, off, n) + Indirect(ip)| + 1;
  }

  lemma IndirectBlock(sb: Super, blocks: seq<Block>, inodes: seq<Inode>, owner: map<nat, Ref>, i: nat)
    requires Sound(sb, blocks, inodes, owner, {}) && i < |inodes| && inodes[i].addrs[NDIRECT] != 0
    ensures sb.datastart <= inodes[i].addrs[NDIRECT] < |blocks| == sb.size && GoodSuper(sb)
  {
    assert GoodRef(sb, blocks, inodes, owner, Addr(blocks, inodes[i], NDIRECT), Ref(i, NDIRECT));
  }

  lemma KeepsTwice(b0: seq<Block>, i0: seq<Inode>, b1: seq<Block>, i1: seq<Inode>, b2: seq<Block>, i2: seq<Inode>)
    requires Keeps(b0, i0, b1, i1) && Keeps(b1, i1, b2, i2)
    ensures Keeps(b0, i0, b2, i2)
  {
  }

  lemma OnlyPointerTwice(b0: seq<Block>, i0: seq<Inode>, b1: seq<Block>, i1: seq<Inode>, b2: seq<Block>, i2: seq<Inode>, i: nat, s: set<nat>, t: set<nat>)
    requires OnlyPointer(b0, i0, b1, i1, i, s) && OnlyPointer(b1, i1, b2, i2, i, t)
    ensures OnlyPointer(b0, i0, b2, i2, i, s + t)
  {
    KeepsTwice(b0, i0, b1, i1, b2, i2);
  }

  lemma OnlyPointerMore(b0: seq<Block>, i0: seq<Inode>, b1: seq<Block>, i1: seq<Inode>, i: nat, s: set<nat>, t: set<nat>)
    requires s <= t
    ensures OnlyPointer(b0, i0, b1, i1, i, s) ==> OnlyPointer(b0, i0, b1, i1, i, t)
  {
  }

  lemma KeptEntry(b0: seq<Block>, i0: seq<Inode>, b1: seq<Block>, i1: seq<Inode>, i: nat, s: nat, k: nat)
    requires OnlyPointer(b0, i0, b1, i1, i, {s}) && i < |i0| && s < SLOTS && k < SLOTS && k != s
    ensures |i1| == |i0| && Addr(b1, i1[i], k) == Addr(b0, i0[i], k)
  {
  }

  /** A volume whose bitmap marks the metadata blocks, without files. */
  lemma FormattedIsSound(sb: Super, blocks: seq<Block>, inodes: seq<Inode>)
    requires GoodSuper(sb) && |blocks| == sb.size && forall b :: 0 <= b < sb.size ==> (Used(sb, blocks, b) <==> b < sb.datastart)
    requires forall i :: 0 <= i < |inodes| ==> inodes[i] == EMPTY
    ensures Sound(sb, blocks, inodes, map[], {}) && forall i :: 0 <= i < |inodes| ==> NoHoles(blocks, inodes[i]) && Content(blocks, inodes[i]) == []
  {
    forall i, k | 0 <= i < |inodes| && 0 <= k < SLOTS ensures Addr(blocks, inodes[i], k) == 0 {
    }
  }

  /** mkfs, before it adds files, on a disk with one bitmap block. */
  method Mkfs(sb: Super, n: nat) returns (v: Volume)
    requires GoodSuper(sb) && sb.size <= BPB
    ensures fresh(v) && v.Valid() && v.sb == sb && |v.inodes| == n && forall i :: 0 <= i < n ==> v.File(i) == []
  {
    var bitmap := MarkFirst(sb.datastart);
    var blocks: seq<Block> := seq(sb.size, _ => ZeroBlock());
    blocks := blocks[sb.bmapstart := bitmap];
    var inodes: seq<Inode> := seq(n, _ => EMPTY);
    FormattedIsSound(sb, blocks, inodes);
    v := new Volume(sb, blocks, inodes, map[]);
  }
}
