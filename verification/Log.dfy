/** The in-memory side of log.c: which blocks the running transaction has logged, and the
    code that moves them to disk through the buffer cache. */
module Log {
  import opened Blocks
  import opened Journal
  import opened Sets
  import opened BufferCache

  /** log_write's bookkeeping: a block already listed is not listed again. */
  function Absorb(lh: seq<nat>, b: nat): seq<nat> {
    if b in lh then lh else lh + [b]
  }

  ghost function Listed(lh: seq<nat>): set<nat> {
    set b | b in lh
  }

  /** begin_op's admission test, for n listed blocks and the given number of active operations. */
  predicate Admits(n: nat, outstanding: nat) {
    n + (outstanding + 1) * MAXOPBLOCKS <= LOGSIZE
  }

  ghost predicate NoRepeat(s: seq<nat>) {
    forall i, j :: 0 <= i < j < |s| ==> s[i] != s[j]
  }

  // Enough clean buffers to install every listed block: all of them are still in the cache
  // and leave one clean, or nothing is dirty.
  ghost predicate Installable(dirty: set<nat>, lh: seq<nat>) {
    (dirty == Listed(lh) && NoRepeat(lh) && |lh| < NBUF) || dirty == {}
  }

  method ReadEntries(b: Block) returns (h: seq<nat>)
    requires HeadCount(b) < WORDS
    ensures h == HeadBlocks(b)
  {
    h := [];
    for i := 0 to Word(b, 0)
      invariant |h| == i && forall t :: 0 <= t < i ==> h[t] == Word(b, 1 + t)
    {
      h := h + [Word(b, 1 + i)];
    }
  }

  class RedoLog {
    const cache: Cache
    const l: Layout
    var lh: seq<nat>
    var outstanding: nat
    var committing: bool

    // The blocks with dirty buffers are exactly the listed ones.
    ghost predicate Valid()
      reads this, cache, cache.head, cache.bufs, cache.order
    {
      && cache.Valid() && Fits(l, cache.disk) && |cache.view| == |cache.disk|
      && GoodEntries(l, cache.disk, lh) && NoRepeat(lh)
      && cache.DirtyBlocks() == Listed(lh)
    }

    constructor (cache: Cache, l: Layout)
      requires cache.Valid() && Fits(l, cache.disk) && cache.DirtyBlocks() == {}
      ensures this.cache == cache && this.l == l && Valid() && lh == [] && outstanding == 0 && !committing
    {
      this.cache, this.l := cache, l;
      lh, outstanding, committing := [], 0, false;
    }

    /** log_write, for a held buffer whose block is outside the log area. */
    method LogWrite(b: Buf) returns (ok: bool)
      requires Valid() && b in cache.bufs && b.busy && b.valid && IsHome(l, cache.disk, b.blockno)
      modifies this`lh, b`dirty
      ensures ok <==> old(|lh| < LOGSIZE && |lh| < l.size - 1 && outstanding >= 1)
      ensures ok ==> Valid() && lh == Absorb(old(lh), b.blockno) && b.dirty
      ensures !ok ==> lh == old(lh) && b.dirty == old(b.dirty)
    {
      hide Ring;
      if |lh| >= LOGSIZE || |lh| >= l.size - 1 {
        return false;
      }
      if outstanding < 1 {
        return false;
      }
      var i := 0;
      while i < |lh|
        invariant 0 <= i <= |lh| && forall j :: 0 <= j < i ==> lh[j] != b.blockno
      {
        if lh[i] == b.blockno {
          break;
        }
        i := i + 1;
      }
      lh := if i == |lh| then lh + [b.blockno] else lh[i := b.blockno];
      cache.MarkDirty(b);
      assert lh == Absorb(old(lh), b.blockno);
      assert cache.DirtyBlocks() == old(cache.DirtyBlocks()) + {b.blockno};
      return true;
    }

    /** In a transaction, bget finds no buffer for another block exactly when the listed blocks and the
        clean buffers in use number NBUF: with NBUF - 1 blocks listed, one more buffer in use is enough. */
    lemma BuffersRunOutIff()
      requires Valid()
      ensures (forall b :: b in cache.bufs ==> cache.Pinned(b)) <==> |lh| + |cache.HeldClean()| == NBUF
    {
      hide Ring, Cache.Coherent;
      cache.AllPinnedIff();
      ListedSize(lh);
    }

    method LogEntry(t: nat) returns (ok: bool)
      requires Valid() && t < |lh|
      modifies cache, cache.head, cache.bufs
      ensures ok ==> Valid() && cache.bufs == old(cache.bufs) && (old(cache.Idle()) ==> cache.Idle())
      ensures ok ==> var w := Write(l.start + 1 + t, old(cache.view)[lh[t]]);
        cache.writes == old(cache.writes) + [w] && cache.disk == old(cache.disk)[w.at := w.data] && cache.view == old(cache.view)[w.at := w.data]
      ensures !ok ==> (!old(cache.Idle()) || |lh| >= NBUF) && cache.writes == old(cache.writes)
    {
      hide Ring, Cache.Coherent;
      EntriesBounded(lh);
      ok := cache.CopyBlock(l.start + t + 1, lh[t], false);
    }

    /** write_log: the k-th listed block's current contents go to the k-th log block. Stopped
        early, it has done the first of those writes and no other; when nobody else holds a
        buffer and the listed blocks leave one clean, it is not stopped. */
    method WriteLog() returns (ok: bool)
      requires Valid()
      modifies cache, cache.head, cache.bufs
      ensures var cs := LogCopies(l, old(cache.view), lh);
        if ok then
          && Valid() && cache.bufs == old(cache.bufs) && (old(cache.Idle()) ==> cache.Idle())
          && cache.writes == old(cache.writes) + cs
          && cache.disk == Apply(old(cache.disk), cs) && cache.view == Apply(old(cache.view), cs)
        else
          (!old(cache.Idle()) || |lh| >= NBUF) && Began(old(cache.writes), cs, cache.writes)
    {
      hide Ring, Cache.Coherent;
      ghost var cs := LogCopies(l, cache.view, lh);
      ghost var view0, disk0, writes0, bufs0 := cache.view, cache.disk, cache.writes, cache.bufs;
      var tail := 0;
      while tail < |lh|
        invariant 0 <= tail <= |lh| && Valid() && cache.bufs == bufs0
        invariant cache.writes == writes0 + cs[..tail]
        invariant cache.disk == Apply(disk0, cs[..tail])
        invariant cache.view == Apply(view0, cs[..tail])
        invariant old(cache.Idle()) ==> cache.Idle()
      {
        AtUntouched(cs[..tail], lh[tail], view0[lh[tail]]);
        ok := LogEntry(tail);
        if !ok {
          return;
        }
        NextWrite(disk0, writes0, cs, tail);
        NextWrite(view0, writes0, cs, tail);
        tail := tail + 1;
      }
      assert cs[..|lh|] == cs;
      return true;
    }

    /** write_head: one write of the header block, which then lists lh. */
    method WriteHead() returns (ok: bool)
      requires cache.Valid() && Fits(l, cache.disk) && GoodEntries(l, cache.disk, lh) && |cache.view| == |cache.disk|
      modifies cache, cache.head, cache.bufs
      ensures ok ==> cache.Valid() && cache.bufs == old(cache.bufs) && |cache.view| == |cache.disk| && (old(cache.Idle()) ==> cache.Idle())
      ensures ok ==> var w := SetHead(l, old(cache.view), lh);
        && cache.writes == old(cache.writes) + [w] && cache.disk == old(cache.disk)[l.start := w.data]
        && cache.view == old(cache.view)[l.start := w.data] && cache.DirtyBlocks() == old(cache.DirtyBlocks()) - {l.start}
      ensures !ok ==> cache.writes == old(cache.writes) && !old(cache.Idle() && |cache.DirtyBlocks()| < NBUF)
    {
      hide Ring, Cache.Coherent, Cache.DirtyBlocks, Cache.Idle, Cache.IdleBut;
      var r := cache.ReadOne(l.start);
      if !r.Fetched? {
        return false;
      }
      var data := PutWord(r.b.data, 0, |lh|);
      for i := 0 to |lh|
        invariant data == PutEntries(r.b.data, lh, i)
      {
        data := PutWord(data, 1 + i, lh[i]);
      }
      cache.WriteAndRelease(r.b, data);
      return true;
    }

    /** read_head: lh becomes what the header block lists. */
    method ReadHead() returns (ok: bool)
      requires cache.Valid() && Fits(l, cache.disk) && |cache.view| == |cache.disk| && GoodHead(l, cache.view)
      modifies this`lh, cache, cache.head, cache.bufs
      ensures ok ==> cache.Valid() && cache.bufs == old(cache.bufs) && (old(cache.Idle()) ==> cache.Idle())
      ensures ok ==> cache.view == old(cache.view) && cache.disk == old(cache.disk) && lh == HeadBlocks(old(cache.view)[l.start])
      ensures ok ==> cache.DirtyBlocks() == old(cache.DirtyBlocks())
      ensures cache.writes == old(cache.writes)
      ensures !ok ==> !old(cache.Idle() && |cache.DirtyBlocks()| < NBUF)
    {
      hide Ring, Cache.Coherent, Cache.DirtyBlocks, Cache.Idle, Cache.IdleBut;
      var r := cache.ReadOne(l.start);
      if !r.Fetched? {
        return false;
      }
      lh := ReadEntries(r.b.data);
      cache.Release(r.b);
      return true;
    }

    method InstallEntry(t: nat, ghost dirty: set<nat>) returns (ok: bool)
      requires cache.Valid() && Fits(l, cache.disk) && GoodEntries(l, cache.disk, lh) && |cache.view| == |cache.disk|
      requires t < |lh| && cache.DirtyBlocks() == dirty - Listed(lh[..t])
      modifies cache, cache.head, cache.bufs
      ensures ok ==> cache.Valid() && cache.bufs == old(cache.bufs) && |cache.view| == |cache.disk| && (old(cache.Idle()) ==> cache.Idle())
      ensures ok ==> var w := Write(lh[t], old(cache.view)[l.start + 1 + t]);
        cache.writes == old(cache.writes) + [w] && cache.disk == old(cache.disk)[w.at := w.data] && cache.view == old(cache.view)[w.at := w.data]
      ensures ok ==> cache.DirtyBlocks() == dirty - Listed(lh[..t+1])
      ensures !ok ==> !(old(cache.Idle()) && Installable(dirty, lh)) && cache.writes == old(cache.writes)
    {
      hide Ring, Cache.Coherent, Cache.DirtyBlocks, Cache.Idle;
      if Installable(dirty, lh) {
        RoomToInstall(dirty, lh, t);
      }
      ok := cache.CopyBlock(l.start + t + 1, lh[t], true);
      assert Listed(lh[..t+1]) == Listed(lh[..t]) + {lh[t]};
    }

    /** install_trans: each log block goes to the home block the header lists for it, and
        those blocks are no longer pinned. */
    method InstallTrans() returns (ok: bool)
      requires cache.Valid() && Fits(l, cache.disk) && GoodEntries(l, cache.disk, lh) && |cache.view| == |cache.disk|
      modifies cache, cache.head, cache.bufs
      ensures var ws := FromLog(l, old(cache.view), lh);
        if ok then
          && cache.Valid() && cache.bufs == old(cache.bufs) && |cache.view| == |cache.disk| && (old(cache.Idle()) ==> cache.Idle())
          && cache.writes == old(cache.writes) + ws && cache.DirtyBlocks() == old(cache.DirtyBlocks()) - Listed(lh)
          && cache.disk == Apply(old(cache.disk), ws) && cache.view == Apply(old(cache.view), ws)
        else
          !(old(cache.Idle()) && Installable(old(cache.DirtyBlocks()), lh)) && Began(old(cache.writes), ws, cache.writes)
    {
      hide Ring, Cache.Coherent, Cache.DirtyBlocks, Cache.Idle;
      ghost var ws := FromLog(l, cache.view, lh);
      ghost var view0, disk0, writes0, bufs0, dirty0 := cache.view, cache.disk, cache.writes, cache.bufs, cache.DirtyBlocks();
      var tail := 0;
      while tail < |lh|
        invariant 0 <= tail <= |lh| && cache.Valid() && cache.bufs == bufs0 && |cache.view| == |cache.disk| == |disk0|
        invariant cache.writes == writes0 + ws[..tail]
        invariant cache.disk == Apply(disk0, ws[..tail])
        invariant cache.view == Apply(view0, ws[..tail])
        invariant cache.DirtyBlocks() == dirty0 - Listed(lh[..tail])
        invariant old(cache.Idle()) ==> cache.Idle()
      {
        AtUntouched(ws[..tail], l.start + tail + 1, view0[l.start + tail + 1]);
        ok := InstallEntry(tail, dirty0);
        if !ok {
          return;
        }
        NextWrite(disk0, writes0, ws, tail);
        NextWrite(view0, writes0, ws, tail);
        tail := tail + 1;
      }
      assert ws[..|lh|] == ws && lh[..|lh|] == lh;
      return true;
    }

    /** recover_from_log, on the cache of a machine that has just started: the writes are
        RecoveryWrites, so a crash among them is covered by CrashInRecovery, and when nobody
        else holds a buffer it finishes. */
    method RecoverFromLog() returns (ok: bool)
      requires cache.Valid() && cache.view == cache.disk && GoodHead(l, cache.disk) && cache.DirtyBlocks() == {}
      modifies this`lh, cache, cache.head, cache.bufs
      ensures ok ==> Valid() && lh == [] && cache.view == cache.disk == Recover(l, old(cache.disk))
      ensures ok ==> cache.writes == old(cache.writes) + RecoveryWrites(l, old(cache.disk))
      ensures !ok ==> !old(cache.Idle()) && Began(old(cache.writes), RecoveryWrites(l, old(cache.disk)), cache.writes)
    {
      hide Ring, Cache.Coherent, Cache.DirtyBlocks, Cache.Idle, EncodeHead, At;
      ghost var d, ws0, rs := cache.disk, cache.writes, RecoveryWrites(l, cache.disk);
      ghost var ws, c := Replays(l, d), ClearHead(l, d[l.start]);
      assert Began(ws0, rs, ws0) by {
        assert ws0 == ws0 + rs[..0];
      }
      ok := ReadHead();
      if !ok {
        return;
      }
      ok := InstallTrans();
      BeganPrefix(ws0, ws, [c], cache.writes);
      if !ok {
        return;
      }
      lh := [];
      AtUntouched(ws, l.start, d[l.start]);
      assert SetHead(l, cache.view, lh) == c;
      ok := WriteHead();
      ApplySnoc(d, ws, c);
    }

    /** commit: the writes are CommitWrites of the contents readers see, so a crash among them
        is covered by CrashInCommit; when it finishes the home blocks on disk are what
        readers see, the header is empty and nothing is pinned. With nobody else holding a
        buffer and fewer than NBUF blocks listed it finishes. */
    method Commit() returns (ok: bool)
      requires Valid() && Quiet()
      modifies this`lh, cache, cache.head, cache.bufs
      ensures ok ==> Valid() && Quiet() && lh == [] && SameHome(l, cache.view, old(cache.view)) && SameHome(l, cache.disk, Apply(old(cache.disk), Installs(l, old(cache.view), old(lh))))
      ensures ok ==> cache.writes == old(cache.writes) + CommitWrites(l, old(cache.view), old(lh))
      ensures !ok ==> old(!cache.Idle() || |lh| >= NBUF) && Began(old(cache.writes), CommitWrites(l, old(cache.view), old(lh)), cache.writes)
    {
      hide Ring, Cache.Coherent, Cache.DirtyBlocks, Cache.Idle, EncodeHead, At, Committed;
      ghost var v, d, h := cache.view, cache.disk, lh;
      if |lh| > 0 {
        ok := CommitListed();
        if !ok {
          return;
        }
        CommitFinished(l, d, v, h);
        CommitFinished(l, v, v, h);
      }
      InstallOwn(l, v, h);
      InstallNothing(d);
      return true;
    }

    method CommitListed() returns (ok: bool)
      requires Valid() && lh != []
      modifies this`lh, cache, cache.head, cache.bufs
      ensures ok ==> Valid() && lh == []
      ensures ok ==> cache.writes == old(cache.writes) + CommitWrites(l, old(cache.view), old(lh))
      ensures ok ==> cache.view == Apply(old(cache.view), CommitWrites(l, old(cache.view), old(lh)))
      ensures ok ==> cache.disk == Apply(old(cache.disk), CommitWrites(l, old(cache.view), old(lh)))
      ensures !ok ==> old(!cache.Idle() || |lh| >= NBUF) && Began(old(cache.writes), CommitWrites(l, old(cache.view), old(lh)), cache.writes)
    {
      hide Ring, Cache.Coherent, Cache.DirtyBlocks, Cache.Idle, EncodeHead, At;
      ghost var v, d, ws, h := cache.view, cache.disk, cache.writes, lh;
      ok := WriteLogAndHead();
      CommitParts(l, v, h, ws, cache.writes);
      if !ok {
        return;
      }
      CommittedLog(l, v, v, h, 0);
      ghost var ps, ins := LogCopies(l, v, h) + [SetHead(l, v, h)], Installs(l, v, h);
      assert ps + ins[..0] == ps;
      assert FromLog(l, cache.view, h) == ins;
      ok := InstallAndClear(ins, EncodeHead(v[l.start], h));
      CommitParts(l, v, h, ws, cache.writes);
      ApplyConcat(v, ps, ins + [ClearHead(l, EncodeHead(v[l.start], h))]);
      ApplyConcat(d, ps, ins + [ClearHead(l, EncodeHead(v[l.start], h))]);
      assert CommitWrites(l, v, h) == ps + (ins + [ClearHead(l, EncodeHead(v[l.start], h))]);
    }

    // The second half of commit: install what the log holds and clear the header.
    method InstallAndClear(ghost ins: seq<Write>, ghost b: Block) returns (ok: bool)
      requires cache.Valid() && Fits(l, cache.disk) && GoodEntries(l, cache.disk, lh) && |cache.view| == |cache.disk| && NoRepeat(lh)
      requires cache.DirtyBlocks() == Listed(lh) && ins == FromLog(l, cache.view, lh) && cache.view[l.start] == b
      modifies this`lh, cache, cache.head, cache.bufs
      ensures ok ==> Valid() && lh == []
      ensures ok ==> cache.writes == old(cache.writes) + (ins + [ClearHead(l, b)])
      ensures ok ==> cache.view == Apply(old(cache.view), ins + [ClearHead(l, b)]) && cache.disk == Apply(old(cache.disk), ins + [ClearHead(l, b)])
      ensures !ok ==> old(!cache.Idle() || |lh| >= NBUF) && Began(old(cache.writes), ins, cache.writes)
    {
      hide Ring, Cache.Coherent, Cache.DirtyBlocks, Cache.Idle, EncodeHead, At;
      ok := InstallTrans();
      BeganPrefix(old(cache.writes), ins, [], cache.writes);
      if !ok {
        return;
      }
      lh := [];
      AtUntouched(ins, l.start, b);
      assert SetHead(l, cache.view, lh) == ClearHead(l, b);
      ok := WriteHead();
      ApplySnoc(old(cache.view), ins, ClearHead(l, b));
      ApplySnoc(old(cache.disk), ins, ClearHead(l, b));
    }

    /** begin_op, up to the point where it either sleeps or has joined the transaction. */
    method BeginOp() returns (admitted: bool)
      modifies this`outstanding
      ensures admitted <==> !committing && Admits(|lh|, old(outstanding))
      ensures outstanding == old(outstanding) + if admitted then 1 else 0
    {
      if committing {
        return false;
      } else if |lh| + (outstanding + 1) * MAXOPBLOCKS > LOGSIZE {
        return false;
      }
      outstanding := outstanding + 1;
      return true;
    }

    /** end_op: the last operation to leave commits; afterwards, if it was the last, the log is
        empty and the disk's home blocks are what readers see. */
    method EndOp() returns (ok: bool)
      requires Valid() && Quiet() && outstanding >= 1
      modifies this`lh, this`outstanding, this`committing, cache, cache.head, cache.bufs
      ensures ok ==> Valid() && Quiet() && !committing && outstanding == old(outstanding) - 1 && SameHome(l, cache.view, old(cache.view))
      ensures ok && outstanding > 0 ==> lh == old(lh) && cache.writes == old(cache.writes)
      ensures ok && outstanding == 0 ==> lh == [] && cache.writes == old(cache.writes) + CommitWrites(l, old(cache.view), old(lh))
      ensures !ok ==> old(committing) || Began(old(cache.writes), CommitWrites(l, old(cache.view), old(lh)), cache.writes)
    {
      hide Ring, Cache.Coherent, Cache.DirtyBlocks, Cache.Idle;
      outstanding := outstanding - 1;
      if committing {
        return false;
      }
      if outstanding == 0 {
        committing := true;
        ok := Commit();
        if ok {
          committing := false;
        }
        return;
      }
      return true;
    }

    // Nothing is being committed: the header on disk is empty and readers see it so.
    ghost predicate Quiet()
      reads this, cache
    {
      GoodHead(l, cache.disk) && HeadCount(cache.disk[l.start]) == 0 && |cache.view| == |cache.disk| && cache.view[l.start] == cache.disk[l.start]
    }

    // The first half of commit, up to and including the write that commits.
    method WriteLogAndHead() returns (ok: bool)
      requires Valid()
      modifies cache, cache.head, cache.bufs
      ensures ok ==> cache.Valid() && cache.bufs == old(cache.bufs) && |cache.view| == |cache.disk| && (old(cache.Idle()) ==> cache.Idle())
      ensures ok ==> cache.DirtyBlocks() == Listed(lh)
      ensures ok ==> cache.writes == old(cache.writes) + (LogCopies(l, old(cache.view), lh) + [SetHead(l, old(cache.view), lh)])
      ensures ok ==> cache.view == Committed(l, old(cache.view), old(cache.view), lh, 0) && cache.disk == Committed(l, old(cache.disk), old(cache.view), lh, 0)
      ensures !ok ==> old(!cache.Idle() || |lh| >= NBUF) && Began(old(cache.writes), LogCopies(l, old(cache.view), lh), cache.writes)
    {
      hide Ring, Cache.Coherent, Cache.DirtyBlocks, Cache.Idle, EncodeHead, At;
      ghost var v, d := cache.view, cache.disk;
      ghost var cs, h := LogCopies(l, v, lh), SetHead(l, v, lh);
      ok := WriteLog();
      BeganPrefix(old(cache.writes), cs, [], cache.writes);
      if !ok {
        return;
      }
      AtUntouched(cs, l.start, v[l.start]);
      EntriesBounded(lh);
      ok := WriteHead();
      ApplySnoc(v, cs, h);
      ApplySnoc(d, cs, h);
      assert cs + [h] + Installs(l, v, lh)[..0] == cs + [h];
    }
  }

  lemma {:induction false} EntriesBounded(s: seq<nat>)
    ensures |Listed(s)| <= |s|
  {
    if s == [] {
      assert Listed(s) == {};
    } else {
      EntriesBounded(s[1..]);
      assert Listed(s) == Listed(s[1..]) + {s[0]};
    }
  }

  lemma {:induction false} ListedSize(s: seq<nat>)
    requires NoRepeat(s)
    ensures |Listed(s)| == |s|
  {
    if s == [] {
      assert Listed(s) == {};
    } else {
      ListedSize(s[1..]);
      assert Listed(s) == Listed(s[1..]) + {s[0]};
    }
  }

  lemma RoomToInstall(dirty: set<nat>, lh: seq<nat>, t: nat)
    requires t < |lh| && Installable(dirty, lh)
    ensures var left := dirty - Listed(lh[..t]); |left| < if lh[t] in left then NBUF else NBUF - 1
  {
    EntriesBounded(lh);
    SubsetSize(dirty - Listed(lh[..t]), dirty);
  }

  // From ws, a prefix of us has been written.
  ghost predicate Began(ws: seq<Write>, us: seq<Write>, now: seq<Write>) {
    exists k :: 0 <= k <= |us| && now == ws + us[..k]
  }

  lemma BeganPrefix(ws: seq<Write>, us: seq<Write>, vs: seq<Write>, now: seq<Write>)
    ensures Began(ws, us, now) ==> Began(ws, us + vs, now)
    ensures now == ws + us ==> Began(ws, us, now)
  {
    if Began(ws, us, now) {
      var k :| 0 <= k <= |us| && now == ws + us[..k];
      assert (us + vs)[..k] == us[..k];
    }
    assert us[..|us|] == us;
  }

  // Installing what readers already see changes nothing for them.
  lemma InstallOwn(l: Layout, v: Disk, lh: seq<nat>)
    requires GoodEntries(l, v, lh)
    ensures Apply(v, Installs(l, v, lh)) == v
  {
    forall b | 0 <= b < |v| ensures At(Installs(l, v, lh), b, v[b]) == v[b] {
      InstallOwnAt(Installs(l, v, lh), v, b);
    }
  }

  lemma {:induction false} InstallOwnAt(ws: seq<Write>, v: Disk, b: nat)
    requires b < |v| && forall i :: 0 <= i < |ws| ==> ws[i].at < |v| && ws[i].data == v[ws[i].at]
    ensures At(ws, b, v[b]) == v[b]
  {
    if ws != [] {
      InstallOwnAt(ws[..|ws|-1], v, b);
    }
  }

  lemma InstallNothing(d: Disk)
    ensures Apply(d, []) == d
  {
  }

  // How far commit has come, by parts.
  lemma CommitParts(l: Layout, v: Disk, lh: seq<nat>, ws: seq<Write>, now: seq<Write>)
    requires Fits(l, v) && GoodEntries(l, v, lh) && lh != []
    ensures var cs, h, ins := LogCopies(l, v, lh), SetHead(l, v, lh), Installs(l, v, lh);
      && (Began(ws, cs, now) ==> Began(ws, CommitWrites(l, v, lh), now))
      && (Began(ws + (cs + [h]), ins, now) ==> Began(ws, CommitWrites(l, v, lh), now))
      && (now == ws + (cs + [h]) + ins ==> Began(ws, CommitWrites(l, v, lh), now))
      && CommitWrites(l, v, lh) == (cs + [h]) + ins + [ClearHead(l, EncodeHead(v[l.start], lh))]
  {
    var cs, h, ins, c := LogCopies(l, v, lh), SetHead(l, v, lh), Installs(l, v, lh), ClearHead(l, EncodeHead(v[l.start], lh));
    BeganPrefix(ws, cs, [h] + ins + [c], now);
    assert cs + ([h] + ins + [c]) == CommitWrites(l, v, lh);
    if Began(ws + (cs + [h]), ins, now) {
      var k :| 0 <= k <= |ins| && now == ws + (cs + [h]) + ins[..k];
      assert now == ws + CommitWrites(l, v, lh)[..|cs| + 1 + k];
    }
    BeganPrefix(ws + (cs + [h]), ins, [], now);
  }

  lemma NextWrite(d: Disk, ws: seq<Write>, us: seq<Write>, t: nat)
    requires t < |us| && us[t].at < |d|
    ensures Apply(d, us[..t+1]) == Apply(d, us[..t])[us[t].at := us[t].data]
    ensures ws + us[..t+1] == ws + us[..t] + [us[t]]
  {
    ApplySnoc(d, us[..t], us[t]);
    assert us[..t+1] == us[..t] + [us[t]];
  }
}
