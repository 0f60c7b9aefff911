/** What the redo log of log.c puts on disk, and what recovery does with it.
    A run of commit() or recover_from_log() is the list of block writes it issues;
    a crash stops the list anywhere. */
module Journal {
  import opened Blocks

  const MAXOPBLOCKS := 10
  const LOGSIZE := 30

  type Disk = seq<Block>

  // log.start and log.size: block `start` is the header, the blocks after it hold data.
  datatype Layout = Layout(start: nat, size: nat)

  datatype Write = Write(at: nat, data: Block)

  predicate Fits(l: Layout, d: Disk) {
    1 <= l.size && l.start + l.size <= |d|
  }

  predicate InLog(l: Layout, b: nat) {
    l.start <= b < l.start + l.size
  }

  predicate IsHome(l: Layout, d: Disk, b: nat) {
    b < |d| && b < WORD_LIMIT && !InLog(l, b)
  }

  // A header of n block numbers: they fit the log area and none of them is in it.
  predicate GoodEntries(l: Layout, d: Disk, lh: seq<nat>) {
    |lh| <= LOGSIZE && |lh| < l.size && forall t :: 0 <= t < |lh| ==> IsHome(l, d, lh[t])
  }

  /* The header block. */

  function HeadCount(b: Block): nat {
    Word(b, 0)
  }

  function HeadBlocks(b: Block): seq<nat>
    requires HeadCount(b) < WORDS
  {
    seq(HeadCount(b), i requires 0 <= i < HeadCount(b) => Word(b, 1 + i))
  }

  // The first k entries stored over b: what write_head's loop has built after k turns.
  function PutEntries(b: Block, lh: seq<nat>, k: nat): Block
    requires k <= |lh| <= LOGSIZE && forall t :: 0 <= t < |lh| ==> lh[t] < WORD_LIMIT
  {
    if k == 0 then PutWord(b, 0, |lh|) else PutWord(PutEntries(b, lh, k - 1), k, lh[k-1])
  }

  function EncodeHead(b: Block, lh: seq<nat>): Block
    requires |lh| <= LOGSIZE && forall t :: 0 <= t < |lh| ==> lh[t] < WORD_LIMIT
  {
    PutEntries(b, lh, |lh|)
  }

  lemma {:induction false} PutEntriesWords(b: Block, lh: seq<nat>, k: nat)
    requires k <= |lh| <= LOGSIZE && forall t :: 0 <= t < |lh| ==> lh[t] < WORD_LIMIT
    ensures Word(PutEntries(b, lh, k), 0) == |lh|
    ensures forall t :: 0 <= t < k ==> Word(PutEntries(b, lh, k), 1 + t) == lh[t]
  {
    if k == 0 {
      PutWordWord(b, 0, |lh|, 0);
    } else {
      PutEntriesWords(b, lh, k - 1);
      forall j | 0 <= j <= k ensures Word(PutEntries(b, lh, k), j) == if j == k then lh[k-1] else Word(PutEntries(b, lh, k - 1), j) {
        PutWordWord(PutEntries(b, lh, k - 1), k, lh[k-1], j);
      }
      forall t | 0 <= t < k ensures Word(PutEntries(b, lh, k), 1 + t) == lh[t] {
        assert 0 <= 1 + t <= k;
      }
    }
  }

  /** read_head after write_head: the header read back is the one written, whatever the
      block held before. */
  lemma HeadRoundTrip(b: Block, lh: seq<nat>)
    requires |lh| <= LOGSIZE && forall t :: 0 <= t < |lh| ==> lh[t] < WORD_LIMIT
    ensures HeadCount(EncodeHead(b, lh)) == |lh|
    ensures HeadBlocks(EncodeHead(b, lh)) == lh
  {
    PutEntriesWords(b, lh, |lh|);
  }

  /* Lists of writes. */

  // What block b holds after ws, when it held x before.
  function At(ws: seq<Write>, b: nat, x: Block): Block {
    if ws == [] then x
    else if ws[|ws|-1].at == b then ws[|ws|-1].data
    else At(ws[..|ws|-1], b, x)
  }

  function Apply(d: Disk, ws: seq<Write>): Disk {
    seq(|d|, b requires 0 <= b < |d| => At(ws, b, d[b]))
  }

  lemma {:induction false} AtConcat(ws: seq<Write>, us: seq<Write>, b: nat, x: Block)
    ensures At(ws + us, b, x) == At(us, b, At(ws, b, x))
  {
    if us == [] {
      assert ws + us == ws;
    } else {
      assert (ws + us)[..|ws + us| - 1] == ws + us[..|us|-1];
      AtConcat(ws, us[..|us|-1], b, x);
    }
  }

  lemma ApplyConcat(d: Disk, ws: seq<Write>, us: seq<Write>)
    ensures Apply(d, ws + us) == Apply(Apply(d, ws), us)
  {
    forall b | 0 <= b < |d| ensures Apply(d, ws + us)[b] == Apply(Apply(d, ws), us)[b] {
      AtConcat(ws, us, b, d[b]);
    }
  }

  lemma ApplySnoc(d: Disk, ws: seq<Write>, w: Write)
    requires w.at < |d|
    ensures Apply(d, ws + [w]) == Apply(d, ws)[w.at := w.data]
  {
    assert (ws + [w])[..|ws|] == ws;
  }

  lemma {:induction false} AtUntouched(ws: seq<Write>, b: nat, x: Block)
    requires forall i :: 0 <= i < |ws| ==> ws[i].at != b
    ensures At(ws, b, x) == x
  {
    if ws != [] {
      AtUntouched(ws[..|ws|-1], b, x);
    }
  }

  // Replaying a list over a disk that already took part of it changes nothing more
  // than replaying it once.
  lemma {:induction false} AtAbsorb(ws: seq<Write>, k: nat, b: nat, x: Block)
    requires k <= |ws|
    ensures At(ws, b, At(ws[..k], b, x)) == At(ws, b, x)
  {
    if k == |ws| {
      assert ws[..k] == ws;
      AtIdem(ws, b, x);
    } else {
      var ps := ws[..|ws|-1];
      assert ps[..k] == ws[..k];
      AtAbsorb(ps, k, b, x);
    }
  }

  lemma {:induction false} AtIdem(ws: seq<Write>, b: nat, x: Block)
    ensures At(ws, b, At(ws, b, x)) == At(ws, b, x)
  {
    if exists i :: 0 <= i < |ws| && ws[i].at == b {
      AtHit(ws, b, x, At(ws, b, x));
    } else {
      AtUntouched(ws, b, x);
    }
  }

  lemma {:induction false} AtHit(ws: seq<Write>, b: nat, x: Block, y: Block)
    requires exists i :: 0 <= i < |ws| && ws[i].at == b
    ensures At(ws, b, x) == At(ws, b, y)
  {
    if ws[|ws|-1].at != b {
      var i :| 0 <= i < |ws| && ws[i].at == b;
      assert ws[..|ws|-1][i].at == b;
      AtHit(ws[..|ws|-1], b, x, y);
    }
  }

  /* commit(): copy to the log, write the header, install, clear the header. */

  function LogCopies(l: Layout, view: Disk, lh: seq<nat>): seq<Write>
    requires GoodEntries(l, view, lh)
  {
    seq(|lh|, t requires 0 <= t < |lh| => Write(l.start + 1 + t, view[lh[t]]))
  }

  function Installs(l: Layout, view: Disk, lh: seq<nat>): seq<Write>
    requires GoodEntries(l, view, lh)
  {
    seq(|lh|, t requires 0 <= t < |lh| => Write(lh[t], view[lh[t]]))
  }

  function SetHead(l: Layout, view: Disk, lh: seq<nat>): Write
    requires Fits(l, view) && GoodEntries(l, view, lh)
  {
    Write(l.start, EncodeHead(view[l.start], lh))
  }

  function ClearHead(l: Layout, b: Block): Write {
    Write(l.start, EncodeHead(b, []))
  }

  function CommitWrites(l: Layout, view: Disk, lh: seq<nat>): seq<Write>
    requires Fits(l, view) && GoodEntries(l, view, lh)
  {
    if lh == [] then []
    else LogCopies(l, view, lh) + [SetHead(l, view, lh)] + Installs(l, view, lh)
         + [ClearHead(l, EncodeHead(view[l.start], lh))]
  }

  /* recover_from_log(): install what the header lists, clear the header. */

  predicate GoodHead(l: Layout, d: Disk) {
    Fits(l, d) && HeadCount(d[l.start]) <= LOGSIZE && GoodEntries(l, d, HeadBlocks(d[l.start]))
  }

  // install_trans: the t-th log block goes to the t-th listed block.
  function FromLog(l: Layout, d: Disk, lh: seq<nat>): seq<Write>
    requires Fits(l, d) && GoodEntries(l, d, lh)
  {
    seq(|lh|, t requires 0 <= t < |lh| => Write(lh[t], d[l.start + 1 + t]))
  }

  function Replays(l: Layout, d: Disk): seq<Write>
    requires GoodHead(l, d)
  {
    FromLog(l, d, HeadBlocks(d[l.start]))
  }

  function RecoveryWrites(l: Layout, d: Disk): seq<Write>
    requires GoodHead(l, d)
  {
    Replays(l, d) + [ClearHead(l, d[l.start])]
  }

  function Recover(l: Layout, d: Disk): Disk
    requires GoodHead(l, d)
  {
    Apply(d, RecoveryWrites(l, d))
  }

  ghost predicate SameHome(l: Layout, d: Disk, e: Disk) {
    |d| == |e| && forall b :: 0 <= b < |d| && !InLog(l, b) ==> d[b] == e[b]
  }

  /** A finished recovery leaves the header empty, the other log blocks alone, and every
      home block holding the last copy the header listed for it. */
  lemma RecoverMeaning(l: Layout, d: Disk)
    requires GoodHead(l, d)
    ensures GoodHead(l, Recover(l, d)) && HeadCount(Recover(l, d)[l.start]) == 0
    ensures forall b :: 0 <= b < |d| && !InLog(l, b) ==> Recover(l, d)[b] == At(Replays(l, d), b, d[b])
  {
    var ws, c := Replays(l, d), ClearHead(l, d[l.start]);
    HeadRoundTrip(d[l.start], []);
    forall b | 0 <= b < |d| ensures Recover(l, d)[b] == if b == l.start then c.data else At(ws, b, d[b]) {
      assert (ws + [c])[..|ws|] == ws;
    }
  }

  // A disk with an empty header recovers to itself.
  lemma RecoverClean(l: Layout, d: Disk)
    requires GoodHead(l, d) && HeadCount(d[l.start]) == 0
    ensures SameHome(l, Recover(l, d), d)
  {
    RecoverMeaning(l, d);
  }

  /** Recovery stopped after any k of its writes and started again comes to the same home
      blocks as recovery that was never stopped. */
  lemma CrashInRecovery(l: Layout, d: Disk, k: nat)
    requires GoodHead(l, d) && k <= |RecoveryWrites(l, d)|
    ensures GoodHead(l, Apply(d, RecoveryWrites(l, d)[..k]))
    ensures SameHome(l, Recover(l, Apply(d, RecoveryWrites(l, d)[..k])), Recover(l, d))
  {
    var ws := Replays(l, d);
    var d' := Apply(d, RecoveryWrites(l, d)[..k]);
    RecoverMeaning(l, d);
    if k <= |ws| {
      assert RecoveryWrites(l, d)[..k] == ws[..k];
      forall b | 0 <= b < |d| && InLog(l, b) ensures d'[b] == d[b] {
        AtUntouched(ws[..k], b, d[b]);
      }
      assert InLog(l, l.start);
      assert Replays(l, d') == ws;
      RecoverMeaning(l, d');
      forall b | 0 <= b < |d| && !InLog(l, b) ensures Recover(l, d')[b] == Recover(l, d)[b] {
        AtAbsorb(ws, k, b, d[b]);
      }
    } else {
      assert RecoveryWrites(l, d)[..k] == RecoveryWrites(l, d);
      RecoverClean(l, d');
    }
  }

  // Disk after the log copies, the header and j of the installs.
  function Committed(l: Layout, d: Disk, view: Disk, lh: seq<nat>, j: nat): Disk
    requires Fits(l, view) && GoodEntries(l, view, lh) && j <= |lh|
  {
    Apply(d, LogCopies(l, view, lh) + [SetHead(l, view, lh)] + Installs(l, view, lh)[..j])
  }

  lemma CommittedDisk(l: Layout, d: Disk, view: Disk, lh: seq<nat>, j: nat)
    requires GoodHead(l, d) && |view| == |d| && GoodEntries(l, view, lh) && j <= |lh|
    ensures var e := Committed(l, d, view, lh, j);
      GoodHead(l, e) && Replays(l, e) == Installs(l, view, lh)
      && forall b :: 0 <= b < |d| && !InLog(l, b) ==> e[b] == At(Installs(l, view, lh)[..j], b, d[b])
  {
    hide At, EncodeHead;
    var e := Committed(l, d, view, lh, j);
    forall b | 0 <= b < |d| && !InLog(l, b) ensures e[b] == At(Installs(l, view, lh)[..j], b, d[b]) {
      CommittedAt(l, d, view, lh, j, b);
      AtUntouched(LogCopies(l, view, lh), b, d[b]);
    }
    CommittedLog(l, d, view, lh, j);
    HeadRoundTrip(view[l.start], lh);
  }

  lemma CommittedLog(l: Layout, d: Disk, view: Disk, lh: seq<nat>, j: nat)
    requires Fits(l, d) && |view| == |d| && GoodEntries(l, view, lh) && j <= |lh|
    ensures Committed(l, d, view, lh, j)[l.start] == EncodeHead(view[l.start], lh)
    ensures forall t :: 0 <= t < |lh| ==> Committed(l, d, view, lh, j)[l.start + 1 + t] == view[lh[t]]
  {
    hide At;
    var ins := Installs(l, view, lh)[..j];
    CommittedAt(l, d, view, lh, j, l.start);
    AtUntouched(ins, l.start, EncodeHead(view[l.start], lh));
    forall t | 0 <= t < |lh| ensures Committed(l, d, view, lh, j)[l.start + 1 + t] == view[lh[t]] {
      CommittedAt(l, d, view, lh, j, l.start + 1 + t);
      AtLogCopy(l, view, lh, |lh|, t, d[l.start + 1 + t]);
      assert LogCopies(l, view, lh)[..|lh|] == LogCopies(l, view, lh);
      AtUntouched(ins, l.start + 1 + t, view[lh[t]]);
    }
  }

  lemma CommittedAt(l: Layout, d: Disk, view: Disk, lh: seq<nat>, j: nat, b: nat)
    requires Fits(l, d) && |view| == |d| && GoodEntries(l, view, lh) && j <= |lh| && b < |d|
    ensures Committed(l, d, view, lh, j)[b] ==
      At(Installs(l, view, lh)[..j], b, if b == l.start then SetHead(l, view, lh).data else At(LogCopies(l, view, lh), b, d[b]))
  {
    var cs, h := LogCopies(l, view, lh), SetHead(l, view, lh);
    AtConcat(cs + [h], Installs(l, view, lh)[..j], b, d[b]);
    assert (cs + [h])[..|cs|] == cs;
  }

  lemma {:induction false} AtLogCopy(l: Layout, view: Disk, lh: seq<nat>, k: nat, t: nat, x: Block)
    requires GoodEntries(l, view, lh) && t < k <= |lh|
    ensures At(LogCopies(l, view, lh)[..k], l.start + 1 + t, x) == view[lh[t]]
  {
    var cs := LogCopies(l, view, lh)[..k];
    if t + 1 < k {
      assert cs[..|cs|-1] == LogCopies(l, view, lh)[..k-1];
      AtLogCopy(l, view, lh, k - 1, t, x);
    }
  }

  /** Crash atomicity of commit(): stopped after any k of its block writes, the disk
      recovers to the old home blocks up to the header write and to the new ones from it on;
      never to a mixture. */
  lemma CrashInCommit(l: Layout, d: Disk, view: Disk, lh: seq<nat>, k: nat)
    requires GoodHead(l, d) && HeadCount(d[l.start]) == 0
    requires |view| == |d| && view[l.start] == d[l.start] && GoodEntries(l, view, lh)
    requires k <= |CommitWrites(l, view, lh)|
    ensures var e := Apply(d, CommitWrites(l, view, lh)[..k]);
      GoodHead(l, e)
      && SameHome(l, Recover(l, e), if k <= |lh| then d else Apply(d, Installs(l, view, lh)))
      && (k == |CommitWrites(l, view, lh)| ==> HeadCount(e[l.start]) == 0 && SameHome(l, e, Apply(d, Installs(l, view, lh))))
  {
    var n, cs, h, ins := |lh|, LogCopies(l, view, lh), SetHead(l, view, lh), Installs(l, view, lh);
    var e := Apply(d, CommitWrites(l, view, lh)[..k]);
    if lh == [] {
      assert CommitWrites(l, view, lh)[..k] == [];
      assert e == d;
      RecoverClean(l, d);
    } else if k <= n {
      assert CommitWrites(l, view, lh)[..k] == cs[..k];
      forall b | 0 <= b < |d| && (b == l.start || !InLog(l, b)) ensures e[b] == d[b] {
        AtUntouched(cs[..k], b, d[b]);
      }
      RecoverClean(l, e);
    } else if k <= 2 * n + 1 {
      var j := k - n - 1;
      assert CommitWrites(l, view, lh)[..k] == cs + [h] + ins[..j];
      CommittedDisk(l, d, view, lh, j);
      RecoverMeaning(l, e);
      forall b | 0 <= b < |d| && !InLog(l, b) ensures Recover(l, e)[b] == At(ins, b, d[b]) {
        AtAbsorb(ins, j, b, d[b]);
      }
    } else {
      CommitFinished(l, d, view, lh);
      assert CommitWrites(l, view, lh)[..k] == CommitWrites(l, view, lh);
      RecoverClean(l, e);
    }
  }

  lemma CommitFinished(l: Layout, d: Disk, view: Disk, lh: seq<nat>)
    requires GoodHead(l, d) && |view| == |d| && GoodEntries(l, view, lh) && lh != []
    ensures var e := Apply(d, CommitWrites(l, view, lh));
      GoodHead(l, e) && HeadCount(e[l.start]) == 0 && SameHome(l, e, Apply(d, Installs(l, view, lh)))
  {
    var n := |lh|;
    var ps := LogCopies(l, view, lh) + [SetHead(l, view, lh)] + Installs(l, view, lh);
    var c := ClearHead(l, EncodeHead(view[l.start], lh));
    assert Installs(l, view, lh)[..n] == Installs(l, view, lh);
    CommittedDisk(l, d, view, lh, n);
    HeadRoundTrip(EncodeHead(view[l.start], lh), []);
    var e := Apply(d, CommitWrites(l, view, lh));
    assert CommitWrites(l, view, lh) == ps + [c];
    forall b | 0 <= b < |d| ensures e[b] == if b == l.start then c.data else Apply(d, ps)[b] {
      assert (ps + [c])[..|ps|] == ps;
    }
    assert InLog(l, l.start);
  }

  /** Disks met over several boots: each recovery but the last is stopped after some of
      its writes. */
  ghost predicate InterruptedRecoveries(l: Layout, ds: seq<Disk>, ks: seq<nat>) {
    && |ds| == |ks| + 1
    && forall i :: 0 <= i < |ks| ==>
         GoodHead(l, ds[i]) && ks[i] <= |RecoveryWrites(l, ds[i])| && ds[i+1] == Apply(ds[i], RecoveryWrites(l, ds[i])[..ks[i]])
  }

  lemma {:induction false} ManyCrashes(l: Layout, ds: seq<Disk>, ks: seq<nat>)
    requires InterruptedRecoveries(l, ds, ks) && GoodHead(l, ds[0])
    ensures GoodHead(l, ds[|ks|])
    ensures SameHome(l, Recover(l, ds[|ks|]), Recover(l, ds[0]))
  {
    if ks != [] {
      var n := |ks| - 1;
      ManyCrashes(l, ds[..|ds|-1], ks[..n]);
      CrashInRecovery(l, ds[n], ks[n]);
    }
  }

  /** Commit stopped anywhere, then recovery stopped anywhere any number of times: the
      first recovery that finishes leaves all home blocks old or all of them new, and the
      header empty. */
  lemma CrashAtomicity(l: Layout, d: Disk, view: Disk, lh: seq<nat>, k: nat, ds: seq<Disk>, ks: seq<nat>)
    requires GoodHead(l, d) && HeadCount(d[l.start]) == 0
    requires |view| == |d| && view[l.start] == d[l.start] && GoodEntries(l, view, lh)
    requires k <= |CommitWrites(l, view, lh)|
    requires InterruptedRecoveries(l, ds, ks) && ds[0] == Apply(d, CommitWrites(l, view, lh)[..k])
    ensures GoodHead(l, ds[|ks|])
    ensures var f := Recover(l, ds[|ks|]);
      HeadCount(f[l.start]) == 0 && SameHome(l, f, if k <= |lh| then d else Apply(d, Installs(l, view, lh)))
  {
    CrashInCommit(l, d, view, lh, k);
    ManyCrashes(l, ds, ks);
    RecoverMeaning(l, ds[|ks|]);
  }

  // The disk as mkfs first makes it, all zeros, has an empty header.
  lemma ZeroDiskIsClean(l: Layout, d: Disk)
    requires Fits(l, d) && forall b :: 0 <= b < |d| ==> d[b] == ZeroBlock()
    ensures GoodHead(l, d) && HeadCount(d[l.start]) == 0
  {
    ZeroWord(0);
  }
}
