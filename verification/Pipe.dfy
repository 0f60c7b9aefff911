/** Pipes (pipe.c): a ring of 512 bytes under counters that wrap at 2^32, and the processes that
    sleep on it. */
module Pipe {

  const PIPESIZE := 512
  const WRAP := 0x1_0000_0000

  newtype byte = x: int | 0 <= x < 256

  datatype Ring = Ring(data: seq<byte>, nread: nat, nwrite: nat)

  function Unread(r: Ring): nat {
    (r.nwrite - r.nread) % WRAP
  }

  ghost predicate Sound(r: Ring) {
    |r.data| == PIPESIZE && r.nread < WRAP && r.nwrite < WRAP && Unread(r) <= PIPESIZE
  }

  predicate Full(r: Ring) {
    r.nwrite == (r.nread + PIPESIZE) % WRAP
  }

  predicate Empty(r: Ring) {
    r.nread == r.nwrite
  }

  // The bytes in the pipe, oldest first.
  function Queue(r: Ring): seq<byte>
    requires |r.data| == PIPESIZE
  {
    seq(Unread(r), i requires 0 <= i => r.data[(r.nread + i) % PIPESIZE])
  }

  function Put(r: Ring, b: byte): Ring
    requires |r.data| == PIPESIZE
  {
    Ring(r.data[r.nwrite % PIPESIZE := b], r.nread, (r.nwrite + 1) % WRAP)
  }

  function Skip(r: Ring): Ring {
    Ring(r.data, (r.nread + 1) % WRAP, r.nwrite)
  }

  function Oldest(r: Ring): byte
    requires |r.data| == PIPESIZE
  {
    r.data[r.nread % PIPESIZE]
  }

  lemma FullAndEmpty(r: Ring)
    requires Sound(r)
    ensures Full(r) <==> Unread(r) == PIPESIZE
    ensures Empty(r) <==> Unread(r) == 0
  {
  }

  lemma PutCounts(r: Ring, b: byte)
    requires Sound(r) && !Full(r)
    ensures Unread(r) < PIPESIZE && Unread(Put(r, b)) == Unread(r) + 1 && Sound(Put(r, b))
  {
  }

  lemma PutQueues(r: Ring, b: byte)
    requires Sound(r) && !Full(r)
    ensures Sound(Put(r, b)) && Queue(Put(r, b)) == Queue(r) + [b]
  {
    PutCounts(r, b);
    SlotOf(r);
    var r', n := Put(r, b), Unread(r);
    hide Unread, Full;
    forall i | 0 <= i <= n
      ensures Queue(r')[i] == (Queue(r) + [b])[i]
    {
      if i < n {
        SlotsDiffer(r.nread, i, n);
      }
    }
  }

  // The wrap leaves slots alone, for 512 divides 2^32.
  lemma SlotOf(r: Ring)
    requires Sound(r)
    ensures r.nwrite % PIPESIZE == (r.nread + Unread(r)) % PIPESIZE
  {
    assert r.nwrite == r.nread + Unread(r) || r.nwrite == r.nread + Unread(r) - WRAP;
    assert WRAP == PIPESIZE * 0x80_0000;
  }

  lemma SlotsDiffer(base: nat, i: nat, n: nat)
    requires i < n < PIPESIZE
    ensures (base + i) % PIPESIZE != (base + n) % PIPESIZE
  {
  }

  lemma SkipCounts(r: Ring)
    requires Sound(r) && !Empty(r)
    ensures Unread(r) > 0 && Unread(Skip(r)) == Unread(r) - 1 && Sound(Skip(r))
  {
  }

  lemma SkipSlot(r: Ring, i: nat)
    requires 0 < i && r.nread < WRAP
    ensures (Skip(r).nread + (i - 1)) % PIPESIZE == (r.nread + i) % PIPESIZE
  {
    assert WRAP == PIPESIZE * 0x80_0000;
  }

  lemma SkipDequeues(r: Ring)
    requires Sound(r) && !Empty(r)
    ensures Sound(Skip(r)) && Queue(r) == [Oldest(r)] + Queue(Skip(r))
  {
    SkipCounts(r);
    var r', n := Skip(r), Unread(r);
    hide Unread, Empty;
    forall i | 0 <= i < n
      ensures Queue(r)[i] == ([Oldest(r)] + Queue(r'))[i]
    {
      if i > 0 {
        SkipSlot(r, i);
      }
    }
  }

  /* What a writer or reader does while it holds the lock. */

  // Write until the bytes run out or the pipe is full; the number written.
  function PutRun(r: Ring, bs: seq<byte>): (Ring, nat)
    requires |r.data| == PIPESIZE
    decreases |bs|
  {
    if bs == [] || Full(r) then (r, 0) else var (r', k) := PutRun(Put(r, bs[0]), bs[1..]); (r', k + 1)
  }

  function TakeRun(r: Ring, n: nat): (Ring, seq<byte>)
    requires |r.data| == PIPESIZE
    decreases n
  {
    if n == 0 || Empty(r) then (r, []) else var (r', out) := TakeRun(Skip(r), n - 1); (r', [Oldest(r)] + out)
  }

  function Min(a: nat, b: nat): nat {
    if a <= b then a else b
  }

  /** A run of writing appends to the queue as many of the bytes as there is room for. */
  lemma {:induction false} PutRunQueues(r: Ring, bs: seq<byte>)
    requires Sound(r)
    ensures var (r', k) := PutRun(r, bs);
            Sound(r') && k == Min(|bs|, PIPESIZE - Unread(r)) && Queue(r') == Queue(r) + bs[..k] && (k < |bs| ==> Full(r'))
    decreases |bs|
  {
    FullAndEmpty(r);
    if bs == [] || Full(r) {
      assert Queue(r) + bs[..0] == Queue(r);
    } else {
      PutQueues(r, bs[0]);
      PutRunQueues(Put(r, bs[0]), bs[1..]);
      var (r', k) := PutRun(r, bs);
      assert Unread(Put(r, bs[0])) == |Queue(Put(r, bs[0]))| == Unread(r) + 1;
      assert [bs[0]] + bs[1..][..k-1] == bs[..k];
      assert Queue(r) + [bs[0]] + bs[1..][..k-1] == Queue(r) + bs[..k];
    }
  }

  /** A run of reading takes the oldest bytes, in order. */
  lemma {:induction false} TakeRunDequeues(r: Ring, n: nat)
    requires Sound(r)
    ensures var (r', out) := TakeRun(r, n);
            Sound(r') && |out| == Min(n, Unread(r)) && Queue(r) == out + Queue(r') && r'.nwrite == r.nwrite
    decreases n
  {
    FullAndEmpty(r);
    if n == 0 || Empty(r) {
      assert Queue(r) == [] + Queue(r);
    } else {
      SkipDequeues(r);
      TakeRunDequeues(Skip(r), n - 1);
      assert Unread(Skip(r)) == |Queue(Skip(r))| == Unread(r) - 1;
    }
  }

  class RingBuffer {
    var data: array<byte>
    var nread: nat
    var nwrite: nat

    constructor ()
      ensures Valid() && Queue(View()) == [] && fresh(data)
    {
      data := new byte[PIPESIZE](_ => 0);
      nread, nwrite := 0, 0;
    }

    function View(): Ring
      reads this, data
    {
      Ring(data[..], nread, nwrite)
    }

    ghost predicate Valid()
      reads this, data
    {
      Sound(View())
    }

    // The loop of pipewrite from byte i on, up to where it must wait.
    method Write(addr: seq<byte>, from: nat) returns (i: nat)
      requires Valid() && from <= |addr|
      modifies this, data
      ensures Valid() && data == old(data)
      ensures from <= i <= |addr| && (View(), i - from) == PutRun(old(View()), addr[from..])
    {
      i := from;
      while i < |addr| && nwrite != (nread + PIPESIZE) % WRAP
        invariant from <= i <= |addr| && Valid() && data == old(data)
        invariant var (r, k) := PutRun(View(), addr[i..]); PutRun(old(View()), addr[from..]) == (r, k + (i - from))
      {
        ghost var before := View();
        PutQueues(before, addr[i]);
        assert addr[i..][1..] == addr[i+1..];
        data[nwrite % PIPESIZE] := addr[i];
        nwrite := (nwrite + 1) % WRAP;
        assert View() == Put(before, addr[i]);
        i := i + 1;
      }
    }

    // The copying loop of piperead.
    method Read(n: nat) returns (out: seq<byte>)
      requires Valid()
      modifies this`nread
      ensures Valid()
      ensures (View(), out) == TakeRun(old(View()), n)
    {
      hide Unread, Queue;
      out := [];
      var i := 0;
      assert [] + TakeRun(View(), n).1 == TakeRun(View(), n).1;
      while i < n && nread != nwrite
        invariant i <= n && Valid()
        invariant var (r, more) := TakeRun(View(), n - i); TakeRun(old(View()), n) == (r, out + more)
      {
        ghost var before := View();
        SkipDequeues(before);
        ghost var more := TakeRun(Skip(before), n - i - 1).1;
        assert out + [Oldest(before)] + more == out + ([Oldest(before)] + more);
        out := out + [data[nread % PIPESIZE]];
        nread := (nread + 1) % WRAP;
        assert View() == Skip(before);
        i := i + 1;
      }
      assert TakeRun(View(), n - i) == (View(), []) && out + [] == out;
    }
  }

  /* Processes. Each step is what one of them does from taking the lock to giving it up. */

  datatype Proc = Idle | Writer(bytes: seq<byte>, done: nat, asleep: bool) | Reader(n: nat, asleep: bool)

  /** written and consumed are the bytes put into the pipe and those handed to readers so far. */
  datatype State = State(ring: Ring, written: seq<byte>, consumed: seq<byte>, readopen: bool, writeopen: bool,
                         procs: seq<Proc>, killed: seq<bool>)

  datatype Step =
    | StartWrite(p: nat, bytes: seq<byte>)
    | StartRead(p: nat, n: nat)
    | RunWriter(p: nat)
    | RunReader(p: nat)
    | CloseWrite
    | CloseRead
    | Kill(p: nat)

  function Awake(x: Proc): Proc {
    match x
    case Idle => Idle
    case Writer(bs, d, _) => Writer(bs, d, false)
    case Reader(n, _) => Reader(n, false)
  }

  function WakeReaders(ps: seq<Proc>): (r: seq<Proc>)
    ensures |r| == |ps| && forall i :: 0 <= i < |ps| ==> r[i] == if ps[i].Reader? then Awake(ps[i]) else ps[i]
  {
    seq(|ps|, i requires 0 <= i < |ps| => if ps[i].Reader? then Awake(ps[i]) else ps[i])
  }

  function WakeWriters(ps: seq<Proc>): (r: seq<Proc>)
    ensures |r| == |ps| && forall i :: 0 <= i < |ps| ==> r[i] == if ps[i].Writer? then Awake(ps[i]) else ps[i]
  {
    seq(|ps|, i requires 0 <= i < |ps| => if ps[i].Writer? then Awake(ps[i]) else ps[i])
  }

  // An end is closed by the last process that has it open, so none is using it.
  predicate Enabled(s: State, st: Step) {
    && |s.killed| == |s.procs| && |s.ring.data| == PIPESIZE
    && match st
       case StartWrite(p, _) => p < |s.procs| && s.procs[p].Idle? && s.writeopen
       case StartRead(p, _) => p < |s.procs| && s.procs[p].Idle? && s.readopen
       case RunWriter(p) => p < |s.procs| && s.procs[p].Writer? && !s.procs[p].asleep && s.procs[p].done <= |s.procs[p].bytes|
       case RunReader(p) => p < |s.procs| && s.procs[p].Reader? && !s.procs[p].asleep
       case CloseWrite => s.writeopen && forall i :: 0 <= i < |s.procs| ==> !s.procs[i].Writer?
       case CloseRead => s.readopen && forall i :: 0 <= i < |s.procs| ==> !s.procs[i].Reader?
       case Kill(p) => p < |s.procs|
  }

  function Do(s: State, st: Step): State
    requires Enabled(s, st)
  {
    match st
    case StartWrite(p, bytes) => s.(procs := s.procs[p := Writer(bytes, 0, false)])
    case StartRead(p, n) => s.(procs := s.procs[p := Reader(n, false)])
    case RunWriter(p) => Wrote(s, p, s.procs[p].bytes, s.procs[p].done)
    case RunReader(p) =>
      var n := s.procs[p].n;
      if Empty(s.ring) && s.writeopen then s.(procs := s.procs[p := if s.killed[p] then Idle else Reader(n, true)])
      else
        var (r, out) := TakeRun(s.ring, n);
        s.(ring := r, consumed := s.consumed + out, procs := WakeWriters(s.procs)[p := Idle])
    case CloseWrite => s.(writeopen := false, procs := WakeReaders(s.procs))
    case CloseRead => s.(readopen := false, procs := WakeWriters(s.procs))
    case Kill(p) => s.(killed := s.killed[p := true], procs := s.procs[p := Awake(s.procs[p])])
  }

  // pipewrite from byte done on: to the end, to where it gives up, or to where it sleeps.
  function Wrote(s: State, p: nat, bytes: seq<byte>, done: nat): State
    requires p < |s.procs| == |s.killed| && done <= |bytes| && |s.ring.data| == PIPESIZE
  {
    var (r, k) := PutRun(s.ring, bytes[done..]);
    var t := s.(ring := r, written := s.written + Prefix(bytes[done..], k));
    if done + k == |bytes| then t.(procs := WakeReaders(s.procs)[p := Idle])
    else if !s.readopen || s.killed[p] then t.(procs := s.procs[p := Idle])
    else t.(procs := WakeReaders(s.procs)[p := Writer(bytes, done + k, true)])
  }

  function Prefix(bs: seq<byte>, k: nat): seq<byte> {
    if k <= |bs| then bs[..k] else bs
  }

  ghost predicate WritersOk(s: State) {
    forall i :: 0 <= i < |s.procs| && s.procs[i].Writer? ==>
      s.writeopen && s.procs[i].done <= |s.procs[i].bytes| && (s.procs[i].asleep ==> Full(s.ring) && s.readopen)
  }

  ghost predicate ReadersOpen(s: State) {
    forall i :: 0 <= i < |s.procs| && s.procs[i].Reader? ==> s.readopen
  }

  ghost predicate Inv(s: State) {
    && |s.killed| == |s.procs| && Sound(s.ring) && s.written == s.consumed + Queue(s.ring)
    && WritersOk(s) && ReadersOpen(s)
  }

  lemma WroteKeeps(s: State, p: nat)
    requires Inv(s) && Enabled(s, RunWriter(p))
    ensures Inv(Do(s, RunWriter(p)))
  {
    var bytes, done := s.procs[p].bytes, s.procs[p].done;
    PutRunQueues(s.ring, bytes[done..]);
    var (r, k) := PutRun(s.ring, bytes[done..]);
    FullAndEmpty(s.ring);
    FullAndEmpty(r);
    hide PutRun, Queue, Full, Sound, Unread;
    assert s.consumed + Queue(s.ring) + bytes[done..][..k] == s.consumed + (Queue(s.ring) + bytes[done..][..k]);
    assert Full(s.ring) ==> Full(r);
  }

  lemma ReadKeeps(s: State, p: nat)
    requires Inv(s) && Enabled(s, RunReader(p))
    ensures Inv(Do(s, RunReader(p)))
  {
    TakeRunDequeues(s.ring, s.procs[p].n);
    var (r, out) := TakeRun(s.ring, s.procs[p].n);
    assert s.consumed + out + Queue(r) == s.consumed + (out + Queue(r));
  }

  lemma StepKeeps(s: State, st: Step)
    requires Inv(s) && Enabled(s, st)
    ensures Inv(Do(s, st))
  {
    match st
    case RunWriter(p) => WroteKeeps(s, p);
    case RunReader(p) => ReadKeeps(s, p);
    case _ =>
      hide Queue, Full, Sound;
  }

  ghost predicate Start(s: State) {
    && |s.killed| == |s.procs| && Sound(s.ring) && Empty(s.ring) && s.written == [] && s.consumed == [] && s.readopen && s.writeopen
    && forall i :: 0 <= i < |s.procs| ==> s.procs[i] == Idle
  }

  ghost predicate Moves(ss: seq<State>, sts: seq<Step>, n: nat)
    requires n + 1 < |ss| && n < |sts|
  {
    Enabled(ss[n], sts[n]) && ss[n+1] == Do(ss[n], sts[n])
  }

  ghost predicate IsRun(ss: seq<State>, sts: seq<Step>) {
    && |ss| == |sts| + 1 && Start(ss[0])
    && forall n {:trigger Moves(ss, sts, n)} :: 0 <= n < |sts| ==> Moves(ss, sts, n)
  }

  lemma {:induction false} RunInv(ss: seq<State>, sts: seq<Step>, n: nat)
    requires IsRun(ss, sts) && n < |ss|
    ensures Inv(ss[n])
    decreases n
  {
    if n == 0 {
      FullAndEmpty(ss[0].ring);
      assert Queue(ss[0].ring) == [];
    } else {
      RunInv(ss, sts, n - 1);
      assert Moves(ss, sts, n - 1);
      StepKeeps(ss[n-1], sts[n-1]);
    }
  }

  /** In every state of every run: what was read is a prefix of what was written, at most 512
      bytes are unread, and a writer sleeps only on a full pipe whose read end is open. */
  lemma Fifo(ss: seq<State>, sts: seq<Step>, n: nat)
    requires IsRun(ss, sts) && n < |ss|
    ensures var s := ss[n]; s.consumed <= s.written && |s.written| - |s.consumed| == Unread(s.ring) <= PIPESIZE
    ensures var s := ss[n]; forall i :: 0 <= i < |s.procs| && s.procs[i].Writer? && s.procs[i].asleep ==> Full(s.ring) && s.readopen
  {
    RunInv(ss, sts, n);
  }

  /* Sleeping readers. */

  ghost predicate ReadersOk(s: State) {
    forall i :: 0 <= i < |s.procs| && s.procs[i].Reader? && s.procs[i].asleep ==> Empty(s.ring) && s.writeopen
  }

  ghost predicate SomeReaderAsleep(s: State) {
    exists i :: 0 <= i < |s.procs| && s.procs[i].Reader? && s.procs[i].asleep
  }

  // A killed writer has more bytes left than the pipe holds: it fills the pipe and leaves without a wakeup.
  ghost predicate Strands(s: State, st: Step)
    requires Enabled(s, st)
  {
    st.RunWriter? && s.killed[st.p] && |s.procs[st.p].bytes| - s.procs[st.p].done > PIPESIZE && SomeReaderAsleep(s)
  }

  /** A step leaves every sleeping reader with an empty pipe that can still be written to, unless
      and only unless it is a killed writer's with more than a pipeful to go. */
  lemma ReadersOkIff(s: State, st: Step)
    requires Inv(s) && ReadersOk(s) && Enabled(s, st)
    ensures ReadersOk(Do(s, st)) <==> !Strands(s, st)
  {
    FullAndEmpty(s.ring);
    match st
    case RunWriter(p) => WriterAndReaders(s, p);
    case RunReader(p) => ReaderAndReaders(s, p);
    case _ =>
  }

  lemma WriterAndReaders(s: State, p: nat)
    requires Inv(s) && ReadersOk(s) && Enabled(s, RunWriter(p))
    ensures ReadersOk(Do(s, RunWriter(p))) <==> !Strands(s, RunWriter(p))
  {
    var bytes, done := s.procs[p].bytes, s.procs[p].done;
    PutRunQueues(s.ring, bytes[done..]);
    var (r, k) := PutRun(s.ring, bytes[done..]);
    FullAndEmpty(s.ring);
    FullAndEmpty(r);
    hide PutRun, Queue, Full, Empty, Unread;
    if SomeReaderAsleep(s) {
      var i :| 0 <= i < |s.procs| && s.procs[i].Reader? && s.procs[i].asleep;
      assert Do(s, RunWriter(p)).procs[i] == if done + k == |bytes| || !s.killed[p] then Awake(s.procs[i]) else s.procs[i];
    }
  }

  lemma ReaderAndReaders(s: State, p: nat)
    requires Inv(s) && ReadersOk(s) && Enabled(s, RunReader(p))
    ensures ReadersOk(Do(s, RunReader(p)))
  {
    TakeRunDequeues(s.ring, s.procs[p].n);
    FullAndEmpty(s.ring);
  }

  /** The case is reached from every start with two processes: one sleeps reading the empty pipe, the
      other is killed with 513 bytes to write; it fills the pipe and leaves the reader asleep. */
  lemma StrandedReader(s0: State) returns (ss: seq<State>, sts: seq<Step>)
    requires Start(s0) && |s0.procs| >= 2 && !s0.killed[0]
    ensures IsRun(ss, sts) && ss[0] == s0 && |ss| == 6 && |ss[5].procs| == |s0.procs| && ReadersOk(ss[4]) && !ReadersOk(ss[5])
    ensures ss[5].procs[0] == Reader(1, true) && ss[5].procs[1] == Idle && Full(ss[5].ring)
  {
    var bytes: seq<byte> := seq(513, _ => 0);
    var s1 := Do(s0, StartRead(0, 1));
    var s2 := Do(s1, RunReader(0));
    var s3 := Do(s2, StartWrite(1, bytes));
    var s4 := Do(s3, Kill(1));
    assert s4.procs[0] == Reader(1, true) && s4.procs[1] == Writer(bytes, 0, false) && s4.killed[1];
    var s5 := Do(s4, RunWriter(1));
    ss, sts := [s0, s1, s2, s3, s4, s5], [StartRead(0, 1), RunReader(0), StartWrite(1, bytes), Kill(1), RunWriter(1)];
    assert Moves(ss, sts, 0) && Moves(ss, sts, 1) && Moves(ss, sts, 2) && Moves(ss, sts, 3) && Moves(ss, sts, 4);
    RunInv(ss, sts, 4);
    assert Strands(s4, RunWriter(1));
    ReadersOkIff(s4, RunWriter(1));
    PutRunQueues(s4.ring, bytes[0..]);
    FullAndEmpty(s4.ring);
  }

  /** Readers never miss a wakeup in runs where no killed writer has more than a pipeful to go. */
  lemma {:induction false} NoReaderStranded(ss: seq<State>, sts: seq<Step>, n: nat)
    requires IsRun(ss, sts) && n < |ss| && forall m :: 0 <= m < n && Moves(ss, sts, m) ==> !Strands(ss[m], sts[m])
    ensures ReadersOk(ss[n])
    decreases n
  {
    if n > 0 {
      NoReaderStranded(ss, sts, n - 1);
      RunInv(ss, sts, n - 1);
      assert Moves(ss, sts, n - 1);
      ReadersOkIff(ss[n-1], sts[n-1]);
    }
  }
}
