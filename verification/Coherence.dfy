/** Processes and completion interrupts interleaved over the buffer cache: no two
    buffers for a block, no lost wakeup, and every read sees the last write. */
module Coherence {
  import opened CacheSpec

  /** What a block is wanted for: `getblk` itself, `bread`, or read-ahead. */
  datatype Why = Raw | Read | Ahead

  /** Where a process is: outside the cache; going round the loop of getblk, or
      asleep in it; or waiting in iowait, in bread or in bwrite. */
  datatype Proc =
    | Running
    | Getting(dev: int, blk: int, why: Why)
    | OnBuf(dev: int, blk: int, why: Why, b: nat)
    | OnFree(dev: int, blk: int, why: Why)
    | OnIo(key: Key, b: nat, writing: bool, asleep: bool)

  /** Who holds a buffer. */
  datatype Owner = Nobody | Held(p: nat) | Driver

  /** `given` records the contents last given to a write of each block. */
  datatype State = State(c: Core, procs: seq<Proc>, owner: seq<Owner>, given: imap<Key, Data>)

  // ----- wakeups

  function WakeBuf1(p: Proc, b: nat): Proc {
    if p.OnBuf? && p.b == b then Getting(p.dev, p.blk, p.why)
    else if p.OnIo? && p.b == b then p.(asleep := false)
    else p
  }

  function WakeFree1(p: Proc): Proc {
    if p.OnFree? then Getting(p.dev, p.blk, p.why) else p
  }

  function WakeBuf(ps: seq<Proc>, b: nat): (r: seq<Proc>)
    ensures |r| == |ps| && forall i :: 0 <= i < |ps| ==> r[i] == WakeBuf1(ps[i], b)
  {
    seq(|ps|, i requires 0 <= i < |ps| => WakeBuf1(ps[i], b))
  }

  function WakeFree(ps: seq<Proc>): (r: seq<Proc>)
    ensures |r| == |ps| && forall i :: 0 <= i < |ps| ==> r[i] == WakeFree1(ps[i])
  {
    seq(|ps|, i requires 0 <= i < |ps| => WakeFree1(ps[i]))
  }

  /** The wakeups of brelse: each only when its B_WANTED is set. */
  ghost function ReleaseWakes(c: Core, ps: seq<Proc>, b: nat): seq<Proc>
    requires b < |c.bufs|
  {
    var ps1 := if c.bufs[b].wanted then WakeBuf(ps, b) else ps;
    if c.fwant then WakeFree(ps1) else ps1
  }

  ghost function DoRelease(s: State, b: nat): State
    requires b < |s.c.bufs| && b < |s.owner|
  {
    s.(c := Release(s.c, b), procs := ReleaseWakes(s.c, s.procs, b), owner := s.owner[b := Nobody])
  }

  // ----- steps

  datatype Kind = Sync | Async | Delayed

  datatype Event =
    | Want(p: nat, dev: int, blk: int, why: Why)
    | Loop(p: nat)
    | Iowait(p: nat)
    | Write(p: nat, b: nat, data: Data, kind: Kind)
    | Brelse(p: nat, b: nat)
    | Flush(b: nat)
    | Interrupt

  ghost predicate Shape(s: State) {
    && |s.owner| == |s.c.bufs|
    && (forall i :: 0 <= i < |s.c.avail| ==> s.c.avail[i] < |s.c.bufs|)
    && (forall i :: 0 <= i < |s.c.q| ==> s.c.q[i] < |s.c.bufs|)
    && (forall k: Key :: k in s.c.disk && k in s.given)
  }

  ghost predicate Enabled(s: State, e: Event)
    requires Shape(s)
  {
    match e
    case Want(p, dev, blk, why) => p < |s.procs| && s.procs[p] == Running && dev >= NODEV && (why != Raw ==> dev >= 0)
    case Loop(p) => p < |s.procs| && s.procs[p].Getting?
    case Iowait(p) => p < |s.procs| && s.procs[p].OnIo? && !s.procs[p].asleep && s.procs[p].b < |s.c.bufs|
    case Write(p, b, _, _) =>
      p < |s.procs| && s.procs[p] == Running && b < |s.c.bufs| && s.owner[b] == Held(p) && s.c.bufs[b].dev >= 0
    case Brelse(p, b) => p < |s.procs| && s.procs[p] == Running && b < |s.c.bufs| && s.owner[b] == Held(p)
    case Flush(b) => b in s.c.avail && s.c.bufs[b].delwri
    case Interrupt => s.c.q != []
  }

  /** `p` has come out of getblk with buffer `b`. */
  ghost function After(s: State, p: nat, b: nat, why: Why): State
    requires p < |s.procs| && b < |s.c.bufs| && b < |s.owner|
  {
    match why
    case Raw => s.(procs := s.procs[p := Running], owner := s.owner[b := Held(p)])
    case Read =>
      if s.c.bufs[b].done then s.(procs := s.procs[p := Running], owner := s.owner[b := Held(p)])
      else s.(c := StartRead(s.c, b, false), procs := s.procs[p := OnIo(s.c.bufs[b].Block(), b, false, false)],
              owner := s.owner[b := Held(p)])
    case Ahead =>
      if s.c.bufs[b].done then DoRelease(s.(procs := s.procs[p := Running]), b)
      else s.(c := StartRead(s.c, b, true), procs := s.procs[p := Running], owner := s.owner[b := Driver])
  }

  ghost function LoopStep(s: State, p: nat): State
    requires Shape(s) && p < |s.procs| && s.procs[p].Getting?
  {
    var Getting(dev, blk, why) := s.procs[p];
    var (c', got) := Getblk(s.c, dev, blk);
    match got
    case Have(b) => if b < |c'.bufs| && b < |s.owner| then After(s.(c := c'), p, b, why) else s
    case SleepBuf(b) => s.(c := c', procs := s.procs[p := OnBuf(dev, blk, why, b)])
    case SleepFree => s.(c := c', procs := s.procs[p := OnFree(dev, blk, why)])
    case Again => s.(c := c', owner := s.owner[s.c.avail[0] := Driver])
  }

  ghost function IowaitStep(s: State, p: nat): State
    requires Shape(s) && Enabled(s, Iowait(p))
  {
    var OnIo(_, b, writing, _) := s.procs[p];
    if !s.c.bufs[b].done then s.(procs := s.procs[p := s.procs[p].(asleep := true)])
    else
      var s1 := s.(procs := s.procs[p := Running]);
      if writing then DoRelease(s1, b) else s1
  }

  ghost function WriteStep(s: State, p: nat, b: nat, data: Data, kind: Kind): State
    requires Shape(s) && Enabled(s, Write(p, b, data, kind))
  {
    var c := s.c.(bufs := s.c.bufs[b := s.c.bufs[b].(data := data)]);
    var s1 := s.(c := c, given := s.given[s.c.bufs[b].Block() := data]);
    match kind
    case Sync => s1.(c := StartWrite(c, b, false), procs := s.procs[p := OnIo(s.c.bufs[b].Block(), b, true, false)])
    case Async => s1.(c := StartWrite(c, b, true), owner := s.owner[b := Driver])
    case Delayed => DoRelease(s1.(c := c.(bufs := c.bufs[b := c.bufs[b].(delwri := true, done := true)])), b)
  }

  ghost function IntrStep(s: State): State
    requires Shape(s) && s.c.q != []
  {
    var b := s.c.q[0];
    var c' := Intr(s.c);
    if s.c.bufs[b].async
    then s.(c := c', procs := ReleaseWakes(s.c, s.procs, b), owner := s.owner[b := Nobody])
    else s.(c := c', procs := WakeBuf(s.procs, b))
  }

  ghost function Next(s: State, e: Event): State
    requires Shape(s) && Enabled(s, e)
  {
    match e
    case Want(p, dev, blk, why) => s.(procs := s.procs[p := Getting(dev, blk, why)])
    case Loop(p) => LoopStep(s, p)
    case Iowait(p) => IowaitStep(s, p)
    case Write(p, b, data, kind) => WriteStep(s, p, b, data, kind)
    case Brelse(p, b) => DoRelease(s, b)
    case Flush(b) => s.(c := StartWrite(Notavail(s.c, b), b, true), owner := s.owner[b := Driver])
    case Interrupt => IntrStep(s)
  }

  // ----- the invariant

  ghost predicate Listed(s: State) {
    && (forall i, j :: 0 <= i < j < |s.c.avail| ==> s.c.avail[i] != s.c.avail[j])
    && (forall i, j :: 0 <= i < j < |s.c.q| ==> s.c.q[i] != s.c.q[j])
    && (forall b :: 0 <= b < |s.c.bufs| ==> (b in s.c.avail <==> !s.c.bufs[b].busy))
  }

  /** A buffer's flags, its owner and the queue agree. */
  ghost predicate BufOk(s: State, b: nat)
    requires |s.owner| == |s.c.bufs| && b < |s.c.bufs|
  {
    var h := s.c.bufs[b];
    && (!h.busy <==> s.owner[b] == Nobody)
    && (h.async <==> s.owner[b] == Driver)
    && (s.owner[b] == Driver ==> b in s.c.q)
    && (b in s.c.q ==> h.busy && !h.done && !h.delwri && h.dev >= 0)
    && (!h.busy ==> !h.wanted)
    && (h.delwri ==> h.done && h.dev >= 0)
    && (s.owner[b].Held? && b in s.c.q ==>
          var p := s.owner[b].p;
          p < |s.procs| && s.procs[p].OnIo? && s.procs[p].b == b && s.procs[p].writing == !h.read)
  }

  /** A process is asleep only where something is bound to wake it. */
  ghost predicate ProcOk(s: State, p: nat)
    requires |s.owner| == |s.c.bufs| && p < |s.procs|
  {
    match s.procs[p]
    case Running => true
    case Getting(dev, _, why) => dev >= NODEV && (why != Raw ==> dev >= 0)
    case OnBuf(dev, _, why, b) => dev >= 0 && b < |s.c.bufs| && s.c.bufs[b].busy && s.c.bufs[b].wanted
    case OnFree(dev, _, why) => dev >= NODEV && (why != Raw ==> dev >= 0) && s.c.avail == [] && s.c.fwant
    case OnIo(key, b, writing, asleep) =>
      && b < |s.c.bufs| && s.owner[b] == Held(p) && s.c.bufs[b].dev >= 0 && s.c.bufs[b].Block() == key
      && (b in s.c.q || s.c.bufs[b].done) && (asleep ==> b in s.c.q)
      && s.c.bufs[b].read == !writing
  }

  ghost predicate OneEach(bufs: seq<Buf>) {
    forall a, b :: 0 <= a < |bufs| && 0 <= b < |bufs| && bufs[a].dev >= 0 && bufs[a].Block() == bufs[b].Block() ==>
          a == b
  }

  /** The buffer's contents are the block's, not yet or no longer the disk's. */
  predicate Current(c: Core, b: nat)
    requires b < |c.bufs|
  {
    c.bufs[b].dev >= 0 && (c.bufs[b].done || (b in c.q && !c.bufs[b].read))
  }

  /** The disk lags behind the buffer. */
  predicate Pending(c: Core, b: nat)
    requires b < |c.bufs|
  {
    c.bufs[b].delwri || (b in c.q && !c.bufs[b].read)
  }

  /** A current buffer has what was last given for its block, and a block with no
      write pending has it on the disk. */
  ghost predicate Coherent(s: State) {
    && (forall k: Key :: k in s.c.disk && k in s.given)
    && (forall b {:trigger Current(s.c, b)} :: 0 <= b < |s.c.bufs| && Current(s.c, b) ==>
          s.c.bufs[b].data == s.given[s.c.bufs[b].Block()])
    && (forall k: Key {:trigger s.c.disk[k]} :: k.dev >= 0 && s.c.disk[k] != s.given[k] ==>
          exists b :: 0 <= b < |s.c.bufs| && s.c.bufs[b].Block() == k && Pending(s.c, b))
  }

  ghost predicate Inv(s: State) {
    && Shape(s) && Listed(s) && OneEach(s.c.bufs) && Coherent(s)
    && (forall b {:trigger BufOk(s, b)} :: 0 <= b < |s.c.bufs| ==> BufOk(s, b))
    && (forall p {:trigger ProcOk(s, p)} :: 0 <= p < |s.procs| ==> ProcOk(s, p))
  }

  // ----- release

  /** Everything but coherence and the agreement of one buffer's own flags. */
  ghost predicate InvBut(s: State, b: nat) {
    && Shape(s) && Listed(s) && OneEach(s.c.bufs)
    && (forall a {:trigger BufOk(s, a)} :: 0 <= a < |s.c.bufs| && a != b ==> BufOk(s, a))
    && (forall p {:trigger ProcOk(s, p)} :: 0 <= p < |s.procs| ==> ProcOk(s, p))
  }

  /** A busy buffer nobody waits on for its transfer may be released. */
  ghost predicate Releasable(s: State, b: nat) {
    && b < |s.c.bufs| && s.c.bufs[b].busy && b !in s.c.q
    && (s.c.bufs[b].delwri ==> s.c.bufs[b].done && s.c.bufs[b].dev >= 0)
    && forall p :: 0 <= p < |s.procs| && s.procs[p].OnIo? ==> s.procs[p].b != b
  }

  lemma ReleaseCoherent(s: State, b: nat)
    requires Shape(s) && Coherent(s) && b < |s.c.bufs| && b !in s.c.q
    ensures Coherent(DoRelease(s, b))
  {
    var s' := DoRelease(s, b);
    forall a {:trigger Current(s'.c, a)} | 0 <= a < |s'.c.bufs| && Current(s'.c, a)
      ensures s'.c.bufs[a].data == s'.given[s'.c.bufs[a].Block()]
    {
      assert Current(s.c, a);
    }
    forall k: Key {:trigger s'.c.disk[k]} | k.dev >= 0 && s'.c.disk[k] != s'.given[k]
      ensures exists a :: 0 <= a < |s'.c.bufs| && s'.c.bufs[a].Block() == k && Pending(s'.c, a)
    {
      var a :| 0 <= a < |s.c.bufs| && s.c.bufs[a].Block() == k && Pending(s.c, a);
      assert s'.c.bufs[a].Block() == k && Pending(s'.c, a);
    }
  }

  lemma ReleaseKeepsInv(s: State, b: nat)
    requires InvBut(s, b) && Coherent(s) && Releasable(s, b)
    ensures Inv(DoRelease(s, b))
  {
    var s' := DoRelease(s, b);
    ReleaseCoherent(s, b);
    hide Coherent, Current, Pending;
    assert Listed(s') by { ReleaseListed(s, b); }
    forall a {:trigger BufOk(s', a)} | 0 <= a < |s'.c.bufs| ensures BufOk(s', a) {
      if a != b { ReleaseBufOk(s, b, a); }
    }
    forall p {:trigger ProcOk(s', p)} | 0 <= p < |s'.procs| ensures ProcOk(s', p) {
      ReleaseProcOk(s, b, p);
    }
  }

  lemma ReleaseListed(s: State, b: nat)
    requires Shape(s) && Listed(s) && b < |s.c.bufs| && s.c.bufs[b].busy
    ensures Listed(DoRelease(s, b))
  {
  }

  lemma ReleaseBufOk(s: State, b: nat, a: nat)
    requires Shape(s) && b < |s.c.bufs| && a < |s.c.bufs| && a != b && BufOk(s, a)
    ensures BufOk(DoRelease(s, b), a)
  {
  }

  lemma ReleaseProcOk(s: State, b: nat, p: nat)
    requires Shape(s) && Releasable(s, b) && p < |s.procs| && ProcOk(s, p)
    ensures ProcOk(DoRelease(s, b), p)
  {
  }

  // ----- the simple events

  lemma WantKeepsInv(s: State, e: Event)
    requires Inv(s) && e.Want? && Enabled(s, e)
    ensures Inv(Next(s, e))
  {
    var s' := Next(s, e);
    assert forall b :: 0 <= b < |s.c.bufs| ==> BufOk(s, b);
    forall p {:trigger ProcOk(s', p)} | 0 <= p < |s'.procs| ensures ProcOk(s', p) { assert ProcOk(s, p); }
    forall b {:trigger BufOk(s', b)} | 0 <= b < |s'.c.bufs| ensures BufOk(s', b) { assert BufOk(s, b); }
  }

  lemma BrelseKeepsInv(s: State, e: Event)
    requires Inv(s) && e.Brelse? && Enabled(s, e)
    ensures Inv(Next(s, e))
  {
    HeldIsIdle(s, e.p, e.b);
    ReleaseKeepsInv(s, e.b);
  }

  /** What a running process holds is not on the queue, and nobody waits on it. */
  lemma HeldIsIdle(s: State, p: nat, b: nat)
    requires Inv(s) && p < |s.procs| && s.procs[p] == Running && b < |s.c.bufs| && s.owner[b] == Held(p)
    ensures Releasable(s, b) && !s.c.bufs[b].async
  {
    assert BufOk(s, b);
    forall q | 0 <= q < |s.procs| && s.procs[q].OnIo? ensures s.procs[q].b != b {
      assert ProcOk(s, q);
    }
  }

  // ----- starting a transfer

  /** A busy buffer off the queue starts to be written: for process `p`, which
      then waits, or for nobody. */
  ghost function WriteOut(s: State, b: nat, async: bool, p: nat): State
    requires b < |s.c.bufs| && b < |s.owner| && (!async ==> p < |s.procs|)
  {
    if async then s.(c := StartWrite(s.c, b, true), owner := s.owner[b := Driver])
    else s.(c := StartWrite(s.c, b, false), procs := s.procs[p := OnIo(s.c.bufs[b].Block(), b, true, false)])
  }

  /** Coherent but for a buffer whose block has just been given new contents. */
  ghost predicate CoherentBut(s: State, b: nat)
    requires Shape(s) && b < |s.c.bufs|
  {
    && s.c.bufs[b].data == s.given[s.c.bufs[b].Block()]
    && (forall a {:trigger Current(s.c, a)} :: 0 <= a < |s.c.bufs| && a != b && Current(s.c, a) ==>
          s.c.bufs[a].data == s.given[s.c.bufs[a].Block()])
    && (forall k: Key {:trigger s.c.disk[k]} :: k.dev >= 0 && k != s.c.bufs[b].Block() && s.c.disk[k] != s.given[k] ==>
          exists a :: 0 <= a < |s.c.bufs| && s.c.bufs[a].Block() == k && Pending(s.c, a))
  }

  lemma WriteOutCoherent(s: State, b: nat, async: bool)
    requires Shape(s) && b < |s.c.bufs| && b !in s.c.q && s.c.bufs[b].dev >= 0 && CoherentBut(s, b)
    ensures Coherent(s.(c := StartWrite(s.c, b, async)))
  {
    var s' := s.(c := StartWrite(s.c, b, async));
    forall a {:trigger Current(s'.c, a)} | 0 <= a < |s'.c.bufs| && Current(s'.c, a)
      ensures s'.c.bufs[a].data == s'.given[s'.c.bufs[a].Block()]
    {
      if a != b { assert Current(s.c, a); }
    }
    forall k: Key {:trigger s'.c.disk[k]} | k.dev >= 0 && s'.c.disk[k] != s'.given[k]
      ensures exists a :: 0 <= a < |s'.c.bufs| && s'.c.bufs[a].Block() == k && Pending(s'.c, a)
    {
      if k == s.c.bufs[b].Block() {
        assert Pending(s'.c, b);
      } else {
        var a :| 0 <= a < |s.c.bufs| && s.c.bufs[a].Block() == k && Pending(s.c, a);
        assert s'.c.bufs[a].Block() == k && Pending(s'.c, a);
      }
    }
  }

  lemma WriteOutKeepsInv(s: State, b: nat, async: bool, p: nat)
    requires InvBut(s, b) && Releasable(s, b) && s.c.bufs[b].dev >= 0 && CoherentBut(s, b)
    requires !async ==>
               p < |s.procs| && s.procs[p] == Running && s.owner[b] == Held(p) && !s.c.bufs[b].async
    ensures Inv(WriteOut(s, b, async, p))
  {
    var s' := WriteOut(s, b, async, p);
    WriteOutCoherent(s, b, async);
    hide Coherent, CoherentBut, Current, Pending;
    forall a {:trigger BufOk(s', a)} | 0 <= a < |s'.c.bufs| ensures BufOk(s', a) {
      WriteOutBufOk(s, b, async, p, a);
    }
    forall q {:trigger ProcOk(s', q)} | 0 <= q < |s'.procs| ensures ProcOk(s', q) {
      WriteOutProcOk(s, b, async, p, q);
    }
  }

  lemma WriteOutBufOk(s: State, b: nat, async: bool, p: nat, a: nat)
    requires Shape(s) && Releasable(s, b) && s.c.bufs[b].dev >= 0 && a < |s.c.bufs| && (a != b ==> BufOk(s, a))
    requires !async ==>
               p < |s.procs| && s.procs[p] == Running && s.owner[b] == Held(p) && !s.c.bufs[b].async
    ensures BufOk(WriteOut(s, b, async, p), a)
  {
  }

  lemma WriteOutProcOk(s: State, b: nat, async: bool, p: nat, q: nat)
    requires Shape(s) && Releasable(s, b) && s.c.bufs[b].dev >= 0 && q < |s.procs| && ProcOk(s, q)
    requires !async ==>
               p < |s.procs| && s.procs[p] == Running && s.owner[b] == Held(p) && !s.c.bufs[b].async
    ensures ProcOk(WriteOut(s, b, async, p), q)
  {
  }

  // ----- writes

  /** The block's new contents, in the buffer and on record. */
  ghost function Give(s: State, b: nat, data: Data): State
    requires b < |s.c.bufs|
  {
    s.(c := s.c.(bufs := s.c.bufs[b := s.c.bufs[b].(data := data)]), given := s.given[s.c.bufs[b].Block() := data])
  }

  lemma GiveCoherentBut(s: State, b: nat, data: Data)
    requires Inv(s) && b < |s.c.bufs| && s.c.bufs[b].dev >= 0 && b !in s.c.q
    ensures InvBut(Give(s, b, data), b) && CoherentBut(Give(s, b, data), b)
  {
    var s' := Give(s, b, data);
    forall a {:trigger BufOk(s', a)} | 0 <= a < |s'.c.bufs| && a != b ensures BufOk(s', a) { assert BufOk(s, a); }
    forall p {:trigger ProcOk(s', p)} | 0 <= p < |s'.procs| ensures ProcOk(s', p) { assert ProcOk(s, p); }
    forall a {:trigger Current(s'.c, a)} | 0 <= a < |s'.c.bufs| && a != b && Current(s'.c, a)
      ensures s'.c.bufs[a].data == s'.given[s'.c.bufs[a].Block()]
    {
      assert Current(s.c, a);
    }
    forall k: Key {:trigger s'.c.disk[k]} | k.dev >= 0 && k != s'.c.bufs[b].Block() && s'.c.disk[k] != s'.given[k]
      ensures exists a :: 0 <= a < |s'.c.bufs| && s'.c.bufs[a].Block() == k && Pending(s'.c, a)
    {
      var a :| 0 <= a < |s.c.bufs| && s.c.bufs[a].Block() == k && Pending(s.c, a);
      assert s'.c.bufs[a].Block() == k && Pending(s'.c, a);
    }
  }

  lemma WriteKeepsInv(s: State, e: Event)
    requires Inv(s) && e.Write? && Enabled(s, e)
    ensures Inv(Next(s, e))
  {
    var s1 := Give(s, e.b, e.data);
    HeldIsIdle(s, e.p, e.b);
    GiveCoherentBut(s, e.b, e.data);
    match e.kind
    case Sync =>
      WriteOutKeepsInv(s1, e.b, false, e.p);
    case Async =>
      WriteOutKeepsInv(s1, e.b, true, e.p);
    case Delayed =>
      var h := s1.c.bufs[e.b].(delwri := true, done := true);
      var s2 := s1.(c := s1.c.(bufs := s1.c.bufs[e.b := h]));
      DelayedCoherent(s1, e.b, s2);
      ReleaseKeepsInv(s2, e.b);
  }

  lemma DelayedCoherent(s: State, b: nat, s': State)
    requires InvBut(s, b) && b < |s.c.bufs| && CoherentBut(s, b) && Releasable(s, b) && s.c.bufs[b].dev >= 0
    requires s' == s.(c := s.c.(bufs := s.c.bufs[b := s.c.bufs[b].(delwri := true, done := true)]))
    ensures InvBut(s', b) && Coherent(s') && Releasable(s', b)
  {
    forall a {:trigger BufOk(s', a)} | 0 <= a < |s'.c.bufs| && a != b ensures BufOk(s', a) { assert BufOk(s, a); }
    forall p {:trigger ProcOk(s', p)} | 0 <= p < |s'.procs| ensures ProcOk(s', p) { assert ProcOk(s, p); }
    forall a {:trigger Current(s'.c, a)} | 0 <= a < |s'.c.bufs| && Current(s'.c, a)
      ensures s'.c.bufs[a].data == s'.given[s'.c.bufs[a].Block()]
    {
      if a != b { assert Current(s.c, a); }
    }
    forall k: Key {:trigger s'.c.disk[k]} | k.dev >= 0 && s'.c.disk[k] != s'.given[k]
      ensures exists a :: 0 <= a < |s'.c.bufs| && s'.c.bufs[a].Block() == k && Pending(s'.c, a)
    {
      if k == s.c.bufs[b].Block() {
        assert Pending(s'.c, b);
      } else {
        var a :| 0 <= a < |s.c.bufs| && s.c.bufs[a].Block() == k && Pending(s.c, a);
        assert s'.c.bufs[a].Block() == k && Pending(s'.c, a);
      }
    }
  }

  // ----- waiting for a transfer

  /** A process whose transfer is done goes on, still holding the buffer. */
  lemma DoneKeepsInv(s: State, p: nat)
    requires Inv(s) && p < |s.procs| && s.procs[p].OnIo? && s.procs[p].b < |s.c.bufs| && s.c.bufs[s.procs[p].b].done
    ensures var b := s.procs[p].b; var s' := s.(procs := s.procs[p := Running]);
            Inv(s') && Releasable(s', b) && s.owner[b] == Held(p)
  {
    var b := s.procs[p].b;
    var s' := s.(procs := s.procs[p := Running]);
    assert ProcOk(s, p) && BufOk(s, b);
    CoherentSame(s, s');
    hide Coherent, Current, Pending;
    forall a {:trigger BufOk(s', a)} | 0 <= a < |s'.c.bufs| ensures BufOk(s', a) { assert BufOk(s, a); }
    forall q {:trigger ProcOk(s', q)} | 0 <= q < |s'.procs| ensures ProcOk(s', q) { assert ProcOk(s, q); }
    forall q | 0 <= q < |s'.procs| && s'.procs[q].OnIo? ensures s'.procs[q].b != b { assert ProcOk(s, q); }
  }

  lemma CoherentSame(s: State, s': State)
    requires Coherent(s) && s'.c == s.c && s'.given == s.given
    ensures Coherent(s')
  {
  }

  lemma SleepKeepsInv(s: State, p: nat)
    requires Inv(s) && p < |s.procs| && s.procs[p].OnIo? && s.procs[p].b < |s.c.bufs| && !s.c.bufs[s.procs[p].b].done
    ensures Inv(s.(procs := s.procs[p := s.procs[p].(asleep := true)]))
  {
    var s' := s.(procs := s.procs[p := s.procs[p].(asleep := true)]);
    assert ProcOk(s, p);
    CoherentSame(s, s');
    hide Coherent, Current, Pending;
    forall a {:trigger BufOk(s', a)} | 0 <= a < |s'.c.bufs| ensures BufOk(s', a) { assert BufOk(s, a); }
    forall q {:trigger ProcOk(s', q)} | 0 <= q < |s'.procs| ensures ProcOk(s', q) { assert ProcOk(s, q); }
  }

  lemma IowaitKeepsInv(s: State, e: Event)
    requires Inv(s) && e.Iowait? && Enabled(s, e)
    ensures Inv(Next(s, e))
  {
    hide Inv, DoRelease;
    if s.c.bufs[s.procs[e.p].b].done {
      DoneKeepsInv(s, e.p);
      if s.procs[e.p].writing {
        InvIsBut(s.(procs := s.procs[e.p := Running]), s.procs[e.p].b);
        ReleaseKeepsInv(s.(procs := s.procs[e.p := Running]), s.procs[e.p].b);
      }
    } else {
      SleepKeepsInv(s, e.p);
    }
  }

  lemma InvIsBut(s: State, b: nat)
    requires Inv(s)
    ensures InvBut(s, b) && Coherent(s)
  {
  }

  // ----- taking a buffer

  /** A buffer taken from the available list by process `p`, its header now `h`. */
  ghost function Taken(s: State, p: nat, b: nat, h: Buf): State
    requires b < |s.c.bufs| && b < |s.owner| && p < |s.procs|
  {
    s.(c := s.c.(bufs := s.c.bufs[b := h], avail := Without(s.c.avail, b)),
       procs := s.procs[p := Running], owner := s.owner[b := Held(p)])
  }

  /** The same buffer taken for its own block, or a clean one for another. */
  ghost predicate MayTake(s: State, p: nat, b: nat, h: Buf)
    requires Shape(s)
  {
    && b < |s.c.bufs| && b in s.c.avail && p < |s.procs| && s.procs[p].Getting?
    && (h == s.c.bufs[b].(busy := true) ||
        (!s.c.bufs[b].delwri && h == Buf(h.dev, h.blk, true, false, false, false, false, false, s.c.bufs[b].data)
         && (h.dev >= 0 ==> forall a :: 0 <= a < |s.c.bufs| ==> s.c.bufs[a].Block() != h.Block())))
  }

  lemma TakenCoherent(s: State, p: nat, b: nat, h: Buf)
    requires Inv(s) && MayTake(s, p, b, h)
    ensures Coherent(Taken(s, p, b, h))
  {
    var s' := Taken(s, p, b, h);
    assert BufOk(s, b);
    forall a {:trigger Current(s'.c, a)} | 0 <= a < |s'.c.bufs| && Current(s'.c, a)
      ensures s'.c.bufs[a].data == s'.given[s'.c.bufs[a].Block()]
    {
      assert Current(s.c, a);
    }
    forall k: Key {:trigger s'.c.disk[k]} | k.dev >= 0 && s'.c.disk[k] != s'.given[k]
      ensures exists a :: 0 <= a < |s'.c.bufs| && s'.c.bufs[a].Block() == k && Pending(s'.c, a)
    {
      var a :| 0 <= a < |s.c.bufs| && s.c.bufs[a].Block() == k && Pending(s.c, a);
      assert s'.c.bufs[a].Block() == k && Pending(s'.c, a);
    }
  }

  lemma TakenBufOk(s: State, p: nat, b: nat, h: Buf, a: nat)
    requires Shape(s) && MayTake(s, p, b, h) && a < |s.c.bufs| && BufOk(s, a) && BufOk(s, b)
    requires !s.c.bufs[b].busy && s.procs[p].Getting?
    ensures BufOk(Taken(s, p, b, h), a)
  {
  }

  lemma TakenProcOk(s: State, p: nat, b: nat, h: Buf, q: nat)
    requires Shape(s) && MayTake(s, p, b, h) && q < |s.procs| && ProcOk(s, q) && BufOk(s, b)
    requires !s.c.bufs[b].busy
    ensures ProcOk(Taken(s, p, b, h), q)
  {
  }

  lemma TakenListed(s: State, p: nat, b: nat, h: Buf)
    requires Shape(s) && Listed(s) && MayTake(s, p, b, h)
    ensures Listed(Taken(s, p, b, h)) && Shape(Taken(s, p, b, h))
  {
    WithoutDistinct(s.c.avail, b);
    var s' := Taken(s, p, b, h);
    assert s'.c.avail == Without(s.c.avail, b);
    forall i | 0 <= i < |s'.c.avail| ensures s'.c.avail[i] < |s'.c.bufs| {
      assert s'.c.avail[i] in s'.c.avail;
    }
  }

  lemma {:induction false} WithoutDistinct(t: seq<nat>, b: nat)
    requires forall i, j :: 0 <= i < j < |t| ==> t[i] != t[j]
    ensures forall i, j :: 0 <= i < j < |Without(t, b)| ==> Without(t, b)[i] != Without(t, b)[j]
  {
    if t != [] {
      var rest, r := Without(t[1..], b), Without(t, b);
      WithoutDistinct(t[1..], b);
      forall i, j | 0 <= i < j < |r| ensures r[i] != r[j] {
        if t[0] != b {
          assert r == [t[0]] + rest;
          assert r[j] == rest[j-1] && rest[j-1] in rest;
          var m :| 0 <= m < |t[1..]| && t[1..][m] == rest[j-1];
          assert t[m+1] != t[0];
          if i > 0 { assert rest[i-1] != rest[j-1]; }
        } else {
          assert r == rest;
        }
      }
    }
  }

  lemma TakenKeepsInv(s: State, p: nat, b: nat, h: Buf)
    requires Inv(s) && MayTake(s, p, b, h)
    ensures Inv(Taken(s, p, b, h))
  {
    var s' := Taken(s, p, b, h);
    assert BufOk(s, b) && !s.c.bufs[b].busy;
    TakenCoherent(s, p, b, h);
    TakenListed(s, p, b, h);
    hide Coherent, Current, Pending, Listed;
    forall a {:trigger BufOk(s', a)} | 0 <= a < |s'.c.bufs| ensures BufOk(s', a) {
      assert BufOk(s, a);
      TakenBufOk(s, p, b, h, a);
    }
    forall q {:trigger ProcOk(s', q)} | 0 <= q < |s'.procs| ensures ProcOk(s', q) {
      assert ProcOk(s, q);
      TakenProcOk(s, p, b, h, q);
    }
  }

  // ----- reading in

  /** A held buffer without its contents starts to be read: for its holder, or
      ahead of anyone. */
  ghost function ReadIn(s: State, b: nat, async: bool, p: nat): State
    requires b < |s.c.bufs| && b < |s.owner| && p < |s.procs|
  {
    if async then s.(c := StartRead(s.c, b, true), owner := s.owner[b := Driver])
    else s.(c := StartRead(s.c, b, false), procs := s.procs[p := OnIo(s.c.bufs[b].Block(), b, false, false)])
  }

  ghost predicate MayRead(s: State, b: nat, p: nat)
    requires Shape(s)
  {
    && p < |s.procs| && s.procs[p] == Running && b < |s.c.bufs| && s.owner[b] == Held(p)
    && !s.c.bufs[b].done && s.c.bufs[b].dev >= 0
  }

  lemma ReadInCoherent(s: State, b: nat, async: bool, p: nat)
    requires Inv(s) && MayRead(s, b, p)
    ensures Coherent(ReadIn(s, b, async, p))
  {
    var s' := ReadIn(s, b, async, p);
    HeldIsIdle(s, p, b);
    assert BufOk(s, b);
    forall a {:trigger Current(s'.c, a)} | 0 <= a < |s'.c.bufs| && Current(s'.c, a)
      ensures s'.c.bufs[a].data == s'.given[s'.c.bufs[a].Block()]
    {
      assert Current(s.c, a);
    }
    forall k: Key {:trigger s'.c.disk[k]} | k.dev >= 0 && s'.c.disk[k] != s'.given[k]
      ensures exists a :: 0 <= a < |s'.c.bufs| && s'.c.bufs[a].Block() == k && Pending(s'.c, a)
    {
      var a :| 0 <= a < |s.c.bufs| && s.c.bufs[a].Block() == k && Pending(s.c, a);
      assert s'.c.bufs[a].Block() == k && Pending(s'.c, a);
    }
  }

  lemma ReadInBufOk(s: State, b: nat, async: bool, p: nat, a: nat)
    requires Shape(s) && MayRead(s, b, p) && Releasable(s, b) && !s.c.bufs[b].async && a < |s.c.bufs|
    requires BufOk(s, a) && BufOk(s, b)
    ensures BufOk(ReadIn(s, b, async, p), a)
  {
  }

  lemma ReadInProcOk(s: State, b: nat, async: bool, p: nat, q: nat)
    requires Shape(s) && MayRead(s, b, p) && Releasable(s, b) && q < |s.procs| && ProcOk(s, q)
    ensures ProcOk(ReadIn(s, b, async, p), q)
  {
  }

  lemma ReadInKeepsInv(s: State, b: nat, async: bool, p: nat)
    requires Inv(s) && MayRead(s, b, p)
    ensures Inv(ReadIn(s, b, async, p))
  {
    var s' := ReadIn(s, b, async, p);
    ReadInCoherent(s, b, async, p);
    HeldIsIdle(s, p, b);
    hide Coherent, Current, Pending;
    forall a {:trigger BufOk(s', a)} | 0 <= a < |s'.c.bufs| ensures BufOk(s', a) {
      assert BufOk(s, a) && BufOk(s, b);
      ReadInBufOk(s, b, async, p, a);
    }
    forall q {:trigger ProcOk(s', q)} | 0 <= q < |s'.procs| ensures ProcOk(s', q) {
      assert ProcOk(s, q);
      ReadInProcOk(s, b, async, p, q);
    }
  }

  // ----- the loop of getblk

  /** B_WANTED has no part in coherence. */
  lemma WantedCoherent(s: State, b: nat)
    requires Shape(s) && Coherent(s) && b < |s.c.bufs|
    ensures Coherent(s.(c := s.c.(bufs := s.c.bufs[b := s.c.bufs[b].(wanted := true)])))
  {
    var s' := s.(c := s.c.(bufs := s.c.bufs[b := s.c.bufs[b].(wanted := true)]));
    forall a {:trigger Current(s'.c, a)} | 0 <= a < |s'.c.bufs| && Current(s'.c, a)
      ensures s'.c.bufs[a].data == s'.given[s'.c.bufs[a].Block()] { assert Current(s.c, a); }
    forall k: Key {:trigger s'.c.disk[k]} | k.dev >= 0 && s'.c.disk[k] != s'.given[k]
      ensures exists a :: 0 <= a < |s'.c.bufs| && s'.c.bufs[a].Block() == k && Pending(s'.c, a)
    {
      var a :| 0 <= a < |s.c.bufs| && s.c.bufs[a].Block() == k && Pending(s.c, a);
      assert s'.c.bufs[a].Block() == k && Pending(s'.c, a);
    }
  }

  /** Asleep in getblk on a busy buffer. */
  lemma OnBufKeepsInv(s: State, p: nat, b: nat)
    requires Inv(s) && p < |s.procs| && s.procs[p].Getting? && s.procs[p].dev >= 0
    requires b < |s.c.bufs| && s.c.bufs[b].busy
    ensures Inv(s.(c := s.c.(bufs := s.c.bufs[b := s.c.bufs[b].(wanted := true)]),
                   procs := s.procs[p := OnBuf(s.procs[p].dev, s.procs[p].blk, s.procs[p].why, b)]))
  {
    var s1 := s.(c := s.c.(bufs := s.c.bufs[b := s.c.bufs[b].(wanted := true)]));
    var s' := s1.(procs := s.procs[p := OnBuf(s.procs[p].dev, s.procs[p].blk, s.procs[p].why, b)]);
    WantedCoherent(s, b);
    CoherentSame(s1, s');
    hide Coherent, Current, Pending;
    assert ProcOk(s, p);
    forall a {:trigger BufOk(s', a)} | 0 <= a < |s'.c.bufs| ensures BufOk(s', a) { assert BufOk(s, a); }
    forall q {:trigger ProcOk(s', q)} | 0 <= q < |s'.procs| ensures ProcOk(s', q) { assert ProcOk(s, q); }
  }

  /** Asleep in getblk on the empty list. */
  lemma OnFreeKeepsInv(s: State, p: nat)
    requires Inv(s) && p < |s.procs| && s.procs[p].Getting? && s.c.avail == []
    ensures Inv(s.(c := s.c.(fwant := true),
                   procs := s.procs[p := OnFree(s.procs[p].dev, s.procs[p].blk, s.procs[p].why)]))
  {
    var s' := s.(c := s.c.(fwant := true),
                 procs := s.procs[p := OnFree(s.procs[p].dev, s.procs[p].blk, s.procs[p].why)]);
    FwantCoherent(s, s');
    hide Coherent, Current, Pending;
    assert ProcOk(s, p);
    forall a {:trigger BufOk(s', a)} | 0 <= a < |s'.c.bufs| ensures BufOk(s', a) { assert BufOk(s, a); }
    forall q {:trigger ProcOk(s', q)} | 0 <= q < |s'.procs| ensures ProcOk(s', q) { assert ProcOk(s, q); }
  }

  lemma FwantCoherent(s: State, s': State)
    requires Shape(s) && Coherent(s) && s'.c == s.c.(fwant := true) && s'.given == s.given
    ensures Coherent(s')
  {
    forall a {:trigger Current(s'.c, a)} | 0 <= a < |s'.c.bufs| && Current(s'.c, a)
      ensures s'.c.bufs[a].data == s'.given[s'.c.bufs[a].Block()] { assert Current(s.c, a); }
    forall k: Key {:trigger s'.c.disk[k]} | k.dev >= 0 && s'.c.disk[k] != s'.given[k]
      ensures exists a :: 0 <= a < |s'.c.bufs| && s'.c.bufs[a].Block() == k && Pending(s'.c, a)
    {
      var a :| 0 <= a < |s.c.bufs| && s.c.bufs[a].Block() == k && Pending(s.c, a);
      assert s'.c.bufs[a].Block() == k && Pending(s'.c, a);
    }
  }

  /** A delayed write goes out: from the loop of getblk, or from bflush. */
  lemma EvictKeepsInv(s: State, b: nat)
    requires Inv(s) && b in s.c.avail && s.c.bufs[b].delwri
    ensures Inv(s.(c := StartWrite(Notavail(s.c, b), b, true), owner := s.owner[b := Driver]))
  {
    var s1 := s.(c := Notavail(s.c, b));
    assert BufOk(s, b);
    EvictBut(s, b);
    WriteOutKeepsInv(s1, b, true, 0);
  }

  lemma EvictBut(s: State, b: nat)
    requires Inv(s) && b in s.c.avail && s.c.bufs[b].delwri
    ensures var s1 := s.(c := Notavail(s.c, b));
            InvBut(s1, b) && Releasable(s1, b) && CoherentBut(s1, b) && s1.c.bufs[b].dev >= 0
  {
    var s1 := s.(c := Notavail(s.c, b));
    assert BufOk(s, b);
    assert Current(s.c, b);
    EvictCoherentBut(s, b);
    WithoutDistinct(s.c.avail, b);
    assert s1.c.avail == Without(s.c.avail, b);
    hide Coherent, CoherentBut, Current, Pending;
    forall i | 0 <= i < |s1.c.avail| ensures s1.c.avail[i] < |s1.c.bufs| { assert s1.c.avail[i] in s1.c.avail; }
    forall a {:trigger BufOk(s1, a)} | 0 <= a < |s1.c.bufs| && a != b ensures BufOk(s1, a) { assert BufOk(s, a); }
    forall q {:trigger ProcOk(s1, q)} | 0 <= q < |s1.procs| ensures ProcOk(s1, q) { assert ProcOk(s, q); }
    forall q | 0 <= q < |s1.procs| && s1.procs[q].OnIo? ensures s1.procs[q].b != b { assert ProcOk(s, q); }
  }

  lemma EvictCoherentBut(s: State, b: nat)
    requires Shape(s) && Coherent(s) && b < |s.c.bufs| && Current(s.c, b)
    ensures Shape(s.(c := Notavail(s.c, b))) && CoherentBut(s.(c := Notavail(s.c, b)), b)
  {
    var s1 := s.(c := Notavail(s.c, b));
    forall i | 0 <= i < |s1.c.avail| ensures s1.c.avail[i] < |s1.c.bufs| { assert s1.c.avail[i] in s1.c.avail; }
    forall a {:trigger Current(s1.c, a)} | 0 <= a < |s1.c.bufs| && a != b && Current(s1.c, a)
      ensures s1.c.bufs[a].data == s1.given[s1.c.bufs[a].Block()] { assert Current(s.c, a); }
    forall k: Key {:trigger s1.c.disk[k]} | k.dev >= 0 && k != s1.c.bufs[b].Block() && s1.c.disk[k] != s1.given[k]
      ensures exists a :: 0 <= a < |s1.c.bufs| && s1.c.bufs[a].Block() == k && Pending(s1.c, a)
    {
      var a :| 0 <= a < |s.c.bufs| && s.c.bufs[a].Block() == k && Pending(s.c, a);
      assert s1.c.bufs[a].Block() == k && Pending(s1.c, a);
    }
  }

  /** Out of getblk with a buffer. */
  lemma AfterKeepsInv(s: State, p: nat, b: nat, h: Buf, why: Why)
    requires Inv(s) && MayTake(s, p, b, h) && (why != Raw ==> h.dev >= 0)
    ensures var c' := s.c.(bufs := s.c.bufs[b := h], avail := Without(s.c.avail, b));
            Inv(After(s.(c := c'), p, b, why))
  {
    var t := Taken(s, p, b, h);
    TakenKeepsInv(s, p, b, h);
    var c' := s.c.(bufs := s.c.bufs[b := h], avail := Without(s.c.avail, b));
    var s1 := s.(c := c');
    hide Inv, BufOk, ProcOk, Coherent, Listed, OneEach;
    assert t.owner[b] == Held(p) && t.procs[p] == Running;
    if why == Read && !h.done {
      TakenShape(t);
      ReadInKeepsInv(t, b, false, p);
      assert After(s1, p, b, why) == ReadIn(t, b, false, p);
    } else if why == Ahead && !h.done {
      TakenShape(t);
      ReadInKeepsInv(t, b, true, p);
      assert After(s1, p, b, why) == ReadIn(t, b, true, p);
    } else if why == Ahead {
      HeldIsIdle(t, p, b);
      InvIsBut(t, b);
      ReleaseKeepsInv(t, b);
      assert After(s1, p, b, why) == DoRelease(t, b);
    } else {
      assert After(s1, p, b, why) == t;
    }
  }

  lemma TakenShape(s: State)
    requires Inv(s)
    ensures Shape(s)
  {
  }

  lemma LoopKeepsInv(s: State, e: Event)
    requires Inv(s) && e.Loop? && Enabled(s, e)
    ensures Inv(Next(s, e))
  {
    var p := e.p;
    var Getting(dev, blk, why) := s.procs[p];
    assert ProcOk(s, p);
    var b := Find(s.c.bufs, dev, blk);
    if dev >= 0 && b < |s.c.bufs| {
      if s.c.bufs[b].busy {
        OnBufKeepsInv(s, p, b);
      } else {
        assert b in s.c.avail;
        AfterKeepsInv(s, p, b, s.c.bufs[b].(busy := true), why);
      }
    } else if s.c.avail == [] {
      OnFreeKeepsInv(s, p);
    } else {
      var f := s.c.avail[0];
      assert f in s.c.avail;
      if s.c.bufs[f].delwri {
        EvictKeepsInv(s, f);
      } else {
        AfterKeepsInv(s, p, f, Buf(dev, blk, true, false, false, false, false, false, s.c.bufs[f].data), why);
      }
    }
  }

  // ----- completion

  /** The transfer at the head of the queue has been made. */
  ghost function Moved(s: State): State
    requires Shape(s) && s.c.q != []
  {
    var b := s.c.q[0];
    var h := s.c.bufs[b];
    var h' := h.(done := true, data := if h.read then s.c.disk[h.Block()] else h.data);
    s.(c := s.c.(bufs := s.c.bufs[b := h'], q := s.c.q[1..],
                 disk := if h.read then s.c.disk else s.c.disk[h.Block() := h.data]))
  }

  /** A block whose buffer has no write pending is right on the disk. */
  lemma DiskIsRight(s: State, b: nat)
    requires Inv(s) && b < |s.c.bufs| && s.c.bufs[b].dev >= 0 && !Pending(s.c, b)
    ensures s.c.disk[s.c.bufs[b].Block()] == s.given[s.c.bufs[b].Block()]
  {
    var k := s.c.bufs[b].Block();
    assert forall a :: 0 <= a < |s.c.bufs| && s.c.bufs[a].Block() == k ==> a == b;
  }

  lemma QueueTail(q: seq<nat>)
    requires q != [] && forall i, j :: 0 <= i < j < |q| ==> q[i] != q[j]
    ensures q[0] !in q[1..]
    ensures forall x :: x in q[1..] <==> x in q && x != q[0]
  {
    forall x | x in q && x != q[0] ensures x in q[1..] {
      var i :| 0 <= i < |q| && q[i] == x;
      assert q[1..][i-1] == x;
    }
  }

  lemma MovedCoherent(s: State)
    requires Inv(s) && s.c.q != []
    ensures Coherent(Moved(s))
  {
    var s' := Moved(s);
    var b := s.c.q[0];
    var h := s.c.bufs[b];
    QueueTail(s.c.q);
    assert BufOk(s, b);
    if h.read {
      assert !Pending(s.c, b);
      DiskIsRight(s, b);
    } else {
      assert Current(s.c, b);
    }
    forall a {:trigger Current(s'.c, a)} | 0 <= a < |s'.c.bufs| && Current(s'.c, a)
      ensures s'.c.bufs[a].data == s'.given[s'.c.bufs[a].Block()]
    {
      if a != b { assert Current(s.c, a); }
    }
    forall k: Key {:trigger s'.c.disk[k]} | k.dev >= 0 && s'.c.disk[k] != s'.given[k]
      ensures exists a :: 0 <= a < |s'.c.bufs| && s'.c.bufs[a].Block() == k && Pending(s'.c, a)
    {
      assert s.c.disk[k] != s.given[k];
      var a :| 0 <= a < |s.c.bufs| && s.c.bufs[a].Block() == k && Pending(s.c, a);
      assert a != b;
      assert s'.c.bufs[a].Block() == k && Pending(s'.c, a);
    }
  }

  lemma MovedKeeps(s: State)
    requires Inv(s) && s.c.q != []
    ensures var s' := Moved(s); var b := s.c.q[0];
            && Shape(s') && Listed(s') && OneEach(s'.c.bufs)
            && (forall a {:trigger BufOk(s', a)} :: 0 <= a < |s'.c.bufs| && a != b ==> BufOk(s', a))
            && b !in s'.c.q && s'.c.bufs[b].busy && !s'.c.bufs[b].delwri && s'.c.bufs[b].dev >= 0
  {
    var s' := Moved(s);
    var b := s.c.q[0];
    QueueTail(s.c.q);
    assert BufOk(s, b);
    hide Coherent, Current, Pending;
    forall i | 0 <= i < |s'.c.q| ensures s'.c.q[i] < |s'.c.bufs| { assert s'.c.q[i] == s.c.q[i+1]; }
    forall a {:trigger BufOk(s', a)} | 0 <= a < |s'.c.bufs| && a != b ensures BufOk(s', a) { assert BufOk(s, a); }
  }

  /** Read-ahead or a write nobody waits for: the buffer is released. */
  lemma AsyncIntrKeepsInv(s: State)
    requires Inv(s) && s.c.q != [] && s.c.bufs[s.c.q[0]].async
    ensures Inv(IntrStep(s))
  {
    var s1 := Moved(s);
    var b := s.c.q[0];
    assert BufOk(s, b);
    MovedCoherent(s);
    MovedKeeps(s);
    QueueTail(s.c.q);
    hide Coherent, Current, Pending;
    forall p {:trigger ProcOk(s1, p)} | 0 <= p < |s1.procs| ensures ProcOk(s1, p) { assert ProcOk(s, p); }
    forall p | 0 <= p < |s1.procs| && s1.procs[p].OnIo? ensures s1.procs[p].b != b { assert ProcOk(s, p); }
    ReleaseKeepsInv(s1, b);
    assert IntrStep(s) == DoRelease(s1, b);
  }

  /** A transfer its process waits for: the process is woken. */
  lemma SyncIntrKeepsInv(s: State)
    requires Inv(s) && s.c.q != [] && !s.c.bufs[s.c.q[0]].async
    ensures Inv(IntrStep(s))
  {
    var s1, s' := Moved(s), IntrStep(s);
    var b := s.c.q[0];
    assert BufOk(s, b);
    MovedCoherent(s);
    MovedKeeps(s);
    QueueTail(s.c.q);
    UnwantedCoherent(s1, b, s');
    hide Coherent, Current, Pending, BufOk, ProcOk;
    assert BufOk(s, b);
    forall a {:trigger BufOk(s', a)} | 0 <= a < |s'.c.bufs| ensures BufOk(s', a) {
      assert BufOk(s, a);
      SyncBufOk(s, a);
    }
    forall p {:trigger ProcOk(s', p)} | 0 <= p < |s'.procs| ensures ProcOk(s', p) {
      assert ProcOk(s, p);
      SyncProcOk(s, p);
    }
  }

  lemma SyncBufOk(s: State, a: nat)
    requires Shape(s) && s.c.q != [] && !s.c.bufs[s.c.q[0]].async && a < |s.c.bufs|
    requires s.c.q[0] !in s.c.q[1..] && forall x :: x in s.c.q[1..] <==> x in s.c.q && x != s.c.q[0]
    requires BufOk(s, a) && BufOk(s, s.c.q[0])
    ensures BufOk(IntrStep(s), a)
  {
  }

  lemma SyncProcOk(s: State, p: nat)
    requires Shape(s) && s.c.q != [] && !s.c.bufs[s.c.q[0]].async && p < |s.procs|
    requires s.c.q[0] !in s.c.q[1..] && forall x :: x in s.c.q[1..] <==> x in s.c.q && x != s.c.q[0]
    requires ProcOk(s, p)
    ensures ProcOk(IntrStep(s), p)
  {
  }

  lemma UnwantedCoherent(s: State, b: nat, s': State)
    requires Shape(s) && Coherent(s) && b < |s.c.bufs| && s'.given == s.given
    requires s'.c == s.c.(bufs := s.c.bufs[b := s.c.bufs[b].(wanted := false)])
    ensures Coherent(s')
  {
    forall a {:trigger Current(s'.c, a)} | 0 <= a < |s'.c.bufs| && Current(s'.c, a)
      ensures s'.c.bufs[a].data == s'.given[s'.c.bufs[a].Block()] { assert Current(s.c, a); }
    forall k: Key {:trigger s'.c.disk[k]} | k.dev >= 0 && s'.c.disk[k] != s'.given[k]
      ensures exists a :: 0 <= a < |s'.c.bufs| && s'.c.bufs[a].Block() == k && Pending(s'.c, a)
    {
      var a :| 0 <= a < |s.c.bufs| && s.c.bufs[a].Block() == k && Pending(s.c, a);
      assert s'.c.bufs[a].Block() == k && Pending(s'.c, a);
    }
  }

  // ----- every run

  lemma NextKeepsInv(s: State, e: Event)
    requires Inv(s) && Enabled(s, e)
    ensures Inv(Next(s, e))
  {
    match e
    case Want(_, _, _, _) => WantKeepsInv(s, e);
    case Loop(_) => LoopKeepsInv(s, e);
    case Iowait(_) => IowaitKeepsInv(s, e);
    case Write(_, _, _, _) => WriteKeepsInv(s, e);
    case Brelse(_, _) => BrelseKeepsInv(s, e);
    case Flush(b) => EvictKeepsInv(s, b);
    case Interrupt => if s.c.bufs[s.c.q[0]].async { AsyncIntrKeepsInv(s); } else { SyncIntrKeepsInv(s); }
  }

  /** The state after binit: every buffer on the available list, unassociated. */
  ghost function Init(nbuf: nat, nproc: nat, disk: imap<Key, Data>): State {
    var bufs := seq(nbuf, _ => Buf(NODEV, 0, false, false, false, false, false, false, 0));
    State(Core(bufs, seq(nbuf, i => i), false, [], disk), seq(nproc, _ => Running), seq(nbuf, _ => Nobody), disk)
  }

  /** A run of events, each enabled where it happens. */
  ghost predicate Run(s: State, es: seq<Event>, s': State)
    decreases |es|
  {
    if es == [] then s' == s
    else Shape(s) && Enabled(s, es[0]) && Run(Next(s, es[0]), es[1..], s')
  }

  lemma InitInv(nbuf: nat, nproc: nat, disk: imap<Key, Data>)
    requires forall k: Key :: k in disk
    ensures Inv(Init(nbuf, nproc, disk))
  {
    var s := Init(nbuf, nproc, disk);
    forall b | 0 <= b < nbuf ensures b in s.c.avail { assert s.c.avail[b] == b; }
  }

  lemma {:induction false} RunKeepsInv(s: State, es: seq<Event>, s': State)
    requires Inv(s) && Run(s, es, s')
    ensures Inv(s')
    decreases |es|
  {
    if es != [] {
      NextKeepsInv(s, es[0]);
      RunKeepsInv(Next(s, es[0]), es[1..], s');
    }
  }

  /** Cache coherence: in every run from the start, when `p` comes out of bread
      with a buffer it is the block's, done, and has the contents last given to
      a write of the block, wherever those have got to. */
  lemma BreadSeesLastWrite(nbuf: nat, nproc: nat, disk: imap<Key, Data>, es: seq<Event>, s: State, e: Event, p: nat)
    returns (b: nat)
    requires (forall k: Key :: k in disk) && Run(Init(nbuf, nproc, disk), es, s)
    requires Shape(s) && Enabled(s, e) && p < |s.procs|
    requires (e == Loop(p) && s.procs[p].why == Read) || (e == Iowait(p) && !s.procs[p].writing)
    requires p < |Next(s, e).procs| && Next(s, e).procs[p] == Running
    ensures var s' := Next(s, e);
            && b < |s'.c.bufs| && b < |s'.owner| && s'.owner[b] == Held(p) && s'.c.bufs[b].done
            && s'.c.bufs[b].Block() == (if e.Loop? then Key(s.procs[p].dev, s.procs[p].blk) else s.procs[p].key)
            && s'.c.bufs[b].Block() in s'.given
            && s'.c.bufs[b].data == s'.given[s'.c.bufs[b].Block()]
  {
    InitInv(nbuf, nproc, disk);
    RunKeepsInv(Init(nbuf, nproc, disk), es, s);
    NextKeepsInv(s, e);
    hide Inv, Run, Init, Next;
    if e.Iowait? {
      b := s.procs[p].b;
      WaitedHolds(s, p);
    } else {
      b := Find(s.c.bufs, s.procs[p].dev, s.procs[p].blk);
      HitHolds(s, p);
    }
    CurrentIsGiven(Next(s, e), b);
  }

  lemma CurrentIsGiven(s: State, b: nat)
    requires Inv(s) && b < |s.c.bufs| && s.c.bufs[b].dev >= 0 && s.c.bufs[b].done
    ensures s.c.bufs[b].Block() in s.given && s.c.bufs[b].data == s.given[s.c.bufs[b].Block()]
  {
    assert Current(s.c, b);
  }

  lemma WaitedHolds(s: State, p: nat)
    requires Inv(s) && Enabled(s, Iowait(p)) && !s.procs[p].writing && Next(s, Iowait(p)).procs[p] == Running
    ensures var b := s.procs[p].b; var s' := Next(s, Iowait(p));
            && b < |s'.c.bufs| && b < |s'.owner| && s'.owner[b] == Held(p) && s'.c.bufs[b].done
            && s'.c.bufs[b].dev >= 0 && s'.c.bufs[b].Block() == s.procs[p].key
  {
    assert ProcOk(s, p);
  }

  lemma HitHolds(s: State, p: nat)
    requires Inv(s) && Enabled(s, Loop(p)) && s.procs[p].why == Read && Next(s, Loop(p)).procs[p] == Running
    ensures var b := Find(s.c.bufs, s.procs[p].dev, s.procs[p].blk); var s' := Next(s, Loop(p));
            && b < |s'.c.bufs| && b < |s'.owner| && s'.owner[b] == Held(p) && s'.c.bufs[b].done
            && s'.c.bufs[b].dev >= 0 && s'.c.bufs[b].Block() == Key(s.procs[p].dev, s.procs[p].blk)
  {
    hide Coherent, BufOk, Listed, OneEach;
    assert ProcOk(s, p);
  }

  /** A process asleep in iowait is woken when its transfer completes, and one
      asleep for a buffer when the buffer is released: nobody sleeps on. */
  lemma NoLostWakeup(s: State, p: nat)
    requires Inv(s) && p < |s.procs|
    ensures s.procs[p].OnBuf? ==>
              var b := s.procs[p].b; b < |s.c.bufs| && s.owner[b] != Nobody && DoRelease(s, b).procs[p].Getting?
    ensures s.procs[p].OnFree? ==> s.c.avail == [] && forall b :: 0 <= b < |s.c.bufs| ==>
              DoRelease(s, b).procs[p].Getting?
    ensures s.procs[p].OnIo? && s.procs[p].asleep ==>
              s.procs[p].b in s.c.q && (s.c.q[0] == s.procs[p].b ==> !Next(s, Interrupt).procs[p].asleep)
  {
    assert ProcOk(s, p);
    if s.procs[p].OnBuf? {
      assert BufOk(s, s.procs[p].b);
    }
    if s.procs[p].OnIo? {
      assert BufOk(s, s.procs[p].b);
    }
  }

  /** The delayed writes on the available list. */
  ghost function Delayed(c: Core): set<nat> {
    set b | b in c.avail && b < |c.bufs| && c.bufs[b].delwri
  }

  /** Each time round that ends neither with a buffer nor asleep has started one
      delayed write, so the restarts of getblk and of bflush come to an end. */
  lemma RestartsEnd(s: State, e: Event)
    requires Inv(s) && Enabled(s, e)
    requires e.Flush? || (e.Loop? && Next(s, e).procs[e.p] == s.procs[e.p])
    ensures Delayed(Next(s, e).c) < Delayed(s.c)
  {
    hide Coherent, BufOk, Listed, OneEach, ProcOk;
    if e.Flush? {
      EvictDecreases(s.c, e.b);
    } else {
      var got := Getblk(s.c, s.procs[e.p].dev, s.procs[e.p].blk).1;
      assert got == Again;
      assert s.c.avail[0] in s.c.avail;
      EvictDecreases(s.c, s.c.avail[0]);
    }
  }

  lemma EvictDecreases(c: Core, b: nat)
    requires b < |c.bufs| && b in c.avail && c.bufs[b].delwri
    ensures Delayed(StartWrite(Notavail(c, b), b, true)) < Delayed(c)
  {
    var c' := StartWrite(Notavail(c, b), b, true);
    assert b in Delayed(c) && b !in Delayed(c');
    forall a | a in Delayed(c') ensures a in Delayed(c) {
      assert a in c'.avail && a != b;
    }
  }

  /** With nothing delayed and nothing queued the disk is what was given. */
  lemma QuietDiskIsRight(s: State, k: Key)
    requires Inv(s) && s.c.q == [] && k.dev >= 0
    requires forall b :: 0 <= b < |s.c.bufs| ==> !s.c.bufs[b].delwri
    ensures s.c.disk[k] == s.given[k]
  {
  }
}
