/** The pipe of PIPE.C: any number of readers and writers of one pipe, their sleeps
    and wakeups, and closes, as a state machine over the stretches of kernel code
    that run without giving up the processor.  The tests of a bound that always
    holds are there to make the steps total. */
module Pipe {
  import opened Common

  const PIPSIZ := 4096

  datatype Wait = Ready | OnLock | OnPipe

  /** A process at one end.  `Reads` and `Writes` are in the loop of readp or
      writep, about to take the lock or asleep; `Reading` and `Writing` are in
      readi or writei, which sleep for the disk with the lock held. */
  datatype Proc =
    | Gone(rd: bool)
    | Idle(rd: bool)
    | Reads(n: nat, wait: Wait)
    | Writes(data: seq<Byte>, wait: Wait)
    | Reading(n: nat, at: nat)
    | Writing(now: seq<Byte>, rest: seq<Byte>, at: nat)
  {
    predicate Reader() {
      match this
      case Gone(rd) => rd
      case Idle(rd) => rd
      case _ => Reads? || Reading?
    }

    predicate Moving() { Reading? || Writing? }

    predicate Live() { !Gone? }

    predicate Asleep() { (Reads? || Writes?) && wait != Ready }
  }

  /** `off` is the readers' file offset and `size` the inode's; `lock`, `want`,
      `iread` and `iwrite` are ILOCK, IWANT, IREAD and IWRITE; `count` is i_count.
      For the proof only: `mover`, who is moving bytes, if anyone; `put` and `got`,
      all bytes written and read. */
  datatype State = State(procs: seq<Proc>, off: nat, size: nat, file: seq<Byte>,
                         lock: bool, want: bool, iread: bool, iwrite: bool, count: int,
                         mover: int, put: seq<Byte>, got: seq<Byte>)

  // ----- wakeup

  function Wake1(p: Proc, rd: bool, w: Wait): Proc {
    if p.Reads? && rd && p.wait == w then Reads(p.n, Ready)
    else if p.Writes? && !rd && p.wait == w then Writes(p.data, Ready)
    else p
  }

  function Wake(ps: seq<Proc>, rd: bool, w: Wait): (r: seq<Proc>)
    ensures |r| == |ps| && forall i :: 0 <= i < |ps| ==> r[i] == Wake1(ps[i], rd, w)
  {
    seq(|ps|, i requires 0 <= i < |ps| => Wake1(ps[i], rd, w))
  }

  /** `prele` */
  function Release(s: State): State {
    s.(lock := false, want := false,
       procs := if s.want then Wake(Wake(s.procs, true, OnLock), false, OnLock) else s.procs)
  }

  function Set(s: State, p: nat, x: Proc): State
    requires p < |s.procs|
  {
    s.(procs := s.procs[p := x])
  }

  function Min(a: int, b: int): int { if a <= b then a else b }

  // ----- readp

  /** From `plock` to the next sleep, return or transfer. */
  function ReadStep(s: State, p: nat): State
    requires p < |s.procs| && s.procs[p].Reads?
  {
    var n := s.procs[p].n;
    if s.lock then Set(s.(want := true), p, Reads(n, OnLock))
    else if s.off == s.size then
      var s1 := if s.off == 0 then s
                else if s.iwrite then s.(off := 0, size := 0, iwrite := false, procs := Wake(s.procs, false, OnPipe))
                else s.(off := 0, size := 0);
      var s2 := Release(s1);
      if s.count < 2 then Set(s2, p, Idle(true))
      else Set(s2.(iread := true), p, Reads(n, OnPipe))
    else Set(s.(lock := true, mover := p), p, Reading(n, s.off))
  }

  /** One block's worth of `readi`, or its end. */
  function ReadingStep(s: State, p: nat): State
    requires p < |s.procs| && s.procs[p].Reading?
  {
    var Reading(n, at) := s.procs[p];
    if n == 0 || at >= s.size || |s.file| < s.size then
      Set(Release(s.(off := at, mover := -1)), p, Idle(true))
    else
      var k := Min(Min(512 - at % 512, n), s.size - at);
      Set(s.(got := s.got + s.file[at..at+k]), p, Reading(n - k, at + k))
  }

  // ----- writep

  function WriteStep(s: State, p: nat): State
    requires p < |s.procs| && s.procs[p].Writes?
  {
    var data := s.procs[p].data;
    if s.lock then Set(s.(want := true), p, Writes(data, OnLock))
    else if data == [] || s.count < 2 then Set(Release(s), p, Idle(false))
    else if s.size == PIPSIZ then Set(Release(s.(iwrite := true)), p, Writes(data, OnPipe))
    else
      var k := Min(|data|, PIPSIZ - s.size);
      if k < 0 then s else
        Set(s.(lock := true, mover := p), p, Writing(data[..k], data[k..], s.size))
  }

  /** Bytes put into the file at an offset. */
  function Stored(file: seq<Byte>, at: nat, bytes: seq<Byte>): (r: seq<Byte>)
    requires at + |bytes| <= |file|
    ensures |r| == |file| && r[..at] == file[..at] && r[at..at+|bytes|] == bytes
  {
    file[..at] + bytes + file[at+|bytes|..]
  }

  /** One block's worth of `writei`, or its end and the wakeup of the readers. */
  function WritingStep(s: State, p: nat): State
    requires p < |s.procs| && s.procs[p].Writing?
  {
    var Writing(now, rest, at) := s.procs[p];
    if now == [] || at + |now| > |s.file| then
      var s1 := Release(s.(mover := -1));
      var s2 := if s.iread then s1.(iread := false, procs := Wake(s1.procs, true, OnPipe)) else s1;
      Set(s2, p, Writes(rest, Ready))
    else
      var k := Min(512 - at % 512, |now|);
      Set(s.(file := Stored(s.file, at, now[..k]), size := if s.size < at + k then at + k
             else s.size, put := s.put + now[..k]),
          p, Writing(now[k..], rest, at + k))
  }

  // ----- closef

  /** No other process has this end of the pipe open. */
  ghost predicate Last(s: State, p: nat)
    requires p < |s.procs|
  {
    forall q :: 0 <= q < |s.procs| && q != p && s.procs[q].Reader() == s.procs[p].Reader() ==> !s.procs[q].Live()
  }

  /** `closef`, and `iput` of the inode when nobody else has the file open. */
  ghost function CloseStep(s: State, p: nat): State
    requires p < |s.procs| && s.procs[p].Idle?
  {
    var s1 := s.(iread := false, iwrite := false, procs := Wake(Wake(s.procs, false, OnPipe), true, OnPipe));
    var s2 := if Last(s, p) then Release(s1.(count := s.count - 1)) else s1;
    Set(s2, p, Gone(s.procs[p].rd))
  }

  // ----- runs

  datatype Event = Read(p: nat, n: nat) | Write(p: nat, data: seq<Byte>) | Go(p: nat) | Close(p: nat)

  predicate Enabled(s: State, e: Event) {
    e.p < |s.procs| &&
    match e
    case Read(p, n) => s.procs[p] == Idle(true)
    case Write(p, data) => s.procs[p] == Idle(false)
    case Go(p) => s.procs[p].Moving() || ((s.procs[p].Reads? || s.procs[p].Writes?) && s.procs[p].wait == Ready)
    case Close(p) => s.procs[p].Idle?
  }

  ghost function Next(s: State, e: Event): State
    requires Enabled(s, e)
  {
    match e
    case Read(p, n) => Set(s, p, Reads(n, Ready))
    case Write(p, data) => Set(s, p, Writes(data, Ready))
    case Go(p) =>
      (match s.procs[p]
       case Reads(_, _) => ReadStep(s, p)
       case Writes(_, _) => WriteStep(s, p)
       case Reading(_, _) => ReadingStep(s, p)
       case _ => WritingStep(s, p))
    case Close(p) => CloseStep(s, p)
  }

  // ----- the invariant

  ghost predicate Has(s: State, rd: bool) {
    exists p :: 0 <= p < |s.procs| && s.procs[p].Live() && s.procs[p].Reader() == rd
  }

  /** A writer is moving bytes. */
  predicate Filling(s: State) {
    0 <= s.mover < |s.procs| && s.procs[s.mover].Writing?
  }

  ghost predicate ProcOk(s: State, p: nat)
    requires p < |s.procs|
  {
    var x := s.procs[p];
    && (x.Moving() <==> p == s.mover)
    && ((x.Reads? || x.Writes?) && x.wait == OnLock ==> s.lock && s.want)
    && (x.Reads? && x.wait == OnPipe ==>
          s.iread && s.count == 2 && (s.size == 0 || Filling(s)))
    && (x.Writes? && x.wait == OnPipe ==> s.iwrite && s.count == 2 && s.size == PIPSIZ && !Filling(s))
    && (x.Reading? ==> s.off < s.size && s.off <= x.at <= s.size)
    && (x.Writing? ==> x.at == s.size && x.at + |x.now| <= PIPSIZ)
  }

  /** Where reading has got to. */
  function At(s: State): nat {
    if 0 <= s.mover < |s.procs| && s.procs[s.mover].Reading? then s.procs[s.mover].at else s.off
  }

  /** The lock is held while bytes move, until the other end is closed for good;
      from then on nobody else can come to move any. */
  ghost predicate LockOk(s: State) {
    && s.mover < |s.procs|
    && (s.lock ==> s.mover >= 0)
    && (s.mover >= 0 && !s.lock ==>
          s.count < 2 &&
          (s.procs[s.mover].Reading? ==>
             forall q :: 0 <= q < |s.procs| && q != s.mover && s.procs[q].Reader() ==> !s.procs[q].Live()))
  }

  ghost predicate DataOk(s: State) {
    && |s.file| == PIPSIZ && s.off <= s.size <= PIPSIZ && At(s) <= s.size
    && s.got + s.file[At(s)..s.size] == s.put
  }

  ghost predicate CountOk(s: State) {
    s.count == (if Has(s, true) then 1 else 0) + if Has(s, false) then 1 else 0
  }

  ghost predicate Inv(s: State) {
    && DataOk(s) && LockOk(s) && CountOk(s)
    && forall p {:trigger ProcOk(s, p)} :: 0 <= p < |s.procs| ==> ProcOk(s, p)
  }

  /** The last writer does not close while one of several readers is reading. */
  ghost predicate SafeClose(s: State, e: Event) {
    e.Close? && e.p < |s.procs| && !s.procs[e.p].Reader() && Last(s, e.p) && 0 <= s.mover < |s.procs|
        && s.procs[s.mover].Reading? ==>
      forall q :: 0 <= q < |s.procs| && q != s.mover && s.procs[q].Reader() ==> !s.procs[q].Live()
  }

  // ----- what a step leaves alone

  /** Everyone but `p` as before, or woken. */
  ghost predicate OthersSame(s: State, s': State, p: nat) {
    |s'.procs| == |s.procs| &&
    forall q :: 0 <= q < |s.procs| && q != p ==>
      s'.procs[q] == s.procs[q] ||
      (s.procs[q].Reads? && s'.procs[q] == Reads(s.procs[q].n, Ready)) ||
      (s.procs[q].Writes? && s'.procs[q] == Writes(s.procs[q].data, Ready))
  }

  lemma CountSame(s: State, s': State, p: nat)
    requires CountOk(s) && OthersSame(s, s', p) && p < |s.procs| && s'.count == s.count
    requires s'.procs[p].Live() && s.procs[p].Live() && s'.procs[p].Reader() == s.procs[p].Reader()
    ensures CountOk(s')
  {
    forall rd ensures Has(s', rd) <==> Has(s, rd) {
      if Has(s, rd) {
        var q :| 0 <= q < |s.procs| && s.procs[q].Live() && s.procs[q].Reader() == rd;
        assert s'.procs[q].Live() && s'.procs[q].Reader() == rd;
      }
      if Has(s', rd) {
        var q :| 0 <= q < |s.procs| && s'.procs[q].Live() && s'.procs[q].Reader() == rd;
        assert s.procs[q].Live() && s.procs[q].Reader() == rd;
      }
    }
  }

  /** With a process at each end, both ends are open. */
  lemma BothOpen(s: State)
    requires CountOk(s)
    ensures forall r, w {:trigger s.procs[r], s.procs[w]} ::
              0 <= r < |s.procs| && 0 <= w < |s.procs| && AtEnd(s.procs[r], true) && AtEnd(s.procs[w], false) ==>
                    s.count == 2
  {
  }

  /** The process has this end of the pipe open. */
  predicate AtEnd(x: Proc, rd: bool) { x.Live() && x.Reader() == rd }

  lemma MoverOk(s: State)
    requires Inv(s)
    ensures 0 <= s.mover < |s.procs| ==> ProcOk(s, s.mover)
  {
  }

  /** Nobody is moving bytes when a reader gets the lock. */
  lemma ReaderAlone(s: State, p: nat)
    requires Inv(s) && p < |s.procs| && s.procs[p].Reads? && !s.lock
    ensures s.mover < 0
  {
    assert ProcOk(s, p);
    MoverOk(s);
    BothOpen(s);
  }

  /** Bytes move without the lock only when no writer would join in. */
  lemma WriterAlone(s: State, p: nat)
    requires Inv(s) && p < |s.procs| && s.procs[p].Writes? && !s.lock && s.count == 2
    ensures s.mover < 0
  {
  }

  // ----- each step keeps the invariant

  lemma ReadKeepsInv(s: State, p: nat)
    requires Inv(s) && p < |s.procs| && s.procs[p].Reads? && s.procs[p].wait == Ready
    ensures Inv(ReadStep(s, p))
  {
    var s' := ReadStep(s, p);
    assert ProcOk(s, p);
    if !s.lock { ReaderAlone(s, p); }
    ReadOthers(s, p);
    hide CountOk, Last, OthersSame;
    CountSame(s, s', p);
    forall q {:trigger ProcOk(s', q)} | 0 <= q < |s'.procs| ensures ProcOk(s', q) {
      assert ProcOk(s, q);
      ReadProcOk(s, p, q);
    }
    hide ProcOk, OthersSame;
    ReadDataOk(s, p);
    ReadLockOk(s, p);
  }

  lemma ReadOthers(s: State, p: nat)
    requires p < |s.procs| && s.procs[p].Reads?
    ensures OthersSame(s, ReadStep(s, p), p)
  {
  }

  lemma ReadProcOk(s: State, p: nat, q: nat)
    requires p < |s.procs| && q < |s.procs| && ProcOk(s, p) && ProcOk(s, q) && LockOk(s)
    requires s.procs[p].Reads? && s.procs[p].wait == Ready && (!s.lock ==> s.mover < 0)
    requires CountOk(s) && s.off <= s.size
    ensures ProcOk(ReadStep(s, p), q)
  {
    hide Has;
    if s.lock {
    } else if s.off == s.size {
      ReadEmptyProcOk(s, p, q);
    }
  }

  lemma ReadEmptyProcOk(s: State, p: nat, q: nat)
    requires p < |s.procs| && q < |s.procs| && ProcOk(s, p) && ProcOk(s, q)
    requires s.procs[p].Reads? && s.procs[p].wait == Ready && !s.lock && s.mover < 0 && s.off == s.size && s.count <= 2
    ensures ProcOk(ReadStep(s, p), q)
  {
  }

  lemma ReadDataOk(s: State, p: nat)
    requires DataOk(s) && p < |s.procs| && s.procs[p].Reads? && (!s.lock ==> s.mover < 0)
    ensures DataOk(ReadStep(s, p))
  {
    hide Wake;
    var s' := ReadStep(s, p);
    if !s.lock && s.off == s.size {
      assert s'.file[At(s')..s'.size] == [] == s.file[At(s)..s.size];
    }
  }

  lemma ReadLockOk(s: State, p: nat)
    requires LockOk(s) && p < |s.procs| && s.procs[p].Reads? && (!s.lock ==> s.mover < 0)
    ensures LockOk(ReadStep(s, p))
  {
  }

  lemma WriteKeepsInv(s: State, p: nat)
    requires Inv(s) && p < |s.procs| && s.procs[p].Writes? && s.procs[p].wait == Ready
    ensures Inv(WriteStep(s, p))
  {
    var s' := WriteStep(s, p);
    assert ProcOk(s, p);
    if !s.lock && s.count == 2 { WriterAlone(s, p); }
    WriteOthers(s, p);
    hide CountOk, Last, OthersSame;
    CountSame(s, s', p);
    forall q {:trigger ProcOk(s', q)} | 0 <= q < |s'.procs| ensures ProcOk(s', q) {
      assert ProcOk(s, q);
      WriteProcOk(s, p, q);
    }
    hide ProcOk, OthersSame;
    WriteDataOk(s, p);
    WriteLockOk(s, p);
  }

  lemma WriteOthers(s: State, p: nat)
    requires p < |s.procs| && s.procs[p].Writes?
    ensures OthersSame(s, WriteStep(s, p), p)
  {
  }

  lemma WriteProcOk(s: State, p: nat, q: nat)
    requires p < |s.procs| && q < |s.procs| && ProcOk(s, p) && ProcOk(s, q) && LockOk(s) && CountOk(s)
    requires s.procs[p].Writes? && s.procs[p].wait == Ready && (!s.lock && s.count == 2 ==> s.mover < 0)
    requires s.size <= PIPSIZ
    ensures ProcOk(WriteStep(s, p), q)
  {
    hide Has, Wake;
  }

  lemma WriteDataOk(s: State, p: nat)
    requires DataOk(s) && p < |s.procs| && s.procs[p].Writes? && CountOk(s) && (!s.lock && s.count == 2 ==> s.mover < 0)
    ensures DataOk(WriteStep(s, p))
  {
    hide Wake, Has;
  }

  lemma WriteLockOk(s: State, p: nat)
    requires LockOk(s) && p < |s.procs| && s.procs[p].Writes? && CountOk(s) && (!s.lock && s.count == 2 ==> s.mover < 0)
    ensures LockOk(WriteStep(s, p))
  {
    hide Has;
  }

  lemma ReadingKeepsInv(s: State, p: nat)
    requires Inv(s) && p < |s.procs| && s.procs[p].Reading?
    ensures Inv(ReadingStep(s, p))
  {
    var s' := ReadingStep(s, p);
    assert ProcOk(s, p);
    ReadingOthers(s, p);
    hide CountOk, Last, OthersSame;
    CountSame(s, s', p);
    forall q {:trigger ProcOk(s', q)} | 0 <= q < |s'.procs| ensures ProcOk(s', q) {
      assert ProcOk(s, q);
      ReadingProcOk(s, p, q);
    }
    hide ProcOk, OthersSame;
    ReadingDataOk(s, p);
    ReadingLockOk(s, p);
  }

  lemma ReadingOthers(s: State, p: nat)
    requires p < |s.procs| && s.procs[p].Reading?
    ensures OthersSame(s, ReadingStep(s, p), p)
  {
  }

  lemma ReadingProcOk(s: State, p: nat, q: nat)
    requires p < |s.procs| && q < |s.procs| && ProcOk(s, p) && ProcOk(s, q) && s.procs[p].Reading? && DataOk(s)
    ensures ProcOk(ReadingStep(s, p), q)
  {
    hide Wake, Min, At;
    assert 512 - s.procs[p].at % 512 > 0;
    ReadingBlock(s, p);
  }

  lemma ReadingBlock(s: State, p: nat)
    requires p < |s.procs| && s.procs[p].Reading?
    ensures var x, x' := s.procs[p], ReadingStep(s, p).procs[p];
            x' == Idle(true) || (x'.Reading? && x.at <= x'.at <= s.size)
  {
    hide Wake;
  }

  /** How much of what is asked for is in the next block. */
  function Block(at: nat, n: nat, size: nat): (k: nat)
    requires n > 0 && at < size
    ensures 0 < k <= size - at && k <= n
  {
    Min(Min(512 - at % 512, n), size - at)
  }

  lemma ReadsBlock(s: State, p: nat)
    requires p < |s.procs| && s.procs[p].Reading? && s.procs[p].at < s.size <= |s.file| && s.procs[p].n > 0
    ensures var Reading(n, at) := s.procs[p]; var k := Block(at, n, s.size);
            ReadingStep(s, p) == Set(s.(got := s.got + s.file[at..at+k]), p, Reading(n - k, at + k))
  {
  }

  lemma ReadingDataOk(s: State, p: nat)
    requires DataOk(s) && p == s.mover < |s.procs| && s.procs[p].Reading?
    requires s.off <= s.procs[p].at <= s.size
    ensures DataOk(ReadingStep(s, p))
  {
    hide ReadingStep, Block, Wake, Release;
    var Reading(n, at) := s.procs[p];
    if n > 0 && at < s.size {
      ReadsBlock(s, p);
      OneBlockOn(s.got, s.file, at, Block(at, n, s.size), s.size);
    } else {
      ReadEnds(s, p);
    }
  }

  lemma ReadEnds(s: State, p: nat)
    requires p < |s.procs| && s.procs[p].Reading? && !(s.procs[p].n > 0 && s.procs[p].at < s.size)
    ensures var s' := ReadingStep(s, p);
            && s'.off == s.procs[p].at && s'.mover == -1
            && s'.size == s.size && s'.file == s.file && s'.got == s.got && s'.put == s.put
  {
    hide Wake;
  }

  lemma OneBlockOn(got: seq<Byte>, file: seq<Byte>, at: nat, k: nat, size: nat)
    requires at + k <= size <= |file|
    ensures (got + file[at..at+k]) + file[at+k..size] == got + file[at..size]
  {
    assert file[at..size] == file[at..at+k] + file[at+k..size];
  }

  lemma ReadingLockOk(s: State, p: nat)
    requires LockOk(s) && p == s.mover < |s.procs| && s.procs[p].Reading?
    ensures LockOk(ReadingStep(s, p))
  {
  }

  lemma WritingKeepsInv(s: State, p: nat)
    requires Inv(s) && p < |s.procs| && s.procs[p].Writing?
    ensures Inv(WritingStep(s, p))
  {
    var s' := WritingStep(s, p);
    assert ProcOk(s, p);
    WritingOthers(s, p);
    hide CountOk, Last, OthersSame;
    CountSame(s, s', p);
    forall q {:trigger ProcOk(s', q)} | 0 <= q < |s'.procs| ensures ProcOk(s', q) {
      assert ProcOk(s, q);
      WritingProcOk(s, p, q);
    }
    hide ProcOk, OthersSame;
    WritingDataOk(s, p);
    WritingLockOk(s, p);
  }

  lemma WritingOthers(s: State, p: nat)
    requires p < |s.procs| && s.procs[p].Writing?
    ensures OthersSame(s, WritingStep(s, p), p)
  {
  }

  lemma WritingProcOk(s: State, p: nat, q: nat)
    requires p < |s.procs| && q < |s.procs| && ProcOk(s, p) && ProcOk(s, q) && s.procs[p].Writing? && DataOk(s)
    ensures ProcOk(WritingStep(s, p), q)
  {
    hide Stored, Wake, At;
  }

  lemma WritingDataOk(s: State, p: nat)
    requires DataOk(s) && p == s.mover < |s.procs| && s.procs[p].Writing?
    requires s.procs[p].at == s.size && s.procs[p].at + |s.procs[p].now| <= PIPSIZ
    ensures DataOk(WritingStep(s, p))
  {
    hide WritingStep, Wake, Stored, Release;
    var Writing(now, rest, at) := s.procs[p];
    WritesBlock(s, p);
    if now != [] {
      OneBlockIn(s.got, s.file, s.off, at, now[..Min(512 - at % 512, |now|)]);
    }
  }

  lemma WritesBlock(s: State, p: nat)
    requires p < |s.procs| && s.procs[p].Writing? && s.procs[p].at == s.size && s.size + |s.procs[p].now| <= |s.file|
    ensures var Writing(now, rest, at) := s.procs[p]; var s' := WritingStep(s, p);
            if now == []
            then && s'.mover == -1 && s'.off == s.off && s'.size == s.size && s'.file == s.file
                 && s'.got == s.got && s'.put == s.put
            else
              var k := Min(512 - at % 512, |now|);
              s' == Set(s.(file := Stored(s.file, at, now[..k]), size := at + k, put := s.put + now[..k]),
                        p, Writing(now[k..], rest, at + k))
  {
    hide Wake, Stored;
  }

  lemma OneBlockIn(got: seq<Byte>, file: seq<Byte>, off: nat, at: nat, bytes: seq<Byte>)
    requires off <= at && at + |bytes| <= |file|
    ensures got + Stored(file, at, bytes)[off..at+|bytes|] == (got + file[off..at]) + bytes
  {
    var file' := Stored(file, at, bytes);
    hide Stored;
    assert file'[off..at] == file'[..at][off..];
    assert file[off..at] == file[..at][off..];
    assert file'[off..at+|bytes|] == file'[off..at] + file'[at..at+|bytes|];
  }

  lemma WritingLockOk(s: State, p: nat)
    requires LockOk(s) && p == s.mover < |s.procs| && s.procs[p].Writing?
    ensures LockOk(WritingStep(s, p))
  {
    hide Stored;
  }

  lemma CallKeepsInv(s: State, e: Event)
    requires Inv(s) && Enabled(s, e) && (e.Read? || e.Write?)
    ensures Inv(Next(s, e))
  {
    var s' := Next(s, e);
    assert ProcOk(s, e.p);
    assert At(s') == At(s);
    CountSame(s, s', e.p);
    hide CountOk;
    forall q {:trigger ProcOk(s', q)} | 0 <= q < |s'.procs| ensures ProcOk(s', q) {
      assert ProcOk(s, q);
    }
  }

  // ----- close

  lemma CloseCountOk(s: State, p: nat)
    requires CountOk(s) && p < |s.procs| && s.procs[p].Idle?
    ensures CountOk(CloseStep(s, p))
  {
    var s' := CloseStep(s, p);
    var rd := s.procs[p].rd;
    assert Has(s, rd);
    forall q | 0 <= q < |s.procs| && q != p
      ensures s'.procs[q].Live() == s.procs[q].Live() && s'.procs[q].Reader() == s.procs[q].Reader()
    {
    }
    if Has(s, !rd) {
      var q :| 0 <= q < |s.procs| && s.procs[q].Live() && s.procs[q].Reader() == !rd;
      assert s'.procs[q].Live() && s'.procs[q].Reader() == !rd;
    }
    if Has(s', !rd) {
      var q :| 0 <= q < |s.procs| && s'.procs[q].Live() && s'.procs[q].Reader() == !rd;
      assert s.procs[q].Live() && s.procs[q].Reader() == !rd;
    }
    if !Last(s, p) {
      var q :| 0 <= q < |s.procs| && q != p && s.procs[q].Reader() == rd && s.procs[q].Live();
      assert s'.procs[q].Live() && s'.procs[q].Reader() == rd;
    }
  }

  lemma CloseProcOk(s: State, p: nat, q: nat)
    requires p < |s.procs| && q < |s.procs| && ProcOk(s, p) && ProcOk(s, q) && s.procs[p].Idle?
    ensures ProcOk(CloseStep(s, p), q)
  {
    hide Last;
  }

  lemma CloseDataOk(s: State, p: nat)
    requires DataOk(s) && p < |s.procs| && s.procs[p].Idle?
    ensures DataOk(CloseStep(s, p))
  {
    hide Last;
    assert At(CloseStep(s, p)) == At(s);
  }

  /** The last close of one end unlocks the inode whoever holds it.  All is well if
      and only if that was not the last writer with one of several readers reading. */
  lemma CloseIsSafe(s: State, e: Event)
    requires Inv(s) && Enabled(s, e) && e.Close?
    ensures Inv(Next(s, e)) <==> SafeClose(s, e)
  {
    CloseCountOk(s, e.p);
    forall q {:trigger ProcOk(Next(s, e), q)} | 0 <= q < |s.procs| ensures ProcOk(Next(s, e), q) {
      assert ProcOk(s, q) && ProcOk(s, e.p);
      CloseProcOk(s, e.p, q);
    }
    CloseDataOk(s, e.p);
    hide DataOk, ProcOk, CountOk;
    if SafeClose(s, e) { CloseLockOk(s, e); } else { CloseBreaksLock(s, e); }
  }

  lemma CloseLockOk(s: State, e: Event)
    requires LockOk(s) && CountOk(s) && Enabled(s, e) && e.Close? && SafeClose(s, e)
    ensures LockOk(Next(s, e))
  {
    hide Has;
  }

  lemma CloseBreaksLock(s: State, e: Event)
    requires LockOk(s) && Enabled(s, e) && e.Close? && !SafeClose(s, e)
    ensures !LockOk(Next(s, e))
  {
    var s' := Next(s, e);
    var q :| 0 <= q < |s.procs| && q != s.mover && s.procs[q].Reader() && s.procs[q].Live();
    assert s'.procs[q].Reader() && s'.procs[q].Live();
  }

  lemma NextKeepsInv(s: State, e: Event)
    requires Inv(s) && Enabled(s, e) && SafeClose(s, e)
    ensures Inv(Next(s, e))
  {
    hide Inv, SafeClose, ReadStep, WriteStep, ReadingStep, WritingStep, CloseStep;
    match e
    case Close(_) => CloseIsSafe(s, e);
    case Go(p) =>
      if s.procs[p].Reads? { ReadKeepsInv(s, p); }
      else if s.procs[p].Writes? { WriteKeepsInv(s, p); }
      else if s.procs[p].Reading? { ReadingKeepsInv(s, p); }
      else { WritingKeepsInv(s, p); }
    case _ => CallKeepsInv(s, e);
  }

  // ----- whole runs

  /** A pipe just made, and processes at both its ends. */
  ghost predicate Made(s: State) {
    && (forall p :: 0 <= p < |s.procs| ==> s.procs[p].Idle?)
    && Has(s, true) && Has(s, false) && s.count == 2
    && s.off == 0 && s.size == 0 && |s.file| == PIPSIZ
    && !s.lock && !s.want && !s.iread && !s.iwrite
    && s.mover == -1 && s.put == [] && s.got == []
  }

  /** A run of events, each enabled, with no close of the kind that goes wrong. */
  ghost predicate Run(s: State, es: seq<Event>, s': State)
    decreases |es|
  {
    if es == [] then s' == s
    else Enabled(s, es[0]) && SafeClose(s, es[0]) && Run(Next(s, es[0]), es[1..], s')
  }

  lemma MadeInv(s: State)
    requires Made(s)
    ensures Inv(s)
  {
    assert s.got + s.file[0..0] == s.put;
  }

  lemma {:induction false} RunKeepsInv(s: State, es: seq<Event>, s': State)
    requires Inv(s) && Run(s, es, s')
    ensures Inv(s')
    decreases |es|
  {
    hide Inv, SafeClose, Next;
    if es != [] {
      NextKeepsInv(s, es[0]);
      RunKeepsInv(Next(s, es[0]), es[1..], s');
    }
  }

  /** Bytes come out in the order they went in, none lost and none twice; what is
      in between is never more than the pipe holds. */
  lemma BytesInOrder(s: State, es: seq<Event>, s': State)
    requires Made(s) && Run(s, es, s')
    ensures s'.got <= s'.put && |s'.put| - |s'.got| <= PIPSIZ
    ensures s'.off <= s'.size <= PIPSIZ
  {
    MadeInv(s);
    RunKeepsInv(s, es, s');
  }

  /** A read ends with nothing only when every byte written has been read and no
      writer is left to write more. */
  lemma EndOfFileIsTheEnd(s: State, p: nat)
    requires Inv(s) && Enabled(s, Go(p)) && s.procs[p].Reads? && Next(s, Go(p)).procs[p] == Idle(true)
    ensures s.got == s.put
    ensures forall q :: 0 <= q < |s.procs| && !s.procs[q].Reader() ==> !s.procs[q].Live()
  {
    ReaderAlone(s, p);
    assert s.count < 2 && s.off == s.size;
    assert s.got + s.file[s.size..s.size] == s.got;
    BothOpen(s);
  }

  /** A write that gives up has bytes left over and no reader to give them to. */
  lemma BrokenPipe(s: State, p: nat)
    requires Inv(s) && Enabled(s, Go(p)) && s.procs[p].Writes? && Next(s, Go(p)).procs[p] == Idle(false)
    ensures s.procs[p].data == [] || forall q :: 0 <= q < |s.procs| && s.procs[q].Reader() ==> !s.procs[q].Live()
  {
    if s.procs[p].data != [] {
      assert s.count < 2;
      BothOpen(s);
    }
  }

  /** Readers never sleep for data while writers sleep for room; who waits for the
      lock waits for someone moving bytes; and with one end closed for good nobody
      is left asleep for the other. */
  lemma WhyAsleep(s: State, p: nat)
    requires Inv(s) && p < |s.procs| && s.procs[p].Asleep()
    ensures s.procs[p].wait == OnLock ==> 0 <= s.mover < |s.procs| && s.procs[s.mover].Moving()
    ensures s.procs[p].wait == OnPipe ==> s.count == 2
    ensures s.procs[p].wait == OnPipe ==>
              forall q :: 0 <= q < |s.procs| && s.procs[q].Asleep() && s.procs[q].wait == OnPipe ==>
              s.procs[q].Reader() == s.procs[p].Reader()
  {
    assert ProcOk(s, p);
    if s.procs[p].wait == OnLock { assert ProcOk(s, s.mover); }
    forall q | 0 <= q < |s.procs| && s.procs[q].Asleep() && s.procs[q].wait == OnPipe && s.procs[p].wait == OnPipe
      ensures s.procs[q].Reader() == s.procs[p].Reader()
    {
      assert ProcOk(s, q);
      if s.procs[p].Reader() != s.procs[q].Reader() {
        assert false;
      }
    }
  }

  /** The processes with the pipe open are never all asleep. */
  lemma NeverAllAsleep(s: State, p: nat)
    requires Inv(s) && p < |s.procs| && s.procs[p].Live()
    ensures exists q :: 0 <= q < |s.procs| && s.procs[q].Live() && !s.procs[q].Asleep()
  {
    if s.procs[p].Asleep() {
      WhyAsleep(s, p);
      if s.procs[p].wait == OnLock {
        assert s.procs[s.mover].Live() && !s.procs[s.mover].Asleep();
      } else {
        var q :| 0 <= q < |s.procs| && s.procs[q].Live() && s.procs[q].Reader() == !s.procs[p].Reader();
        if s.procs[q].Asleep() && s.procs[q].wait == OnLock {
          WhyAsleep(s, q);
          assert s.procs[s.mover].Live() && !s.procs[s.mover].Asleep();
        }
      }
    }
  }

  /** A writer that has moved its bytes leaves no reader asleep for data ... */
  lemma WritingWakes(s: State, p: nat, q: nat)
    requires Inv(s) && p < |s.procs| && q < |s.procs|
    requires s.procs[p].Writing? && WritingStep(s, p).procs[p].Writes? && s.procs[q].Reads?
    ensures WritingStep(s, p).procs[q].Reads? && WritingStep(s, p).procs[q].wait != OnPipe
  {
    assert ProcOk(s, q);
    hide DataOk, LockOk, CountOk;
  }

  /** ... and a reader that finds the pipe read out no writer asleep for room. */
  lemma DrainingWakes(s: State, p: nat, q: nat)
    requires Inv(s) && p < |s.procs| && q < |s.procs|
    requires s.procs[p].Reads? && !s.lock && s.off == s.size && s.procs[q].Writes?
    ensures ReadStep(s, p).procs[q].Writes? && ReadStep(s, p).procs[q].wait != OnPipe
  {
    assert ProcOk(s, q);
    hide DataOk, LockOk, CountOk;
  }

  // ----- the close that goes wrong

  lemma {:induction false} RunConcat(s: State, a: seq<Event>, s1: State, b: seq<Event>, s2: State)
    requires Run(s, a, s1) && Run(s1, b, s2)
    ensures Run(s, a + b, s2)
    decreases |a|
  {
    if a == [] {
      assert a + b == b;
    } else {
      assert (a + b)[0] == a[0] && (a + b)[1..] == a[1..] + b;
      RunConcat(Next(s, a[0]), a[1..], s1, b, s2);
    }
  }

  lemma RunOne(s: State, e: Event)
    requires Enabled(s, e) && SafeClose(s, e)
    ensures Run(s, [e], Next(s, e))
  {
    assert [e][1..] == [];
  }

  /** What another reader's calls leave alone: the file, and reader `r`. */
  ghost predicate Stands(s: State, s': State, r: nat) {
    && r < |s.procs| == |s'.procs| && s'.procs[r] == s.procs[r]
    && s'.size == s.size && s'.file == s.file && s'.put == s.put
  }

  lemma RunReading(s: State, q: nat)
    requires q < |s.procs| && s.procs[q].Reading?
    ensures Run(s, [Go(q)], ReadingStep(s, q))
  {
    RunOne(s, Go(q));
  }

  /** A reader reads on to the end of its call. */
  lemma {:induction false} ReadsToEnd(s: State, q: nat, r: nat) returns (es: seq<Event>, s': State)
    requires q < |s.procs| && r < |s.procs| && r != q && s.procs[q].Reading? && s.procs[r].Reading?
    requires s.procs[q].at <= s.size <= |s.file|
    ensures Run(s, es, s') && Stands(s, s', r) && s'.procs[q] == Idle(true) && !s'.lock
    ensures s'.off == s.procs[q].at + Min(s.procs[q].n, s.size - s.procs[q].at)
    ensures s'.got == s.got + s.file[s.procs[q].at..s'.off]
    decreases s.procs[q].n
  {
    hide ReadingStep, Block, Release, Run, Next;
    var Reading(n, at) := s.procs[q];
    var s1 := ReadingStep(s, q);
    RunReading(s, q);
    if n > 0 && at < s.size {
      ReadsBlock(s, q);
      var es1;
      es1, s' := ReadsToEnd(s1, q, r);
      es := [Go(q)] + es1;
      RunConcat(s, [Go(q)], s1, es1, s');
      var k := Block(at, n, s.size);
      assert s.file[at..s'.off] == s.file[at..at+k] + s.file[at+k..s'.off];
    } else {
      ReadStops(s, q, r);
      es, s' := [Go(q)], s1;
    }
  }

  lemma ReadStops(s: State, q: nat, r: nat)
    requires q < |s.procs| && r < |s.procs| && r != q && s.procs[q].Reading? && s.procs[r].Reading?
    requires !(s.procs[q].n > 0 && s.procs[q].at < s.size)
    ensures var s' := ReadingStep(s, q);
            && Stands(s, s', r) && s'.procs[q] == Idle(true) && !s'.lock && s'.off == s.procs[q].at && s'.got == s.got
  {
  }

  /** With the lock free, a reader in a call, or about to make one, can be given all
      that is in the pipe. */
  lemma ReadsAll(s: State, q: nat, r: nat) returns (es: seq<Event>, s': State)
    requires q < |s.procs| && r < |s.procs| && r != q && s.procs[r].Reading? && !s.lock
    requires s.procs[q] == Idle(true) || (s.procs[q].Reads? && s.procs[q].wait == Ready)
    requires s.off < s.size <= |s.file| && s.size <= PIPSIZ
    ensures Run(s, es, s') && Stands(s, s', r) && s'.procs[q] == Idle(true) && !s'.lock && s'.off == s.size
    ensures s'.got == s.got + s.file[s.off..s.size]
    decreases if s.procs[q].Reads? then 1 else 0
  {
    hide Run, Next;
    if s.procs[q] == Idle(true) {
      es, s' := ReadsSome(s, q, r, PIPSIZ);
    } else {
      es, s' := CallEnds(s, q, r);
      if s'.off < s.size {
        var mid := s';
        var es2;
        es2, s' := ReadsAll(mid, q, r);
        RunConcat(s, es, mid, es2, s');
        es := es + es2;
        assert s.file[s.off..s.size] == s.file[s.off..mid.off] + s.file[mid.off..s.size];
      }
    }
  }

  /** A call already made, run to its end. */
  lemma CallEnds(s: State, q: nat, r: nat) returns (es: seq<Event>, s': State)
    requires q < |s.procs| && r < |s.procs| && r != q && s.procs[r].Reading? && !s.lock
    requires s.procs[q].Reads? && s.procs[q].wait == Ready && s.off < s.size <= |s.file|
    ensures Run(s, es, s') && Stands(s, s', r) && s'.procs[q] == Idle(true) && !s'.lock
    ensures s'.off == s.off + Min(s.procs[q].n, s.size - s.off) && s'.got == s.got + s.file[s.off..s'.off]
  {
    var s1 := Next(s, Go(q));
    RunOne(s, Go(q));
    var es1;
    es1, s' := ReadsToEnd(s1, q, r);
    RunConcat(s, [Go(q)], s1, es1, s');
    es := [Go(q)] + es1;
  }

  /** A call for `n` bytes, from beginning to end. */
  lemma ReadsSome(s: State, q: nat, r: nat, n: nat) returns (es: seq<Event>, s': State)
    requires q < |s.procs| && r < |s.procs| && r != q && s.procs[r].Reading? && !s.lock
    requires s.procs[q] == Idle(true) && s.off < s.size <= |s.file|
    ensures Run(s, es, s') && Stands(s, s', r) && s'.procs[q] == Idle(true) && !s'.lock
    ensures s'.off == s.off + Min(n, s.size - s.off) && s'.got == s.got + s.file[s.off..s'.off]
  {
    var s1 := Next(s, Read(q, n));
    RunOne(s, Read(q, n));
    var es1;
    es1, s' := CallEnds(s1, q, r);
    RunConcat(s, [Read(q, n)], s1, es1, s');
    es := [Read(q, n)] + es1;
  }

  /** After the close: the lock is gone from under the reader that is reading, and
      another reader is free to start. */
  lemma LastCloseUnlocks(s: State, e: Event) returns (r: nat, q: nat)
    requires Inv(s) && Enabled(s, e) && !SafeClose(s, e)
    ensures var s1 := Next(s, e);
            && r < |s.procs| && q < |s.procs| && r != q && s.procs[r].Reading? && Stands(s, s1, r)
            && !s1.lock && s1.off == s.off < s.size <= PIPSIZ == |s.file| && s1.got == s.got
            && s.off <= s.procs[r].at <= s.size && s.got + s.file[s.procs[r].at..s.size] == s.put
            && (s1.procs[q] == Idle(true) || (s1.procs[q].Reads? && s1.procs[q].wait == Ready))
  {
    r := s.mover;
    q :| 0 <= q < |s.procs| && q != s.mover && s.procs[q].Reader() && s.procs[q].Live();
    assert ProcOk(s, r) && ProcOk(s, q);
  }

  /** After any such close bytes can be given twice: a run of reads alone after which
      all that was in the pipe from the readers' offset on has been given, what the
      interrupted reader had had of it included, and, if that was nothing, some of it
      twice over. */
  lemma ReadTwice(s: State, e: Event) returns (es: seq<Event>, s': State, y: seq<Byte>)
    requires Inv(s) && Enabled(s, e) && !SafeClose(s, e)
    ensures Run(Next(s, e), es, s') && s'.put == s.put
    ensures s'.got == s.got + s.file[s.off..s.size] + y && s.off + |y| <= s.size && y == s.file[s.off..s.off+|y|]
    ensures At(s) > s.off || y != []
    ensures |s'.got| > |s'.put|
  {
    hide Inv, SafeClose, Next, ReadingStep, Block, Release, CloseStep;
    var r, q := LastCloseUnlocks(s, e);
    var s1 := Next(s, e);
    es, s' := ReadsAll(s1, q, r);
    y := [];
    var Reading(n, at) := s.procs[r];
    assert At(s) == at by { ReaderIsMover(s, r); }
    if at == s.off {
      var es2, s2;
      es2, s2, y := ReadsAgain(s', q, r);
      RunConcat(s1, es, s', es2, s2);
      es, s' := es + es2, s2;
    }
  }

  lemma ReaderIsMover(s: State, r: nat)
    requires Inv(s) && r < |s.procs| && s.procs[r].Reading?
    ensures At(s) == s.procs[r].at
  {
    assert ProcOk(s, r);
  }

  /** The reader that was interrupted goes on where it was; if it wants nothing more
      it puts the readers' offset back, for the other to read from. */
  lemma ReadsAgain(s: State, q: nat, r: nat) returns (es: seq<Event>, s': State, y: seq<Byte>)
    requires q < |s.procs| && r < |s.procs| && r != q && s.procs[r].Reading? && s.procs[q] == Idle(true) && !s.lock
    requires s.procs[r].at < s.size <= |s.file|
    ensures Run(s, es, s') && s'.put == s.put && s'.got == s.got + y && y != []
    ensures var at := s.procs[r].at; at + |y| <= s.size && y == s.file[at..at+|y|]
  {
    hide ReadingStep, Block, Release;
    var Reading(n, at) := s.procs[r];
    RunOne(s, Go(r));
    es, s' := [Go(r)], Next(s, Go(r));
    if n > 0 {
      ReadsBlock(s, r);
      y := s.file[at..at+Block(at, n, s.size)];
    } else {
      PutsBack(s, q, r);
      var s1 := s';
      RunOne(s1, Read(q, 1));
      var s2 := Next(s1, Read(q, 1));
      RunOne(s2, Go(q));
      var s3 := Next(s2, Go(q));
      RunOne(s3, Go(q));
      ReadsBlock(s3, q);
      RunConcat(s, [Go(r)], s1, [Read(q, 1)], s2);
      RunConcat(s, [Go(r)] + [Read(q, 1)], s2, [Go(q)], s3);
      s' := Next(s3, Go(q));
      RunConcat(s, [Go(r)] + [Read(q, 1)] + [Go(q)], s3, [Go(q)], s');
      es := [Go(r)] + [Read(q, 1)] + [Go(q)] + [Go(q)];
      y := s.file[at..at+Block(at, 1, s.size)];
    }
  }

  lemma PutsBack(s: State, q: nat, r: nat)
    requires q < |s.procs| && r < |s.procs| && r != q && s.procs[r].Reading? && s.procs[q] == Idle(true)
    requires s.procs[r].n == 0
    ensures var s' := ReadingStep(s, r);
            && |s'.procs| == |s.procs| && s'.procs[q] == Idle(true) && !s'.lock && s'.off == s.procs[r].at
            && s'.got == s.got && s'.put == s.put && s'.size == s.size && s'.file == s.file
  {
  }

  /** Exactly then: a close is safe if and only if no run from it, without another
      that is not, gives the readers more bytes than were written. */
  lemma CloseHarmsIff(s: State, e: Event)
    requires Inv(s) && Enabled(s, e) && e.Close?
    ensures SafeClose(s, e) <==> !exists es: seq<Event>, s': State :: Run(Next(s, e), es, s') && |s'.got| > |s'.put|
  {
    hide Inv, SafeClose, Next, Run;
    if SafeClose(s, e) {
      NextKeepsInv(s, e);
      forall es: seq<Event>, s': State | Run(Next(s, e), es, s') ensures |s'.got| <= |s'.put| {
        RunKeepsInv(Next(s, e), es, s');
        NoMoreThanPut(s');
      }
    } else {
      var es, s', _ := ReadTwice(s, e);
    }
  }

  lemma NoMoreThanPut(s: State)
    requires Inv(s)
    ensures |s.got| <= |s.put|
  {
  }

  /** A byte written and nothing read of it: the write, from the call to its end. */
  lemma ByteWritten(s: State, w: nat, b: Byte) returns (es: seq<Event>, s': State)
    requires Made(s) && w < |s.procs| && s.procs[w] == Idle(false)
    ensures Run(s, es, s') && s' == s.(file := Stored(s.file, 0, [b]), size := 1, put := [b])
  {
    hide Stored, Wake, Has, SafeClose;
    var s1 := Set(s, w, Writes([b], Ready));
    assert [b][..1] == [b] && [b][1..] == [];
    var s2 := Set(s.(lock := true, mover := w), w, Writing([b], [], 0));
    var file := Stored(s.file, 0, [b]);
    var s3 := Set(s2.(file := file, size := 1, put := [b]), w, Writing([], [], 1));
    var s4 := Set(s3.(lock := false, mover := -1), w, Writes([], Ready));
    s' := s.(file := file, size := 1, put := [b]);
    assert s'.procs == Set(s4, w, Idle(false)).procs;
    hide Set;
    assert Next(s, Write(w, [b])) == s1 && Next(s1, Go(w)) == s2 && Next(s2, Go(w)) == s3;
    assert Next(s3, Go(w)) == s4 && Next(s4, Go(w)) == s';
    hide Next;
    RunOne(s, Write(w, [b]));
    RunOne(s1, Go(w));
    RunOne(s2, Go(w));
    RunOne(s3, Go(w));
    RunOne(s4, Go(w));
    RunConcat(s3, [Go(w)], s4, [Go(w)], s');
    RunConcat(s2, [Go(w)], s3, [Go(w)] + [Go(w)], s');
    RunConcat(s1, [Go(w)], s2, [Go(w)] + ([Go(w)] + [Go(w)]), s');
    es := [Write(w, [b])] + ([Go(w)] + ([Go(w)] + ([Go(w)] + [Go(w)])));
    RunConcat(s, [Write(w, [b])], s1, [Go(w)] + ([Go(w)] + ([Go(w)] + [Go(w)])), s');
  }

  /** It can happen wherever there are two readers and one writer: the writer writes
      a byte, one of the readers begins to read, and the writer closes. */
  lemma WrongCloseHappens(s: State, r: nat, q: nat, w: nat, b: Byte) returns (es: seq<Event>, s': State)
    requires Made(s) && r < |s.procs| && q < |s.procs| && w < |s.procs| && r != q
    requires s.procs[r] == s.procs[q] == Idle(true) && s.procs[w] == Idle(false) && Last(s, w)
    ensures Run(s, es, s') && Enabled(s', Close(w)) && !SafeClose(s', Close(w))
  {
    var es1, s1 := ByteWritten(s, w, b);
    var s2 := Next(s1, Read(r, 1));
    s' := Next(s2, Go(r));
    RunOne(s1, Read(r, 1));
    RunOne(s2, Go(r));
    RunConcat(s1, [Read(r, 1)], s2, [Go(r)], s');
    es := es1 + ([Read(r, 1)] + [Go(r)]);
    RunConcat(s, es1, s1, [Read(r, 1)] + [Go(r)], s');
    UnsafeHere(s, s', r, q, w);
  }

  lemma UnsafeHere(s: State, s': State, r: nat, q: nat, w: nat)
    requires r < |s.procs| && q < |s.procs| && w < |s.procs| && r != q && Last(s, w)
    requires s.procs[r] == s.procs[q] == Idle(true) && s.procs[w] == Idle(false)
    requires s'.mover == r && s'.procs == s.procs[r := Reading(1, 0)]
    ensures !SafeClose(s', Close(w))
  {
    assert s'.procs[q].Reader() && s'.procs[q].Live();
    forall p | 0 <= p < |s'.procs| && p != w && s'.procs[p].Reader() == s'.procs[w].Reader()
      ensures !s'.procs[p].Live()
    {
      assert s.procs[p].Reader() == s.procs[w].Reader();
    }
  }
}
