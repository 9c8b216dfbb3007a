/** The buffer cache as the kernel keeps it, in place: headers, links and queue.
    Each routine does to them what its specification on values says. */
module BufferCache {
  import opened Common
  import opened CacheSpec
  import opened Rings
  import opened CacheLists
  import opened CacheSearch

  /** `p->back->forw = p->forw; p->forw->back = p->back`. */
  method Unlink(forw: array<nat>, back: array<nat>, p: nat)
    requires forw != back && p < forw.Length && p < back.Length && back[p] < forw.Length && forw[p] < back.Length
    modifies forw, back
    ensures forw[..] == old(forw[..][back[p] := forw[p]])
    ensures back[..] == old(back[..][forw[p] := back[p]])
  {
    forw[back[p]] := forw[p];
    back[forw[p]] := back[p];
  }

  /** `p` goes in just after the head. */
  method LinkAfter(forw: array<nat>, back: array<nat>, head: nat, p: nat)
    requires forw != back && forw.Length == back.Length && p < forw.Length && head < forw.Length
    requires forw[head] < back.Length
    requires p != head
    modifies forw, back
    ensures forw[..] == old(forw[..][p := forw[head]][head := p])
    ensures back[..] == old(back[..][p := head][forw[head] := p])
  {
    forw[p] := forw[head];
    back[p] := head;
    back[forw[head]] := p;
    forw[head] := p;
  }

  /** `p` goes in just before the head. */
  method LinkBefore(forw: array<nat>, back: array<nat>, head: nat, p: nat)
    requires forw != back && forw.Length == back.Length && p < forw.Length && head < forw.Length
    requires back[head] < forw.Length
    requires p != head
    modifies forw, back
    ensures forw[..] == old(forw[..][back[head] := p][p := head])
    ensures back[..] == old(back[..][p := back[head]][head := p])
  {
    forw[back[head]] := p;
    back[p] := back[head];
    back[head] := p;
    forw[p] := head;
  }

  /** A header just initialised. */
  function Unused(): Buf {
    Buf(NODEV, 0, false, false, false, false, false, false, 0)
  }

  class Cache {
    const n: nat
    const hdr: array<Buf>
    const avForw: array<nat>
    const avBack: array<nat>
    const forw: array<nat>
    const back: array<nat>
    var fwanted: bool
    var actf: nat
    var actl: nat
    var active: bool
    var disk: imap<Key, Data>
    ghost var avail: seq<nat>
    ghost var q: seq<nat>
    ghost var none: seq<nat>
    ghost var rk: seq<nat>

    /** The arrays are as long as they must be, and not the same. */
    ghost predicate Arrays() {
      && hdr.Length == n && avForw.Length == n+1 && avBack.Length == n+1 && forw.Length == n+2 && back.Length == n+2
      && avForw != avBack && avForw != forw && avForw != back && avBack != forw && avBack != back && forw != back
    }

    /** The lists are as they should be; the queue may be waiting to be started. */
    ghost predicate Sound()
      reads this, hdr, avForw, avBack, forw, back
    {
      && Arrays()
      && AvOk(n, hdr[..], avForw[..], avBack[..], avail)
      && QueueOk(n, hdr[..], avForw[..], actf, actl, q)
      && DevOk(n, hdr[..], forw[..], back[..], none, rk)
      && OneEach(hdr[..])
      && forall k: Key :: k in disk
    }

    ghost predicate Valid()
      reads this, hdr, avForw, avBack, forw, back
    {
      Sound() && (active <==> q != [])
    }

    /** What the cache holds, without its links. */
    ghost function Contents(): Core
      reads this, hdr
    {
      Core(hdr[..], avail, fwanted, q, disk)
    }

    /** The parts of validity that the routines look at. */
    lemma Facts()
      requires Sound()
      ensures hdr.Length == n && avForw.Length == n+1 && forw.Length == n+2 && InRange(Contents())
      ensures avForw[n] == n <==> avail == []
      ensures avail != [] ==> avForw[n] == avail[0]
      ensures forall i :: 0 <= i < |avail| ==> avail[i] < n && !hdr[avail[i]].busy
      ensures forall b :: b in q ==> b < n && hdr[b].busy
      ensures forall b :: 0 <= b < n && !hdr[b].busy ==> b in avail
      ensures OneEach(hdr[..])
    {
      AvHead(n, hdr[..], avForw[..], avBack[..], avail);
      hide Ring, DevOk, OneEach, NoRepeat;
      assert forall i :: 0 <= i < |avail| ==> avail[i] in avail;
    }

    // ----- the available list

    /** `notavail` */
    method TakeOff(b: nat)
      requires Sound() && b in avail
      modifies hdr, avForw, avBack, `avail
      ensures Sound() && b < n && Contents() == Notavail(old(Contents()), b)
    {
      hide AvOk, QueueOk, DevOk, OneEach;
      AvailIdle(n, hdr[..], avForw[..], avBack[..], avail, b);
      ghost var h := hdr[..];
      ghost var taken := h[b].(busy := true);
      TakenAv(n, h, avForw[..], avBack[..], avail, b, taken);
      TakenQueue(n, h, avForw[..], avBack[..], avail, actf, actl, q, b, taken);
      DevFlags(n, h, forw[..], back[..], none, rk, b, taken);
      OneEachFlags(h, b, taken);
      Unlink(avForw, avBack, b);
      hdr[b] := hdr[b].(busy := true);
      avail := Without(avail, b);
      assert hdr[..] == h[b := taken];
    }

    /** `brelse`: what comes back says whom it wakes. */
    method Brelse(b: nat) returns (wakeBuf: bool, wakeFree: bool)
      requires Sound() && b < n && hdr[b].busy && b !in q
      modifies hdr, avForw, avBack, `avail, `fwanted
      ensures Sound() && Contents() == Release(old(Contents()), b)
      ensures wakeBuf == old(hdr[b].wanted) && wakeFree == old(fwanted)
    {
      hide AvOk, QueueOk, DevOk, OneEach;
      ghost var h := hdr[..];
      ghost var free := h[b].(wanted := false, busy := false, async := false);
      ReleasedAv(n, h, avForw[..], avBack[..], avail, b, free);
      ReleasedQueue(n, h, avForw[..], avBack[..], avail, actf, actl, q, b, free);
      DevFlags(n, h, forw[..], back[..], none, rk, b, free);
      OneEachFlags(h, b, free);
      wakeBuf := hdr[b].wanted;
      wakeFree := fwanted;
      fwanted := false;
      hdr[b] := hdr[b].(wanted := false, busy := false, async := false);
      LinkBefore(avForw, avBack, n, b);
      avail := avail + [b];
      assert hdr[..] == h[b := free];
    }

    // ----- flags

    /** Flags and contents of a buffer change, not its being busy nor its block. */
    method SetFlags(b: nat, h: Buf)
      requires Sound() && b < n && h.busy == hdr[b].busy && h.Block() == hdr[b].Block()
      modifies hdr
      ensures Sound() && Contents() == old(Contents()).(bufs := old(hdr[..])[b := h])
    {
      hide AvOk, QueueOk, DevOk, OneEach;
      ghost var was := hdr[..];
      AvFlags(n, was, avForw[..], avBack[..], avail, b, h);
      QueueFlags(n, was, avForw[..], actf, actl, q, b, h);
      DevFlags(n, was, forw[..], back[..], none, rk, b, h);
      OneEachFlags(was, b, h);
      hdr[b] := h;
      assert hdr[..] == was[b := h];
    }

    // ----- the disk queue

    /** `rkstrategy` with `rkstart` */
    method Strategy(b: nat)
      requires Valid() && b < n && hdr[b].busy && b !in q
      modifies avForw, `actf, `actl, `active, `q
      ensures Valid() && Contents() == Enqueue(old(Contents()), b)
    {
      hide AvOk, QueueOk, DevOk, OneEach;
      ghost var af: seq<nat> := avForw[..];
      Enqueued(n, hdr[..], af, actf, actl, q, b);
      AvFrame(n, hdr[..], af, avBack[..], avail, b, Null(n));
      if actf != Null(n) {
        AvFrame(n, hdr[..], af[b := Null(n)], avBack[..], avail, actl, b);
      }
      avForw[b] := Null(n);
      assert avForw[..] == af[b := Null(n)];
      if actf == Null(n) {
        actf := b;
      } else {
        avForw[actl] := b;
        assert avForw[..] == af[b := Null(n)][actl := b];
      }
      actl := b;
      q := q + [b];
      if !active {
        Rkstart();
      }
    }

    method Rkstart()
      requires Arrays() && QueueOk(n, hdr[..], avForw[..], actf, actl, q) && !active
      modifies `active
      ensures active == (q != [])
    {
      if actf == Null(n) {
        return;
      }
      active := true;
    }

    /** `bwrite` as far as the request; `bawrite` when `async`. */
    method Bwrite(b: nat, async: bool)
      requires Valid() && b < n && hdr[b].busy && b !in q
      modifies hdr, avForw, `actf, `actl, `active, `q
      ensures Valid() && Contents() == StartWrite(old(Contents()), b, async)
    {
      var h := hdr[b];
      SetFlags(b, h.(read := false, done := false, delwri := false, async := h.async || async));
      Strategy(b);
    }

    /** `bread` as far as the request, for a block that has to be read. */
    method StartBread(b: nat, async: bool)
      requires Valid() && b < n && hdr[b].busy && b !in q
      modifies hdr, avForw, `actf, `actl, `active, `q
      ensures Valid() && Contents() == StartRead(old(Contents()), b, async)
    {
      var h := hdr[b];
      SetFlags(b, h.(read := true, async := h.async || async));
      Strategy(b);
    }

    /** `rkintr`, once the transfer is made: whom it wakes. */
    method Rkintr() returns (wakeBuf: bool, wakeFree: bool)
      requires Valid()
      modifies this, hdr, avForw, avBack
      ensures Valid()
      ensures old(q) == [] ==> Contents() == old(Contents()) && !wakeBuf && !wakeFree
      ensures old(q) != [] ==>
                var c := old(Contents());
                && c.q[0] < |c.bufs| && c.bufs[c.q[0]].Block() in c.disk && Contents() == Intr(c)
                && wakeBuf == (!c.bufs[c.q[0]].async || c.bufs[c.q[0]].wanted)
                && wakeFree == (c.bufs[c.q[0]].async && c.fwant)
    {
      if !active {
        return false, false;
      }
      assert q != [];
      hide Valid, Intr, Contents;
      wakeBuf, wakeFree := Finish();
    }

    /** The interrupt of a transfer under way. */
    method Finish() returns (wakeBuf: bool, wakeFree: bool)
      requires Valid() && active
      modifies this, hdr, avForw, avBack
      ensures Valid()
      ensures var c := old(Contents());
              && c.q != [] && c.q[0] < |c.bufs| && c.bufs[c.q[0]].Block() in c.disk && Contents() == Intr(c)
              && wakeBuf == (!c.bufs[c.q[0]].async || c.bufs[c.q[0]].wanted)
              && wakeFree == (c.bufs[c.q[0]].async && c.fwant)
    {
      ghost var c := Contents();
      hide Valid, Sound, Intr, Transferred, Completed, Contents;
      var b := Dequeue();
      Transfer(b);
      IntrIs(c);
      wakeBuf, wakeFree := Iodone(b);
      Restart();
    }

    /** The request whose transfer is over. */
    method Dequeue() returns (b: nat)
      requires Valid() && active
      modifies `active, `actf, `q
      ensures var c := old(Contents()); c.q != [] && b == c.q[0] && Contents() == c.(q := c.q[1..])
      ensures Sound() && !active && b < n && hdr.Length == n && hdr[b].busy && b !in q
    {
      Dequeued(n, hdr[..], avForw[..], actf, actl, q);
      b := actf;
      hide AvOk, DevOk, OneEach;
      active := false;
      actf := avForw[b];
      q := q[1..];
    }

    /** What the controller has done by the time it interrupts. */
    method Transfer(b: nat)
      requires Sound() && b < n && hdr[b].busy
      modifies hdr, `disk
      ensures Sound() && hdr[b].busy
      ensures b < |old(Contents()).bufs| && old(Contents()).bufs[b].Block() in old(Contents()).disk
      ensures Contents() == Transferred(old(Contents()), b)
    {
      var h := hdr[b];
      if h.read {
        SetFlags(b, h.(data := disk[h.Block()]));
      } else {
        hide AvOk, QueueOk, DevOk, OneEach;
        disk := disk[h.Block() := h.data];
        assert hdr[..] == hdr[..][b := h];
      }
    }

    method Iodone(b: nat) returns (wakeBuf: bool, wakeFree: bool)
      requires Sound() && b < n && hdr[b].busy && b !in q
      modifies hdr, avForw, avBack, `avail, `fwanted
      ensures Sound() && Contents() == Completed(old(Contents()), b)
      ensures var c := old(Contents());
              wakeBuf == (!c.bufs[b].async || c.bufs[b].wanted) && wakeFree == (c.bufs[b].async && c.fwant)
    {
      SetFlags(b, hdr[b].(done := true));
      if hdr[b].async {
        wakeBuf, wakeFree := Brelse(b);
      } else {
        SetFlags(b, hdr[b].(wanted := false));
        wakeBuf, wakeFree := true, false;
      }
    }

    method Restart()
      requires Sound() && !active
      modifies `active
      ensures Valid() && Contents() == old(Contents())
    {
      Rkstart();
    }

    // ----- getblk

    /** The disk's list searched: the buffer of the block, or the list's head. */
    method Lookup(dev: int, blk: int) returns (p: nat)
      requires Valid() && dev >= 0
      ensures Find(hdr[..], dev, blk) == if p < n then p else n
      ensures p < n || p == n+1
    {
      hide AvOk, QueueOk, OneEach, TwoRings, Node;
      ghost var i := 0;
      DevNext(n, forw[..], back[..], none, rk, -1);
      HeadNode();
      p := forw[n+1];
      while p != n+1
        invariant 0 <= i <= |rk| && p == Node(n+1, rk, i) && (p == n+1 <==> i == |rk|)
        invariant i < |rk| ==> p < n && rk[i] == p
        invariant forall j :: 0 <= j < i ==> rk[j] < n && !(hdr[rk[j]].dev == dev && hdr[rk[j]].blk == blk)
        decreases |rk| - i
      {
        if hdr[p].blk == blk && hdr[p].dev == dev {
          FoundIs(hdr[..], dev, blk, p);
          return;
        }
        DevNext(n, forw[..], back[..], none, rk, i);
        p := forw[p];
        i := i + 1;
      }
      AbsentIs(n, hdr[..], forw[..], back[..], none, rk, dev, blk);
    }

    lemma HeadNode()
      ensures Node(n+1, rk, -1) == n+1
    {
    }

    /** A buffer off the available list given to another block. */
    method Reassign(b: nat, dev: int, blk: int)
      requires Valid() && b < n && hdr[b].busy && (dev >= 0 ==> Find(hdr[..], dev, blk) == n)
      modifies hdr, forw, back, `none, `rk
      ensures Valid()
      ensures Contents() == old(Contents()).(bufs := old(hdr[..])[b := Buf(dev, blk, true, false, false, false, false,
                                                                           false, old(hdr[b].data))])
    {
      hide AvOk, QueueOk, OneEach, TwoRings, Without;
      ghost var was := hdr[..];
      ghost var bf, bb := forw[..], back[..];
      var h := Buf(dev, blk, true, false, false, false, false, false, hdr[b].data);
      AvFlags(n, was, avForw[..], avBack[..], avail, b, h);
      QueueFlags(n, was, avForw[..], actf, actl, q, b, h);
      OneEachTaken(was, b, h);
      TwoUnlinked(n, bf, bb, none, rk, b);
      TwoPushed(n, bf[bb[b] := bf[b]], bb[bf[b] := bb[b]], Without(none, b), Without(rk, b), b, dev);
      Unlink(forw, back, b);
      LinkAfter(forw, back, if dev < 0 then n else n+1, b);
      hdr[b] := h;
      assert hdr[..] == was[b := h];
      MovedDev(n, was, none, rk, bf, bb, forw[..], back[..], b, h);
      none, rk := NoneMoved(none, b, dev), DiskMoved(rk, b, dev);
    }

    /** Once round the loop of `getblk`. */
    method GetblkOnce(dev: int, blk: int) returns (got: Got)
      requires Valid()
      modifies this, hdr, avForw, avBack, forw, back
      ensures InRange(old(Contents())) && Valid()
      ensures (Contents(), got) == Getblk(old(Contents()), dev, blk)
    {
      Facts();
      if dev >= 0 {
        var p := Lookup(dev, blk);
        if p < n {
          got := Hit(dev, blk, p);
          return;
        }
      }
      hide Valid, Getblk;
      got := Miss(dev, blk);
    }

    /** The block is in the cache. */
    method Hit(dev: int, blk: int, p: nat) returns (got: Got)
      requires Valid() && InRange(Contents()) && dev >= 0 && p < n && Find(hdr[..], dev, blk) == p
      modifies hdr, avForw, avBack, `avail
      ensures Valid()
      ensures (Contents(), got) == Getblk(old(Contents()), dev, blk)
    {
      Facts();
      hide Sound, Find;
      if hdr[p].busy {
        SetFlags(p, hdr[p].(wanted := true));
        return SleepBuf(p);
      }
      TakeOff(p);
      return Have(p);
    }

    /** The block is not in the cache. */
    method Miss(dev: int, blk: int) returns (got: Got)
      requires Valid() && InRange(Contents()) && (dev >= 0 ==> Find(hdr[..], dev, blk) == n)
      modifies this, hdr, avForw, avBack, forw, back
      ensures Valid()
      ensures (Contents(), got) == Getblk(old(Contents()), dev, blk)
    {
      Facts();
      MissIs(Contents(), dev, blk);
      hide Find, Getblk, Without, OneEach, AvOk, QueueOk, DevOk;
      if avForw[n] == n {
        fwanted := true;
        return SleepFree;
      }
      got := TakeOldest(avForw[n], dev, blk);
    }

    method TakeOldest(f: nat, dev: int, blk: int) returns (got: Got)
      requires Valid() && avail != [] && InRange(Contents()) && (dev >= 0 ==> Find(hdr[..], dev, blk) == n)
      requires f == avail[0] && f < n == hdr.Length && !hdr[f].busy && f !in q
      modifies this, hdr, avForw, avBack, forw, back
      ensures Valid()
      ensures (Contents(), got) == Getblk(old(Contents()), dev, blk)
    {
      MissIs(Contents(), dev, blk);
      hide Find, Getblk, Without, OneEach, AvOk, QueueOk, DevOk, StartWrite, InRange;
      StillAbsent(hdr[..], Notavail(Contents(), f).bufs, dev, blk);
      TakeOff(f);
      StillValid();
      assert hdr[f].busy && (dev >= 0 ==> Find(hdr[..], dev, blk) == n);
      hide Contents, Notavail;
      got := Oldest(f, dev, blk);
    }

    twostate lemma StillValid()
      requires old(Valid()) && Sound() && active == old(active) && q == old(q)
      ensures Valid()
    {
    }

    /** A buffer just off the available list: written out, or given to the block. */
    method Oldest(f: nat, dev: int, blk: int) returns (got: Got)
      requires Valid() && f < n == hdr.Length && hdr[f].busy && f !in q && (dev >= 0 ==> Find(hdr[..], dev, blk) == n)
      modifies this, hdr, avForw, avBack, forw, back
      ensures Valid()
      ensures var c := old(Contents());
              if c.bufs[f].delwri then Contents() == StartWrite(c, f, true) && got == Again
              else && got == Have(f)
                   && Contents() == c.(bufs := c.bufs[f := Buf(dev, blk, true, false, false, false, false, false,
                                                               c.bufs[f].data)])
    {
      hide Sound, StartWrite, Find;
      if hdr[f].delwri {
        Bwrite(f, true);
        return Again;
      }
      Reassign(f, dev, blk);
      return Have(f);
    }

    /** `getblk`, left to itself. */
    method Getblk1(dev: int, blk: int) returns (got: Got)
      requires Valid()
      modifies this, hdr, avForw, avBack, forw, back
      ensures InRange(old(Contents())) && Valid()
      ensures (Contents(), got) == Search(old(Contents()), dev, blk)
    {
      Facts();
      ghost var c := Contents();
      got := GetblkOnce(dev, blk);
      hide Valid, Sound, Getblk, Search, InRange, Contents;
      while got == Again
        invariant Valid() && InRange(c) && (Contents(), got) == Getblk(c, dev, blk)
        invariant Search(c, dev, blk) == Search(old(Contents()), dev, blk)
        decreases |c.avail|
      {
        AgainShrinks(c, dev, blk);
        c := Contents();
        got := GetblkOnce(dev, blk);
      }
      SearchEnds(c, dev, blk);
    }

    // ----- bflush

    /** Once along the available list, to the first delayed write. */
    method FlushOnce(dev: int) returns (again: bool)
      requires Valid()
      modifies this, hdr, avForw, avBack
      ensures InRange(old(Contents())) && Valid()
      ensures var c := old(Contents()); var k := FirstLate(c, dev, 0);
              && again == (k < |c.avail|)
              && Contents() == if again then Evict(c, c.avail[k]) else c
    {
      Facts();
      var p := FindLate(dev);
      if p < n {
        FlushOne(p);
        return true;
      }
      return false;
    }

    /** The oldest delayed write on the available list, or the list's head. */
    method FindLate(dev: int) returns (p: nat)
      requires Valid() && InRange(Contents())
      ensures p == Node(n, avail, FirstLate(Contents(), dev, 0))
      ensures p < n <==> FirstLate(Contents(), dev, 0) < |avail|
    {
      Facts();
      ghost var c := Contents();
      ghost var i := 0;
      hide OneEach, DevOk, QueueOk, Node, Ring, FirstLate, Evict, Late, AvOk;
      HeadNodes();
      p := avForw[n];
      while p != n
        invariant i <= |avail| && p == Node(n, avail, i) && (p == n <==> i == |avail|)
        invariant i < |avail| ==> p == avail[i]
        invariant FirstLate(c, dev, 0) == FirstLate(c, dev, i)
        decreases |avail| - i
      {
        FirstLateStep(c, dev, i);
        if Late(hdr[p], dev) {
          return;
        }
        AvNext(n, hdr[..], avForw[..], avBack[..], avail, i);
        PlaceNode(i + 1);
        p := avForw[p];
        i := i + 1;
      }
    }

    /** A delayed write started. */
    method FlushOne(b: nat)
      requires Valid() && InRange(Contents()) && b in avail && b < n
      modifies this, hdr, avForw, avBack
      ensures Valid() && Contents() == Evict(old(Contents()), b)
    {
      Facts();
      assert b !in q;
      hide Sound;
      TakeOff(b);
      Bwrite(b, true);
    }

    lemma HeadNodes()
      ensures Node(n, avail, |avail|) == n && (avail != [] ==> Node(n, avail, 0) == avail[0])
    {
    }

    lemma PlaceNode(i: nat)
      requires i <= |avail|
      ensures Node(n, avail, i) == if i < |avail| then avail[i] else n
    {
    }

    /** `bflush`: every delayed write of the device, or of all, is started. */
    method Bflush(dev: int)
      requires Valid()
      modifies this, hdr, avForw, avBack
      ensures InRange(old(Contents())) && Valid()
      ensures Contents() == Flushed(old(Contents()), dev)
    {
      Facts();
      ghost var c := Contents();
      var again := FlushOnce(dev);
      hide Valid, Sound, Contents, InRange;
      while again
        invariant Valid() && InRange(c)
        invariant var k := FirstLate(c, dev, 0);
                  && again == (k < |c.avail|)
                  && Contents() == if again then Evict(c, c.avail[k]) else c
        invariant Flushed(c, dev) == Flushed(old(Contents()), dev)
        decreases |c.avail|
      {
        EvictShrinks(c, dev);
        c := Contents();
        again := FlushOnce(dev);
      }
    }

    // ----- binit

    /** `binit`: every buffer on the available list and on that of no device. */
    constructor (nbuf: nat, disk: imap<Key, Data>)
      requires forall k: Key :: k in disk
      ensures Valid() && n == nbuf
      ensures Contents() == Core(seq(nbuf, _ => Unused()), seq(nbuf, i => i), false, [], disk)
      ensures fresh(hdr) && fresh(avForw) && fresh(avBack) && fresh(forw) && fresh(back)
    {
      n := nbuf;
      this.disk := disk;
      hdr := new Buf[nbuf](_ => Unused().(busy := true));
      avForw := new nat[nbuf+1](_ => nbuf);
      avBack := new nat[nbuf+1](_ => nbuf);
      forw := new nat[nbuf+2](i => if i <= nbuf then nbuf else nbuf+1);
      back := new nat[nbuf+2](i => if i <= nbuf then nbuf else nbuf+1);
      fwanted := false;
      actf, actl, active := Null(nbuf), Null(nbuf), false;
      avail, q, none, rk := [], [], [], [];
      new;
      EmptyLists(n, hdr[..], avForw[..], avBack[..], forw[..], back[..]);
      hide AvOk, TwoRings, QueueOk, DevOk, OneEach, Ring;
      AddBufs();
    }

    method AddBufs()
      requires Arrays() && Added(0) && !active && !fwanted && actf == Null(n) && q == [] && rk == []
      requires forall k: Key :: k in disk
      modifies hdr, avForw, avBack, forw, back, `avail, `none
      ensures Valid()
      ensures Contents() == Core(seq(n, _ => Unused()), seq(n, i => i), false, [], disk)
    {
      hide Added;
      var i := 0;
      while i < n
        invariant i <= n && Arrays() && !active && !fwanted && actf == Null(n) && q == [] && rk == []
        invariant Added(i)
        modifies hdr, avForw, avBack, forw, back, `avail, `none
      {
        AddBuf(i);
        i := i + 1;
      }
      AllAdded();
    }

    lemma AllAdded()
      requires Arrays() && Added(n) && !active && !fwanted && actf == Null(n) && q == [] && rk == []
      requires forall k: Key :: k in disk
      ensures Valid()
      ensures Contents() == Core(seq(n, _ => Unused()), seq(n, i => i), false, [], disk)
    {
      hide AvOk, TwoRings;
      assert hdr[..] == seq(n, _ => Unused());
      assert avail == seq(n, i => i);
    }

    /** The first `i` buffers are in. */
    ghost predicate Added(i: nat)
      requires Arrays()
      reads this, hdr, avForw, avBack, forw, back
    {
      && i <= n
      && AvOk(n, hdr[..], avForw[..], avBack[..], avail)
      && TwoRings(n, forw[..], back[..], none, rk)
      && |avail| == i && (forall j :: 0 <= j < i ==> avail[j] == j)
      && (forall b :: b in none <==> 0 <= b < i)
      && forall j :: 0 <= j < n ==> hdr[j] == Unused().(busy := j >= i)
    }

    method AddBuf(i: nat)
      requires Arrays() && Added(i) && i < n && rk == []
      modifies hdr, avForw, avBack, forw, back, `avail, `none
      ensures Added(i + 1)
    {
      hide AvOk, TwoRings;
      ghost var h := hdr[..];
      TwoPushed(n, forw[..], back[..], none, rk, i, NODEV);
      ReleasedAv(n, h, avForw[..], avBack[..], avail, i, Unused());
      LinkAfter(forw, back, n, i);
      LinkBefore(avForw, avBack, n, i);
      hdr[i] := Unused();
      assert hdr[..] == h[i := Unused()];
      avail, none := avail + [i], [i] + none;
    }
  }

  /** Lists with nothing on them. */
  lemma EmptyLists(n: nat, hdr: seq<Buf>, af: seq<nat>, ab: seq<nat>, bf: seq<nat>, bb: seq<nat>)
    requires |hdr| == n && |af| == n+1 == |ab| && |bf| == n+2 == |bb|
    requires (forall b :: 0 <= b < n ==> hdr[b].busy) && af[n] == n && ab[n] == n
    requires bf[n] == n && bb[n] == n && bf[n+1] == n+1 && bb[n+1] == n+1
    ensures AvOk(n, hdr, af, ab, []) && TwoRings(n, bf, bb, [], [])
  {
  }
}
