/** `bmap` and `itrunc`: a file's blocks are found, added and given back. */
module Inodes {
  import opened Common
  import opened FreeStack
  import opened Volume
  import opened BlockMap

  class Inode {
    const addr: array<int>
    const special: bool
    var large: bool
    var upd: bool
    var size: int

    /** An inode as `iget` brings it in. */
    constructor (addr: seq<int>, large: bool, special: bool, size: int)
      requires |addr| == NADDR
      ensures fresh(this.addr) && Abs() == Ino(addr, large) && this.special == special && !upd && this.size == size
    {
      this.addr := new int[NADDR](i requires 0 <= i < NADDR => addr[i]);
      this.large, this.special, upd, this.size := large, special, false, size;
      new;
      assert this.addr[..] == addr;
    }

    ghost function Abs(): Ino
      reads this, addr
    {
      Ino(addr[..], large)
    }
  }

  ghost predicate Shape(v: Volume, ip: Inode)
    reads v, ip, ip.addr
  {
    ip.addr.Length == NADDR && ip.addr != v.free && v.free.Length == NICFREE
  }

  /** The volume's list and the file's blocks are sound and apart. */
  ghost predicate Consistent(v: Volume, ip: Inode)
    reads v, v.free, ip, ip.addr
  {
    && Shape(v, ip) && v.Valid() && v.Good()
    && Sound(ip.Abs(), v.disk, v.isize + 2, v.st)
  }

  // ----- what one call may change

  ghost predicate InFile(ino: Ino, disk: Disk, b: int)
    requires |ino.addr| == NADDR
  {
    b != 0 && exists p :: At(ino, disk, p) == b
  }

  /** Every logical block but `bn` is where it was. */
  ghost predicate KeepsOthers(ino: Ino, disk: Disk, ino': Ino, disk': Disk, bn: int)
    requires |ino.addr| == NADDR == |ino'.addr|
  {
    forall b :: 0 <= b < MAXBLK && b != bn ==> Lookup(ino', disk', b) == Lookup(ino, disk, b)
  }

  /** No block is lost or made: what left the list is in the file. */
  ghost predicate Conserves(ino: Ino, disk: Disk, st: seq<int>, ino': Ino, disk': Disk, st': seq<int>)
    requires |ino.addr| == NADDR == |ino'.addr|
  {
    forall b :: InFile(ino', disk', b) || b in st' <==> InFile(ino, disk, b) || b in st
  }

  lemma GrownKeeps(ino: Ino, disk: Disk, st: seq<int>, ino': Ino, disk': Disk, st': seq<int>, pl: Pos, x: int, bn: int)
    requires |ino.addr| == NADDR == |ino'.addr| && ino.large == ino'.large && x != 0
    requires Grown(ino, disk, ino', disk', pl, x) && st == [x] + st'
    ensures Conserves(ino, disk, st, ino', disk', st')
    ensures (forall b :: Mapped(ino.large, b) && b != bn ==> PosOf(ino.large, b) != pl) ==>
              KeepsOthers(ino, disk, ino', disk', bn)
    ensures (Mapped(ino.large, bn) && PosOf(ino.large, bn) != pl) ==> Lookup(ino', disk', bn) == Lookup(ino, disk, bn)
    ensures (Mapped(ino.large, bn) && PosOf(ino.large, bn) == pl) ==> Lookup(ino', disk', bn) == x
  {
    forall b ensures InFile(ino', disk', b) || b in st' <==> InFile(ino, disk, b) || b in st {
      if InFile(ino, disk, b) {
        var p :| At(ino, disk, p) == b;
        assert At(ino', disk', p) == b;
      }
      if InFile(ino', disk', b) {
        var p :| At(ino', disk', p) == b;
        assert p == pl || At(ino, disk, p) == b;
      }
      assert At(ino', disk', pl) == x;
    }
  }

  /** What the list hands out is fresh for the file. */
  lemma TopIsFresh(ino: Ino, disk: Disk, lo: int, st: seq<int>, st': seq<int>, x: int)
    requires Sound(ino, disk, lo, st) && st == [x] + st' && NoRepeat(st) && InRange(x, lo, disk)
    ensures FreshFor(ino, disk, lo, st', x) && Sound(ino, disk, lo, st')
  {
    assert x in st;
    forall p ensures SoundAt(ino, disk, lo, st', p) && At(ino, disk, p) != x {
      assert SoundAt(ino, disk, lo, st, p);
    }
    forall p, q ensures OnePlace(ino, disk, p, q) {
    }
    NoRepeatTail(st);
    assert st[1..] == st';
  }

  // ----- adding one block

  /** A slot gets a fresh block, as in `ip->i_addr[i] = bp->b_blkno`. */
  method GrowSlot(v: Volume, ip: Inode, i: nat) returns (x: int, was: Block)
    requires Consistent(v, ip) && i < NADDR && ip.addr[i] == 0
    modifies v`nfree, v`st, v`disk, v.free, ip.addr
    ensures Consistent(v, ip) && |v.disk| == |old(v.disk)|
    ensures x == 0 ==> old(v.st) == v.st == [] && v.disk == old(v.disk) && ip.Abs() == old(ip.Abs())
    ensures x != 0 ==>
              && old(v.st) == [x] + v.st && InRange(x, v.isize + 2, v.disk)
              && ip.addr[..] == old(ip.addr[..])[i := x]
              && was == old(v.disk)[x] && v.disk == old(v.disk)[x := Zeros()]
              && Grown(old(ip.Abs()), old(v.disk), ip.Abs(), v.disk, Slot(i), x)
  {
    ghost var ino, disk := ip.Abs(), v.disk;
    hide Sound, Rep, Grown, FreshFor;
    x, was := v.Alloc();
    if x != 0 {
      TopIsFresh(ino, disk, v.isize + 2, old(v.st), v.st, x);
      SlotGrows(ino, disk, v.isize + 2, v.st, i, x);
      ip.addr[i] := x;
      GrownIsSound(ino, disk, ip.Abs(), v.disk, v.isize + 2, v.st, Slot(i), x);
    } else {
      assert old(v.st) == v.st;
    }
  }

  /** The block holding a word place. */
  ghost function Holder(ino: Ino, disk: Disk, pl: Pos): int
    requires |ino.addr| == NADDR && !pl.Slot?
  {
    match pl
    case Word(i, k) => At(ino, disk, Slot(i))
    case Word2(j, k) => At(ino, disk, Word(7, j))
  }

  ghost function WordOf(pl: Pos): nat
    requires !pl.Slot?
  {
    match pl
    case Word(i, k) => k
    case Word2(j, k) => k
  }

  lemma PlaceGrows(ino: Ino, disk: Disk, lo: int, st: seq<int>, pl: Pos, x: int)
    requires Sound(ino, disk, lo, st) && FreshFor(ino, disk, lo, st, x)
    requires ino.large && !pl.Slot? && WordOf(pl) < NWORDS && (pl.Word2? ==> pl.j < NWORDS)
    requires Holder(ino, disk, pl) != 0 && At(ino, disk, pl) == 0
    ensures var b := Holder(ino, disk, pl);
            InRange(b, lo, disk) && b != x &&
            Grown(ino, disk, ino, disk[x := Zeros()][b := disk[b][WordOf(pl) := x]], pl, x)
  {
    match pl
    case Word(i, k) => WordGrows(ino, disk, lo, st, i, k, x);
    case Word2(j, k) => Word2Grows(ino, disk, lo, st, j, k, x);
  }

  /** A word of an indirect block gets a fresh block: `bap[i] = nbp->b_blkno` and
      the delayed write of the indirect block. */
  method GrowWord(v: Volume, ip: Inode, ghost pl: Pos, bno: int, k: nat) returns (x: int, was: Block)
    requires Consistent(v, ip) && ip.large
    requires !pl.Slot? && k == WordOf(pl) < NWORDS && (pl.Word2? ==> pl.j < NWORDS)
    requires bno == Holder(ip.Abs(), v.disk, pl) != 0 && At(ip.Abs(), v.disk, pl) == 0
    modifies v`nfree, v`st, v`disk, v.free
    ensures Consistent(v, ip) && |v.disk| == |old(v.disk)| && ip.Abs() == old(ip.Abs())
    ensures x == 0 ==> old(v.st) == v.st == [] && v.disk == old(v.disk)
    ensures x != 0 ==>
              && old(v.st) == [x] + v.st && InRange(x, v.isize + 2, v.disk) && x != bno
              && InRange(bno, v.isize + 2, v.disk)
              && was == old(v.disk)[x]
              && v.disk == old(v.disk)[x := Zeros()][bno := old(v.disk)[bno][k := x]]
              && Grown(old(ip.Abs()), old(v.disk), ip.Abs(), v.disk, pl, x)
              && InFile(old(ip.Abs()), old(v.disk), bno)
  {
    ghost var ino, disk := ip.Abs(), v.disk;
    hide Sound, Rep, Grown, FreshFor, Holder;
    x, was := v.Alloc();
    if x != 0 {
      TopIsFresh(ino, disk, v.isize + 2, old(v.st), v.st, x);
      PlaceGrows(ino, disk, v.isize + 2, v.st, pl, x);
      HolderNotListed(ino, disk, v.isize + 2, v.st, pl);
      ghost var mid := v.disk;
      v.disk := v.disk[bno := v.disk[bno][k := x]];
      RepFrame(v.nfree, v.free[..], v.isize + 2, mid, v.disk, v.st);
      assert v.disk == disk[x := Zeros()][bno := disk[bno][k := x]];
      GrownIsSound(ino, disk, ino, v.disk, v.isize + 2, v.st, pl, x);
    } else {
      assert old(v.st) == v.st;
    }
  }

  lemma HolderNotListed(ino: Ino, disk: Disk, lo: int, st: seq<int>, pl: Pos)
    requires Sound(ino, disk, lo, st) && !pl.Slot? && Holder(ino, disk, pl) != 0
    ensures Holder(ino, disk, pl) !in st && InRange(Holder(ino, disk, pl), lo, disk)
    ensures InFile(ino, disk, Holder(ino, disk, pl))
  {
    match pl
    case Word(i, k) => assert SoundAt(ino, disk, lo, st, Slot(i));
    case Word2(j, k) => assert SoundAt(ino, disk, lo, st, Word(7, j));
  }

  // ----- bmap

  /** Indirect blocks missing on the way to a logical block of a large file. */
  ghost function Missing(ino: Ino, disk: Disk, bn: int): nat
    requires |ino.addr| == NADDR && ino.large && Mapped(true, bn)
  {
    match PosOf(true, bn)
    case Slot(i) => 0
    case Word(i, k) => if ino.addr[i] == 0 then 1 else 0
    case Word2(j, k) => if ino.addr[7] == 0 then 2 else if At(ino, disk, Word(7, j)) == 0 then 1 else 0
  }

  /** The other logical blocks stand, and so do the stock of blocks and every
      block of other files. */
  ghost predicate Steady(ino: Ino, disk: Disk, st: seq<int>, ino': Ino, disk': Disk, st': seq<int>, bn: int)
    requires |ino.addr| == NADDR == |ino'.addr|
  {
    && KeepsOthers(ino, disk, ino', disk', bn) && Conserves(ino, disk, st, ino', disk', st')
    && Touches(ino, disk, st, disk')
  }

  /** Only blocks of the file and of the list are written. */
  ghost predicate Touches(ino: Ino, disk: Disk, st: seq<int>, disk': Disk)
    requires |ino.addr| == NADDR
  {
    && |disk'| == |disk|
    && forall b :: 0 <= b < |disk| && !InFile(ino, disk, b) && b !in st ==> disk'[b] == disk[b]
  }

  lemma SteadyTrans(i1: Ino, d1: Disk, s1: seq<int>, i2: Ino, d2: Disk, s2: seq<int>, i3: Ino, d3: Disk, s3: seq<int>,
                    bn: int)
    requires |i1.addr| == |i2.addr| == |i3.addr| == NADDR
    requires Steady(i1, d1, s1, i2, d2, s2, bn) && Steady(i2, d2, s2, i3, d3, s3, bn)
    ensures Steady(i1, d1, s1, i3, d3, s3, bn)
  {
  }

  lemma SteadyRefl(ino: Ino, disk: Disk, st: seq<int>, bn: int)
    requires |ino.addr| == NADDR
    ensures Steady(ino, disk, st, ino, disk, st, bn)
  {
  }

  /** The slot for a logical block of a large file, made if it is missing. */
  method NeedSlot(v: Volume, ip: Inode, bn: int) returns (bno: int, unwritten: bool, was: Block)
    requires Consistent(v, ip) && ip.large && Mapped(true, bn)
    modifies v`nfree, v`st, v`disk, v.free, ip.addr, ip`upd
    ensures Consistent(v, ip) && ip.large && |v.disk| == |old(v.disk)|
    ensures var i := if bn >= 2048 then 7 else bn / 256;
            bno == ip.addr[i] && (unwritten ==> bno != 0) &&
            if old(ip.addr[i]) != 0 then
              ip.Abs() == old(ip.Abs()) && v.disk == old(v.disk) && v.st == old(v.st) && !unwritten
            else if bno == 0 then
              ip.Abs() == old(ip.Abs()) && v.disk == old(v.disk) && v.st == old(v.st) == []
            else
              && unwritten && old(v.st) == [bno] + v.st
              && InRange(bno, v.isize + 2, old(v.disk)) && was == old(v.disk)[bno]
              && v.disk == old(v.disk)[bno := Zeros()] && ip.addr[..] == old(ip.addr[..])[i := bno]
              && Lookup(ip.Abs(), v.disk, bn) == Lookup(old(ip.Abs()), old(v.disk), bn)
    ensures Steady(old(ip.Abs()), old(v.disk), old(v.st), ip.Abs(), v.disk, v.st, bn)
  {
    hide Sound, Rep, Conserves, KeepsOthers, At, Lookup;
    ghost var ino, disk, st := ip.Abs(), v.disk, v.st;
    var i := if bn >= 2048 then 7 else bn / 256;
    bno, unwritten, was := ip.addr[i], false, Zeros();
    SteadyRefl(ino, disk, st, bn);
    if bno == 0 {
      ip.upd := true;
      bno, was := GrowSlot(v, ip, i);
      if bno != 0 {
        unwritten := true;
        GrownKeeps(ino, disk, st, ip.Abs(), v.disk, v.st, Slot(i), bno, bn);
      }
    }
  }

  /** The second indirect block under slot 7, made if it is missing. */
  method NeedSecond(v: Volume, ip: Inode, bn: int, bno: int) returns (second: int, unwritten: bool, was: Block)
    requires Consistent(v, ip) && ip.large && Mapped(true, bn) && bn / 256 >= 7
    requires bno == ip.addr[7] != 0
    modifies v`nfree, v`st, v`disk, v.free
    ensures Consistent(v, ip) && ip.Abs() == old(ip.Abs()) && |v.disk| == |old(v.disk)|
    ensures var pl := Word(7, bn / 256 - 7); var s0 := At(old(ip.Abs()), old(v.disk), pl);
            second == At(ip.Abs(), v.disk, pl) && (unwritten ==> second != 0) &&
            if s0 != 0 then second == s0 && v.disk == old(v.disk) && v.st == old(v.st) && !unwritten
            else if second == 0 then v.disk == old(v.disk) && v.st == old(v.st) == []
            else
              && unwritten && old(v.st) == [second] + v.st
              && InRange(second, v.isize + 2, old(v.disk)) && was == old(v.disk)[second]
              && v.disk[second] == Zeros()
              && (forall b :: 0 <= b < |v.disk| && b != second && b != bno ==> v.disk[b] == old(v.disk)[b])
              && Lookup(ip.Abs(), v.disk, bn) == Lookup(old(ip.Abs()), old(v.disk), bn)
    ensures Steady(old(ip.Abs()), old(v.disk), old(v.st), ip.Abs(), v.disk, v.st, bn)
  {
    hide Sound, Rep, Conserves, KeepsOthers, Lookup;
    ghost var ino, disk, st := ip.Abs(), v.disk, v.st;
    var j := bn / 256 % 256 - 7;
    ghost var pl := Word(7, j);
    HolderNotListed(ino, disk, v.isize + 2, st, pl);
    SteadyRefl(ino, disk, st, bn);
    second, unwritten, was := v.disk[bno][j], false, Zeros();
    if second == 0 {
      second, was := GrowWord(v, ip, pl, bno, j);
      if second != 0 {
        unwritten := true;
        GrownKeeps(ino, disk, st, ino, v.disk, v.st, pl, second, bn);
      }
    }
  }

  /** The block after `bn`, as far as the same addresses tell: for read-ahead. */
  function Hint(ino: Ino, disk: Disk, bn: int): int
    requires |ino.addr| == NADDR
  {
    if (if ino.large then bn % 256 < 255 else bn < 7) then Lookup(ino, disk, bn + 1) else 0
  }

  lemma HintHere(ino: Ino, disk: Disk, bn: int, bno: int)
    requires |ino.addr| == NADDR && ino.large && Mapped(true, bn)
    requires bno == Holder(ino, disk, PosOf(true, bn)) != 0 && 0 <= bno < |disk|
    ensures Hint(ino, disk, bn) == if bn % 256 < 255 then disk[bno][bn % 256 + 1] else 0
  {
    if bn % 256 < 255 {
      assert (bn + 1) / 256 == bn / 256 && (bn + 1) % 256 == bn % 256 + 1;
    }
  }

  /** The data block, made if it is missing, its indirect block being there. */
  method NeedData(v: Volume, ip: Inode, bn: int, bno: int) returns (nb: int, rablock: int)
    requires Consistent(v, ip) && ip.large && Mapped(true, bn)
    requires bno == Holder(ip.Abs(), v.disk, PosOf(true, bn)) != 0
    modifies v`nfree, v`st, v`disk, v.free
    ensures Consistent(v, ip) && ip.Abs() == old(ip.Abs()) && |v.disk| == |old(v.disk)|
    ensures nb == Lookup(ip.Abs(), v.disk, bn) && rablock == Hint(ip.Abs(), v.disk, bn)
    ensures var nb0 := old(Lookup(ip.Abs(), v.disk, bn));
            if nb0 != 0 then nb == nb0 && v.disk == old(v.disk) && v.st == old(v.st)
            else if nb == 0 then v.disk == old(v.disk) && v.st == old(v.st) == []
            else old(v.st) == [nb] + v.st
    ensures Steady(old(ip.Abs()), old(v.disk), old(v.st), ip.Abs(), v.disk, v.st, bn)
    ensures InRange(bno, v.isize + 2, v.disk)
  {
    hide Sound, Rep, Conserves, KeepsOthers;
    ghost var ino, disk, st := ip.Abs(), v.disk, v.st;
    ghost var pl := PosOf(true, bn);
    SteadyRefl(ino, disk, st, bn);
    HolderNotListed(ino, disk, v.isize + 2, st, pl);
    nb := v.disk[bno][bn % 256];
    if nb == 0 {
      var x, _ := GrowWord(v, ip, pl, bno, bn % 256);
      nb := x;
      if nb != 0 {
        GrownKeeps(ino, disk, st, ino, v.disk, v.st, pl, nb, bn);
      }
    }
    HolderNotListed(ino, v.disk, v.isize + 2, v.st, pl);
    HintHere(ino, v.disk, bn, bno);
    rablock := 0;
    if bn % 256 < 255 {
      rablock := v.disk[bno][bn % 256 + 1];
    }
  }

  /** Release a block that was cleared in core but never written: a later read finds
      it still cleared, unless its buffer has been put to other use, and then finds
      what the disk has. */
  method Release(v: Volume, bno: int, was: Block, evicted: bool)
    requires v.Valid() && v.st == [] && 0 <= bno < |v.disk|
    modifies v`disk
    ensures v.Valid() && |v.disk| == |old(v.disk)|
    ensures v.disk == if evicted then old(v.disk)[bno := was] else old(v.disk)
  {
    if evicted {
      RepFrame(v.nfree, v.free[..], v.isize + 2, v.disk, v.disk[bno := was], v.st);
      v.disk := v.disk[bno := was];
    }
  }

  /** The state once a torn block, if any, is read as cleared. */
  ghost function Mended(disk: Disk, torn: int): Disk {
    if 0 < torn < |disk| then disk[torn := Zeros()] else disk
  }

  /** How many blocks the call has to take. */
  ghost function Needs(ino: Ino, disk: Disk, bn: int): nat
    requires |ino.addr| == NADDR && ino.large && Mapped(true, bn)
  {
    if Lookup(ino, disk, bn) != 0 then 0 else Missing(ino, disk, bn) + 1
  }

  /** Where a block left unwritten is: the indirect block `bn` is reached through, or
      the second of the two. */
  ghost predicate TornAt(ino: Ino, disk: Disk, bn: int, torn: int)
    requires |ino.addr| == NADDR
  {
    && ino.large && Mapped(true, bn)
    && match PosOf(true, bn)
       case Word(i, _) => i < 7 && torn == ino.addr[i]
       case Word2(j, _) => torn == ino.addr[7] || torn == At(ino, disk, Word(7, j))
       case Slot(_) => false
  }

  lemma TornHere(ino: Ino, disk: Disk, bn: int, torn: int)
    requires |ino.addr| == NADDR && ino.large && Mapped(true, bn)
    requires torn == (if bn / 256 < 7 then ino.addr[bn / 256] else ino.addr[7]) != 0
             || (bn / 256 >= 7 && torn == At(ino, disk, Word(7, bn / 256 - 7)))
    ensures TornAt(ino, disk, bn, torn)
  {
  }

  /** The large-file half of `bmap`.  `torn` is an indirect block that the call
      took and put in place but, the list having run out, never wrote.  `ra` is the
      read-ahead hint there was, and stays when an indirect block is not to be had. */
  method LargeBlock(v: Volume, ip: Inode, bn: int, ra: int, evicted: bool) returns (nb: int, torn: int, rablock: int)
    requires Consistent(v, ip) && ip.large && Mapped(true, bn)
    modifies v`nfree, v`st, v`disk, v.free, ip.addr, ip`upd
    ensures Shape(v, ip) && ip.large && |v.disk| == |old(v.disk)| && v.Valid() && v.Good()
    ensures Sound(ip.Abs(), Mended(v.disk, torn), v.isize + 2, v.st)
    ensures Steady(old(ip.Abs()), old(v.disk), old(v.st), ip.Abs(), Mended(v.disk, torn), v.st, bn)
    ensures nb == Lookup(ip.Abs(), Mended(v.disk, torn), bn)
    ensures nb != 0 <==> Needs(old(ip.Abs()), old(v.disk), bn) <= |old(v.st)|
    ensures old(Lookup(ip.Abs(), v.disk, bn)) != 0 ==>
              nb == old(Lookup(ip.Abs(), v.disk, bn)) && ip.Abs() == old(ip.Abs()) && v.disk == old(v.disk)
                  && v.st == old(v.st)
    ensures torn != 0 <==> 0 < |old(v.st)| <= Missing(old(ip.Abs()), old(v.disk), bn)
    ensures torn != 0 ==> TornAt(ip.Abs(), Mended(v.disk, torn), bn, torn)
    ensures torn != 0 ==> torn in old(v.st) && InRange(torn, v.isize + 2, v.disk) && v.st == []
                          && v.disk[torn] == if evicted then old(v.disk)[torn] else Zeros()
    ensures rablock == if Missing(old(ip.Abs()), old(v.disk), bn) <= |old(v.st)|
                       then Hint(ip.Abs(), Mended(v.disk, torn), bn) else ra
  {
    hide Sound, Rep, Conserves, KeepsOthers, Steady, TornAt, Hint;
    ghost var ino, disk, st := ip.Abs(), v.disk, v.st;
    torn, rablock := 0, ra;
    var bno, unwritten, was := NeedSlot(v, ip, bn);
    if bno == 0 { return 0, 0, ra; }
    ghost var ino1, disk1, st1 := ip.Abs(), v.disk, v.st;
    if bn / 256 >= 7 {
      var second, unwritten2, was2 := NeedSecond(v, ip, bn, bno);
      SteadyTrans(ino, disk, st, ino1, disk1, st1, ino1, v.disk, v.st, bn);
      if second == 0 {
        if unwritten {
          ghost var cleared := v.disk;
          Release(v, bno, was, evicted);
          torn := bno;
          assert Mended(v.disk, torn) == cleared;
          TornHere(ip.Abs(), cleared, bn, torn);
        }
        return 0, torn, ra;
      }
      bno, unwritten, was := second, unwritten2, was2;
    }
    ghost var ino2, disk2, st2 := ip.Abs(), v.disk, v.st;
    nb, rablock := NeedData(v, ip, bn, bno);
    SteadyTrans(ino, disk, st, ino2, disk2, st2, ino2, v.disk, v.st, bn);
    if nb == 0 && unwritten {
      Release(v, bno, was, evicted);
      torn := bno;
      assert Mended(v.disk, torn) == disk2;
      TornHere(ip.Abs(), disk2, bn, torn);
    }
  }

  /** Blocks taken by the conversion of a small file. */
  ghost function Converting(ino: Ino, bn: int): nat { if !ino.large && bn >= 8 then 1 else 0 }

  /** Indirect blocks that have to be taken before the data block. */
  ghost function Indirects(ino: Ino, disk: Disk, bn: int): nat
    requires |ino.addr| == NADDR && 0 <= bn < MAXBLK
  {
    if ino.large then Missing(ino, disk, bn)
    else if bn < 256 then 0 else if bn / 256 < 7 then 1 else 2
  }

  lemma FoundLacksNothing(ino: Ino, disk: Disk, bn: int)
    requires |ino.addr| == NADDR && 0 <= bn < MAXBLK && Lookup(ino, disk, bn) != 0
    ensures Converting(ino, bn) == 0 && Indirects(ino, disk, bn) == 0
  {
  }

  method SmallBlock(v: Volume, ip: Inode, bn: nat) returns (nb: int, rablock: int)
    requires Consistent(v, ip) && !ip.large && bn < 8
    modifies v`nfree, v`st, v`disk, v.free, ip.addr, ip`upd
    ensures Consistent(v, ip) && !ip.large && |v.disk| == |old(v.disk)|
    ensures Steady(old(ip.Abs()), old(v.disk), old(v.st), ip.Abs(), v.disk, v.st, bn)
    ensures nb == Lookup(ip.Abs(), v.disk, bn) && rablock == Hint(ip.Abs(), v.disk, bn)
    ensures nb != 0 <==> old(Lookup(ip.Abs(), v.disk, bn)) != 0 || old(v.st) != []
    ensures old(Lookup(ip.Abs(), v.disk, bn)) != 0 ==>
              nb == old(Lookup(ip.Abs(), v.disk, bn)) && ip.Abs() == old(ip.Abs()) && v.disk == old(v.disk)
                  && v.st == old(v.st)
  {
    hide Sound, Rep, Conserves, KeepsOthers;
    ghost var ino, disk, st := ip.Abs(), v.disk, v.st;
    SteadyRefl(ino, disk, st, bn);
    nb := ip.addr[bn];
    if nb == 0 {
      var x, _ := GrowSlot(v, ip, bn);
      nb := x;
      if nb != 0 {
        ip.upd := true;
        GrownKeeps(ino, disk, st, ip.Abs(), v.disk, v.st, Slot(bn), nb, bn);
      }
    }
    rablock := 0;
    if bn < 7 {
      rablock := ip.addr[bn + 1];
    }
  }

  /** The eight addresses go into an indirect block, which starts out zero. */
  method MoveAddresses(ip: Inode) returns (bap: Block)
    requires ip.addr.Length == NADDR
    modifies ip.addr
    ensures bap[..NADDR] == old(ip.addr[..]) && forall k :: NADDR <= k < NWORDS ==> bap[k] == 0
    ensures forall k :: 0 <= k < NADDR ==> ip.addr[k] == 0
  {
    bap := Zeros();
    var i := 0;
    while i < NADDR
      invariant i <= NADDR
      invariant bap[..i] == old(ip.addr[..])[..i] && (forall k :: i <= k < NWORDS ==> bap[k] == 0)
      invariant forall k :: 0 <= k < NADDR ==> ip.addr[k] == if k < i then 0 else old(ip.addr[k])
    {
      bap := bap[i := ip.addr[i]];
      ip.addr[i] := 0;
      i := i + 1;
    }
  }

  /** Small to large; false when there is no block for it. */
  method Convert(v: Volume, ip: Inode, ghost bn: int) returns (ok: bool)
    requires Consistent(v, ip) && !ip.large && 8 <= bn < MAXBLK
    modifies v`nfree, v`st, v`disk, v.free, ip.addr, ip`large
    ensures Consistent(v, ip) && |v.disk| == |old(v.disk)| && ok == ip.large
    ensures ok <==> old(v.st) != []
    ensures !ok ==> ip.Abs() == old(ip.Abs()) && v.disk == old(v.disk) && v.st == old(v.st)
    ensures ok ==> v.st == old(v.st)[1..]
    ensures ok ==> forall b :: 0 <= b < |v.disk| && b != old(v.st)[0] ==> v.disk[b] == old(v.disk)[b]
    ensures ok ==> Lookup(ip.Abs(), v.disk, bn) == 0
                   && Missing(ip.Abs(), v.disk, bn) == Indirects(old(ip.Abs()), old(v.disk), bn)
    ensures Steady(old(ip.Abs()), old(v.disk), old(v.st), ip.Abs(), v.disk, v.st, bn)
  {
    hide Sound, Rep, Steady, Lookup, Missing, Indirects;
    ghost var ino, disk, st := ip.Abs(), v.disk, v.st;
    SteadyRefl(ino, disk, st, bn);
    var bno, _ := v.Alloc();
    ok := bno != 0;
    if !ok {
      assert v.st == old(v.st);
      return;
    }
    TopIsFresh(ino, disk, v.isize + 2, st, v.st, bno);
    ghost var list := v.free[..];
    var bap := MoveAddresses(ip);
    ip.addr[0] := bno;
    assert v.free[..] == list;
    Rewritten(v.nfree, v.free[..], v.isize + 2, v.disk, bno, bap, v.st);
    v.disk := v.disk[bno := bap];
    ip.large := true;
    assert v.disk == disk[bno := bap] && ip.Abs() == Large(bno);
    Converted(ino, disk, v.isize + 2, v.st, bno, bap);
    ConvertedSteady(ino, disk, v.isize + 2, st, bno, bap, v.st, bn);
  }

  lemma ConvertedSteady(ino: Ino, disk: Disk, lo: int, st: seq<int>, x: int, w: Block, st': seq<int>, bn: int)
    requires Sound(ino, disk, lo, st') && FreshFor(ino, disk, lo, st', x) && !ino.large && 8 <= bn < MAXBLK
    requires 0 < x < |disk| && st == [x] + st'
    requires w[..NADDR] == ino.addr && forall k :: NADDR <= k < NWORDS ==> w[k] == 0
    ensures Steady(ino, disk, st, Large(x), disk[x := w], st', bn)
    ensures Lookup(Large(x), disk[x := w], bn) == 0
    ensures Missing(Large(x), disk[x := w], bn) == Indirects(ino, disk, bn)
  {
    Converted(ino, disk, lo, st', x, w);
    ConvertedConserves(ino, disk, st, x, w, st');
    hide Sound, FreshFor, Conserves;
  }

  lemma Rewritten(n: int, free: seq<int>, lo: int, disk: Disk, b: int, w: Block, st: seq<int>)
    requires Rep(n, free, lo, disk, st) && 0 <= b < |disk| && b !in st
    ensures Rep(n, free, lo, disk[b := w], st)
  {
    RepFrame(n, free, lo, disk, disk[b := w], st);
  }

  lemma ConvertedConserves(ino: Ino, disk: Disk, st: seq<int>, x: int, w: Block, st': seq<int>)
    requires |ino.addr| == NADDR && !ino.large && 0 < x < |disk| && st == [x] + st'
    requires w[..NADDR] == ino.addr && forall k :: NADDR <= k < NWORDS ==> w[k] == 0
    ensures Conserves(ino, disk, st, Large(x), disk[x := w], st')
  {
    var ino', disk' := Large(x), disk[x := w];
    assert forall k :: 0 <= k < NADDR ==> w[k] == w[..NADDR][k] == ino.addr[k];
    forall b ensures InFile(ino', disk', b) || b in st' <==> InFile(ino, disk, b) || b in st {
      if InFile(ino, disk, b) {
        var p :| At(ino, disk, p) == b;
        assert At(ino', disk', Word(0, p.i)) == b;
      }
      if InFile(ino', disk', b) {
        var p :| At(ino', disk', p) == b;
        assert p == Slot(0) || (p.Word? && At(ino, disk, Slot(p.k)) == b);
      }
      assert At(ino', disk', Slot(0)) == x;
    }
  }

  /** `bmap`.  Below 32768 it is total but for space: the block is found, or
      made as long as the list holds the blocks the path lacks.  `evicted` is whether
      the buffer of a block left unwritten is put to other use, `ra` what `rablock`
      was. */
  method Bmap(v: Volume, ip: Inode, bn: int, ra: int, evicted: bool)
    returns (nb: int, toobig: bool, torn: int, rablock: int)
    requires Consistent(v, ip)
    modifies v`nfree, v`st, v`disk, v.free, ip.addr, ip`upd, ip`large
    ensures Shape(v, ip) && |v.disk| == |old(v.disk)| && v.Valid() && v.Good()
    ensures toobig <==> !(0 <= bn < MAXBLK)
    ensures toobig ==>
              && nb == torn == 0 && rablock == ra && ip.Abs() == old(ip.Abs())
              && v.disk == old(v.disk) && v.st == old(v.st)
    ensures Sound(ip.Abs(), Mended(v.disk, torn), v.isize + 2, v.st)
    ensures Steady(old(ip.Abs()), old(v.disk), old(v.st), ip.Abs(), Mended(v.disk, torn), v.st, bn)
    ensures !toobig ==>
              && nb == Lookup(ip.Abs(), Mended(v.disk, torn), bn)
              && var was := old(Lookup(ip.Abs(), v.disk, bn));
                 var first := Converting(old(ip.Abs()), bn); var mid := Indirects(old(ip.Abs()), old(v.disk), bn);
                 && (was != 0 ==> nb == was && ip.Abs() == old(ip.Abs()) && v.disk == old(v.disk) && v.st == old(v.st))
                 && (was == 0 ==> (nb != 0 <==> |old(v.st)| > first + mid))
                 && (torn != 0 <==> first < |old(v.st)| <= first + mid)
                 && rablock == if was != 0 || first + mid <= |old(v.st)| then Hint(ip.Abs(), Mended(v.disk, torn), bn)
                    else ra
    ensures torn != 0 ==> TornAt(ip.Abs(), Mended(v.disk, torn), bn, torn)
    ensures torn != 0 ==> torn in old(v.st) && InRange(torn, v.isize + 2, v.disk) && v.st == []
                          && v.disk[torn] == if evicted then old(v.disk)[torn] else Zeros()
  {
    hide Sound, Rep, Conserves, KeepsOthers, Steady, At;
    ghost var ino, disk, st := ip.Abs(), v.disk, v.st;
    SteadyRefl(ino, disk, st, bn);
    nb, toobig, torn, rablock := 0, false, 0, ra;
    if !(0 <= bn < MAXBLK) { return 0, true, 0, ra; }
    if Lookup(ino, disk, bn) != 0 { FoundLacksNothing(ino, disk, bn); }
    if !ip.large {
      if bn < 8 {
        nb, rablock := SmallBlock(v, ip, bn);
        return;
      }
      var ok := Convert(v, ip, bn);
      if !ok { return; }
    }
    ghost var ino1, disk1, st1 := ip.Abs(), v.disk, v.st;
    nb, torn, rablock := LargeBlock(v, ip, bn, ra, evicted);
    assert torn != 0 && ino.large != ino1.large ==>
          torn in st[1..] && torn != st[0] by { if st != [] { NoRepeatTail(st); } }
    SteadyTrans(ino, disk, st, ino1, disk1, st1, ip.Abs(), Mended(v.disk, torn), v.st, bn);
  }

  /** Another file of the volume, sharing no block with this one, is untouched by
      whatever a steady call did, and still shares none. */
  lemma OtherFileStands(ino: Ino, disk: Disk, st: seq<int>, ino': Ino, disk': Disk, st': seq<int>, bn: int,
                        other: Ino, lo: int)
    requires |ino.addr| == NADDR == |ino'.addr| && Steady(ino, disk, st, ino', disk', st', bn)
    requires Sound(other, disk, lo, st) && forall b :: InFile(other, disk, b) ==> !InFile(ino, disk, b)
    requires forall b :: b in st' ==> b in st
    ensures Sound(other, disk', lo, st')
    ensures forall p :: At(other, disk', p) == At(other, disk, p)
    ensures forall b :: InFile(other, disk', b) ==> !InFile(ino', disk', b)
  {
    forall p ensures At(other, disk', p) == At(other, disk, p) {
      OtherBlockStands(ino, disk, st, disk', other, lo, Slot(7));
      match p
      case Slot(_) =>
      case Word(i, _) => OtherBlockStands(ino, disk, st, disk', other, lo, Slot(i));
      case Word2(j, _) => OtherBlockStands(ino, disk, st, disk', other, lo, Word(7, j));
    }
    forall p ensures SoundAt(other, disk', lo, st', p) { assert SoundAt(other, disk, lo, st, p); }
    forall p, q ensures OnePlace(other, disk', p, q) { assert OnePlace(other, disk, p, q); }
    forall b | InFile(other, disk', b) ensures !InFile(ino', disk', b) {
      var p :| At(other, disk', p) == b;
      assert At(other, disk, p) == b;
      assert SoundAt(other, disk, lo, st, p);
      assert InFile(other, disk, b);
    }
  }

  lemma OtherBlockStands(ino: Ino, disk: Disk, st: seq<int>, disk': Disk, other: Ino, lo: int, p: Pos)
    requires |ino.addr| == NADDR && Touches(ino, disk, st, disk')
    requires Sound(other, disk, lo, st) && forall b :: InFile(other, disk, b) ==> !InFile(ino, disk, b)
    ensures At(other, disk, p) != 0 ==> Get(disk', At(other, disk, p)) == Get(disk, At(other, disk, p))
  {
    assert SoundAt(other, disk, lo, st, p);
    if At(other, disk, p) != 0 {
      assert InFile(other, disk, At(other, disk, p));
    }
  }

  /** What a torn block does.  Where it holds data blocks, those are whatever words
      the disk had in it; where it holds second indirect blocks, so are they, and the
      data blocks whatever words the disk has in those. */
  lemma TornShows(ino: Ino, disk: Disk, torn: int, bn: int)
    requires |ino.addr| == NADDR && 0 < torn < |disk| && TornAt(ino, Mended(disk, torn), bn, torn)
    ensures Lookup(ino, Mended(disk, torn), bn) == 0
    ensures Lookup(ino, disk, bn) ==
            if bn / 256 < 7 || torn != ino.addr[7] then disk[torn][bn % 256]
            else if disk[torn][bn / 256 - 7] == 0 then 0
            else Get(disk, disk[torn][bn / 256 - 7])[bn % 256]
  {
  }

  /** For instance: a call for a file's block 0, with one block left, after which the
      file has the superblock for its block 3. */
  method TornExample(disk: Disk) returns (v: Volume, ip: Inode, nb: int)
    requires |disk| == 6 && disk[1][..5] == [1, 6, 2, 0, 5] && disk[5][3] == 1
    ensures ip.addr.Length == NADDR && nb == 0 && Lookup(ip.Abs(), v.disk, 3) == 1 && v.disk == disk
    ensures !Sound(ip.Abs(), v.disk, v.isize + 2, v.st)
  {
    hide KeepsOthers, Conserves;
    var w := disk[1];
    assert forall k :: 0 <= k < 5 ==> w[k] == w[..5][k];
    assert disk[..6] == disk;
    assert Rev(w[3..3+NICFREE], 1, 2) == [5];
    v := new Volume.Mount(disk, [5]);
    ip := new Inode([0, 0, 0, 0, 0, 0, 0, 0], true, false, 0);
    NothingSound(ip.Abs(), disk, 3, [5]);
    var toobig, torn, rablock;
    nb, toobig, torn, rablock := Bmap(v, ip, 0, 0, true);
    assert TornAt(ip.Abs(), Mended(v.disk, torn), 3, torn);
    TornShows(ip.Abs(), v.disk, torn, 3);
    assert At(ip.Abs(), v.disk, Word(0, 3)) == 1;
    assert !SoundAt(ip.Abs(), v.disk, 3, v.st, Word(0, 3));
  }

  lemma NothingSound(ino: Ino, disk: Disk, lo: int, st: seq<int>)
    requires |ino.addr| == NADDR && forall i :: 0 <= i < NADDR ==> ino.addr[i] == 0
    ensures Sound(ino, disk, lo, st) && forall p :: At(ino, disk, p) == 0
  {
    forall p ensures At(ino, disk, p) == 0 && SoundAt(ino, disk, lo, st, p) {}
    forall p, q ensures OnePlace(ino, disk, p, q) {}
  }
}
