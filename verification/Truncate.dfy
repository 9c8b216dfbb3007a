/** `itrunc`: every block of a file goes back on the free list, once. */
module Truncate {
  import opened Common
  import opened FreeStack
  import opened Volume
  import opened BlockMap
  import opened Inodes

  /** The file and the list as the call found them. */
  datatype Start = Start(ino: Ino, disk: Disk, lo: int, st: seq<int>) {
    ghost predicate Ok() { Sound(ino, disk, lo, st) }

    ghost function Block(p: Pos): int
      requires |ino.addr| == NADDR
    {
      At(ino, disk, p)
    }

    /** The numbers freed so far, the last on top. */
    ghost function Numbers(freed: seq<Pos>): (s: seq<int>)
      requires |ino.addr| == NADDR
      ensures |s| == |freed| && forall i :: 0 <= i < |freed| ==> s[i] == Block(freed[|freed|-1-i])
    {
      seq(|freed|, i requires 0 <= i < |freed| => Block(freed[|freed|-1-i]))
    }
  }

  ghost predicate Distinct(freed: seq<Pos>) {
    forall i, j :: 0 <= i < j < |freed| ==> freed[i] != freed[j]
  }

  /** Where the call has got to: the places in `freed` have given up their
      blocks, each once, and no other block has been written. */
  ghost predicate Freed(c: Start, freed: seq<Pos>, v: Volume)
    requires |c.ino.addr| == NADDR
    reads v, v.free
  {
    && v.Valid() && v.isize + 2 == c.lo && |v.disk| == |c.disk|
    && Distinct(freed) && (forall p :: p in freed ==> c.Block(p) != 0)
    && v.st == c.Numbers(freed) + c.st
    && forall b :: 0 <= b < |c.disk| && b !in c.Numbers(freed) ==> v.disk[b] == c.disk[b]
  }

  lemma NotListed(c: Start, freed: seq<Pos>, p: Pos)
    requires c.Ok() && c.Block(p) != 0 && p !in freed
    requires forall q :: q in freed ==> c.Block(q) != 0
    ensures InRange(c.Block(p), c.lo, c.disk) && c.Block(p) !in c.Numbers(freed) + c.st
  {
    assert SoundAt(c.ino, c.disk, c.lo, c.st, p);
    forall i | 0 <= i < |freed| ensures c.Numbers(freed)[i] != c.Block(p) {
      var q := freed[|freed|-1-i];
      assert q in freed;
      assert OnePlace(c.ino, c.disk, p, q);
    }
  }

  /** A block not yet freed is as it was. */
  lemma StillThere(c: Start, freed: seq<Pos>, v: Volume, p: Pos)
    requires c.Ok() && Freed(c, freed, v) && c.Block(p) != 0 && p !in freed
    ensures 0 <= c.Block(p) < |v.disk| == |c.disk| && v.disk[c.Block(p)] == c.disk[c.Block(p)]
  {
    NotListed(c, freed, p);
  }

  method FreeAt(v: Volume, ghost c: Start, ghost freed: seq<Pos>, ghost p: Pos, b: int)
    requires c.Ok() && Freed(c, freed, v) && p !in freed && b == c.Block(p) != 0
    modifies v`nfree, v`st, v`disk, v.free
    ensures Freed(c, freed + [p], v)
  {
    hide Rep, NoRepeat, At;
    NotListed(c, freed, p);
    v.Free(b);
    NumbersGrow(c, freed, p);
  }

  lemma NumbersGrow(c: Start, freed: seq<Pos>, p: Pos)
    requires |c.ino.addr| == NADDR
    ensures c.Numbers(freed + [p]) == [c.Block(p)] + c.Numbers(freed)
    ensures c.Numbers(freed + [p]) + c.st == [c.Block(p)] + (c.Numbers(freed) + c.st)
  {
  }

  /** A block's buffer: its 256 words and the word after them, which no transfer
      ever writes. */
  method Bread(v: Volume, b: int) returns (w: seq<int>)
    requires 0 <= b < |v.disk|
    ensures |w| == NWORDS + 1 && w[NWORDS] == 0 && w[..NWORDS] == v.disk[b]
  {
    w := v.disk[b] + [0];
  }

  /** The words of second indirect block `j`, last to first. */
  method FreeLeaf(v: Volume, ghost c: Start, ghost freed: seq<Pos>, ghost j: nat,
                  b: int) returns (ghost freed': seq<Pos>)
    requires c.Ok() && Freed(c, freed, v) && c.ino.large && j < NWORDS
    requires b == c.Block(Word(7, j)) != 0 && Word(7, j) !in freed
    requires forall k :: Word2(j, k) !in freed
    modifies v`nfree, v`st, v`disk, v.free
    ensures Freed(c, freed', v) && freed <= freed'
    ensures forall p :: p in freed' <==> p in freed || (p.Word2? && p.j == j && c.Block(p) != 0)
  {
    assert |c.ino.addr| == NADDR;
    hide Freed, Sound, InRange;
    StillThere(c, freed, v, Word(7, j));
    var w := Bread(v, b);
    assert w[..NWORDS] == c.disk[b];
    var k := NWORDS;
    freed' := freed;
    while k >= 0
      modifies v`nfree, v`st, v`disk, v.free
      invariant -1 <= k <= NWORDS
      invariant Freed(c, freed', v) && freed <= freed'
      invariant forall p :: p in freed' <==> p in freed || (p.Word2? && p.j == j && p.k > k && c.Block(p) != 0)
    {
      assert k < NWORDS ==> w[k] == c.disk[b][k] == c.Block(Word2(j, k));
      if w[k] != 0 {
        FreeAt(v, c, freed', Word2(j, k), w[k]);
        freed' := freed' + [Word2(j, k)];
      }
      k := k - 1;
    }
  }

  /** Places reached through slot `i`, from word `k` of its block up. */
  ghost predicate Under(c: Start, i: nat, k: int, p: Pos)
    requires |c.ino.addr| == NADDR
  {
    c.Block(p) != 0 &&
    match p
    case Slot(_) => false
    case Word(pi, pk) => pi == i && pk >= k
    case Word2(pj, _) => i == 7 && pj >= k
  }

  /** The blocks an indirect block names, last to first; those it names in turn
      first, when it is the double one. */
  method FreeIndirect(v: Volume, ghost c: Start, ghost freed: seq<Pos>, i: nat, b: int) returns (ghost freed': seq<Pos>)
    requires c.Ok() && Freed(c, freed, v) && c.ino.large && i < NADDR
    requires b == c.Block(Slot(i)) != 0 && Slot(i) !in freed
    requires forall p :: Under(c, i, 0, p) ==> p !in freed
    modifies v`nfree, v`st, v`disk, v.free
    ensures Freed(c, freed', v) && freed <= freed'
    ensures forall p :: p in freed' <==> p in freed || Under(c, i, 0, p)
  {
    assert |c.ino.addr| == NADDR;
    hide Freed, Sound, InRange;
    StillThere(c, freed, v, Slot(i));
    var w := Bread(v, b);
    assert w[..NWORDS] == c.disk[b];
    var k := NWORDS;
    freed' := freed;
    while k >= 0
      modifies v`nfree, v`st, v`disk, v.free
      invariant -1 <= k <= NWORDS
      invariant Freed(c, freed', v) && freed <= freed'
      invariant forall p :: p in freed' <==> p in freed || Under(c, i, k+1, p)
    {
      assert k < NWORDS ==> w[k] == c.disk[b][k] == c.Block(Word(i, k));
      if w[k] != 0 {
        ghost var before := freed';
        if i == 7 {
          assert forall m :: Word2(k, m) !in freed';
          freed' := FreeLeaf(v, c, freed', k, w[k]);
        }
        FreeAt(v, c, freed', Word(i, k), w[k]);
        freed' := freed' + [Word(i, k)];
      } else {
        assert forall m :: c.Block(Word(i, k)) == 0 && (i == 7 ==> c.Block(Word2(k, m)) == 0);
      }
      k := k - 1;
    }
  }

  /** One of the file's eight addresses, and all that is reached through it. */
  method FreeSlot(v: Volume, ip: Inode, ghost c: Start, ghost freed: seq<Pos>, i: nat) returns (ghost freed': seq<Pos>)
    requires Shape(v, ip) && c.Ok() && Freed(c, freed, v) && i < NADDR
    requires ip.large == c.ino.large && ip.addr[i] == c.ino.addr[i]
    requires forall p :: p in freed <==> c.Block(p) != 0 && SlotOf(p) > i
    modifies v`nfree, v`st, v`disk, v.free, ip.addr
    ensures ip.addr[..] == old(ip.addr[..])[i := 0]
    ensures Freed(c, freed', v)
    ensures forall p :: p in freed' <==> c.Block(p) != 0 && SlotOf(p) >= i
  {
    assert |c.ino.addr| == NADDR;
    hide Freed, Sound;
    freed' := freed;
    if ip.addr[i] != 0 {
      assert c.Block(Slot(i)) == ip.addr[i];
      if ip.large {
        freed' := FreeIndirect(v, c, freed', i, ip.addr[i]);
      }
      FreeAt(v, c, freed', Slot(i), ip.addr[i]);
      freed' := freed' + [Slot(i)];
      ip.addr[i] := 0;
    }
  }

  /** All eight, last to first. */
  method FreeSlots(v: Volume, ip: Inode, ghost c: Start) returns (ghost freed: seq<Pos>)
    requires Shape(v, ip) && c.Ok() && Freed(c, [], v) && ip.large == c.ino.large && ip.addr[..] == c.ino.addr
    modifies v`nfree, v`st, v`disk, v.free, ip.addr
    ensures Freed(c, freed, v) && ip.addr[..] == [0, 0, 0, 0, 0, 0, 0, 0]
    ensures forall p :: p in freed <==> c.Block(p) != 0
  {
    freed := [];
    var i := NADDR - 1;
    assert forall p :: SlotOf(p) >= NADDR ==> c.Block(p) == 0;
    hide Freed, Sound, At;
    while i >= 0
      modifies v`nfree, v`st, v`disk, v.free, ip.addr
      invariant -1 <= i < NADDR && Shape(v, ip)
      invariant forall s :: 0 <= s < NADDR ==> ip.addr[s] == if s > i then 0 else c.ino.addr[s]
      invariant Freed(c, freed, v)
      invariant forall p :: p in freed <==> c.Block(p) != 0 && SlotOf(p) >= i + 1
    {
      freed := FreeSlot(v, ip, c, freed, i);
      i := i - 1;
    }
  }

  /** `itrunc`.  The list gains exactly the file's blocks: data blocks and
      indirect blocks alike, each once, on top of what was there. */
  method Itrunc(v: Volume, ip: Inode) returns (ghost freed: seq<Pos>)
    requires Consistent(v, ip)
    modifies v`nfree, v`st, v`disk, v.free, ip.addr, ip`large, ip`size, ip`upd
    ensures v.Valid() && |v.disk| == |old(v.disk)|
    ensures ip.special ==> v.st == old(v.st) && v.disk == old(v.disk) && ip.Abs() == old(ip.Abs())
    ensures !ip.special ==>
              var c := Start(old(ip.Abs()), old(v.disk), v.isize + 2, old(v.st));
              && Distinct(freed) && (forall p :: p in freed <==> c.Block(p) != 0)
              && v.st == c.Numbers(freed) + old(v.st)
              && (forall b :: 0 <= b < |v.disk| && b !in c.Numbers(freed) ==> v.disk[b] == old(v.disk)[b])
              && ip.Abs() == Ino([0, 0, 0, 0, 0, 0, 0, 0], false) && ip.size == 0
              && Consistent(v, ip)
  {
    hide Rep, NoRepeat, Sound, At, InRange;
    if ip.special { return []; }
    ghost var c := Start(ip.Abs(), v.disk, v.isize + 2, v.st);
    assert c.Numbers([]) + c.st == c.st;
    freed := FreeSlots(v, ip, c);
    ip.large, ip.size, ip.upd := false, 0, true;
    ListStaysGood(c, freed, v.disk);
    EmptyFileIsSound(ip.Abs(), v.disk, v.isize + 2, v.st);
  }

  lemma ListStaysGood(c: Start, freed: seq<Pos>, disk: Disk)
    requires c.Ok() && |disk| == |c.disk|
    requires forall b :: b in c.st ==> InRange(b, c.lo, c.disk)
    requires forall p :: p in freed ==> c.Block(p) != 0
    ensures forall b :: b in c.Numbers(freed) + c.st ==> InRange(b, c.lo, disk)
  {
    forall b | b in c.Numbers(freed) ensures InRange(b, c.lo, disk) {
      var i :| 0 <= i < |freed| && c.Numbers(freed)[i] == b;
      var p := freed[|freed|-1-i];
      assert p in freed;
      assert SoundAt(c.ino, c.disk, c.lo, c.st, p);
    }
  }

  lemma EmptyFileIsSound(ino: Ino, disk: Disk, lo: int, st: seq<int>)
    requires ino == Ino([0, 0, 0, 0, 0, 0, 0, 0], false)
    ensures Sound(ino, disk, lo, st)
  {
    assert forall p :: At(ino, disk, p) == 0;
    assert forall p :: SoundAt(ino, disk, lo, st, p);
    assert forall p, q :: OnePlace(ino, disk, p, q);
  }

  function SlotOf(p: Pos): nat {
    match p
    case Slot(i) => i
    case Word(i, _) => i
    case Word2(_, _) => 7
  }
}
