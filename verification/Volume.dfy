/** A mounted volume: `alloc` and `free` on the superblock's list, over a block
    store as the buffer cache presents it. */
module Volume {
  import opened Common
  import opened FreeStack

  /** Block 1 is a superblock with this free list. */
  ghost predicate Mountable(all: Disk, list: seq<int>) {
    && 1 < |all| && 0 <= all[1][0] && 0 <= all[1][1] <= |all|
    && Rep(all[1][2], all[1][3..3+NICFREE], all[1][0] + 2, all[..all[1][1]], list) && NoRepeat(list)
  }

  class Volume {
    const isize: nat
    const free: array<int>
    var nfree: int
    var disk: Disk
    ghost var st: seq<int>

    ghost predicate Valid()
      reads this, free
    {
      && free.Length == NICFREE
      && Rep(nfree, free[..], isize + 2, disk, st) && NoRepeat(st)
    }

    /** No number on the list is one the allocator refuses. */
    ghost predicate Good()
      reads this
    {
      forall b :: b in st ==> InRange(b, isize + 2, disk)
    }

    /** A volume as it is mounted: its sizes and the list from the superblock, which
        stands in block 1; `list` is what that stands for. */
    constructor Mount(all: Disk, ghost list: seq<int>)
      requires Mountable(all, list)
      ensures Valid() && fresh(free) && st == list
      ensures isize == all[1][0] && disk == all[..all[1][1]]
    {
      isize, nfree, disk, st := all[1][0], all[1][2], all[..all[1][1]], list;
      free := new int[NICFREE](i requires 0 <= i < NICFREE => all[1][3 + i]);
      new;
      assert free[..] == all[1][3..3+NICFREE];
    }

    predicate BadBlock(b: int)
      reads this
    {
      b < isize + 2 || b >= |disk|
    }

    /** Take the last entry; when it is the link of the next hundred, read them
        in.  The result is 0 when the list is empty. */
    method Take() returns (bno: int)
      requires Valid()
      modifies this`nfree, this`st, free
      ensures Valid()
      ensures if old(st) == [] then bno == 0 && st == [] else bno == old(st)[0] != 0 && st == old(st)[1..]
    {
      hide Rep, NoRepeat;
      RepTop(nfree, free[..], isize + 2, disk, st);
      RepBounds(nfree, free[..], isize + 2, disk, st);
      if nfree <= 0 || free[nfree-1] == 0 {
        RepEmpty(free[..], isize + 2, disk);
        nfree := 0;
        return 0;
      }
      RepPop(nfree, free[..], isize + 2, disk, st);
      NoRepeatTail(st);
      nfree := nfree - 1;
      bno := free[nfree];
      st := st[1..];
      if nfree <= 0 {
        if BadBlock(bno) {
          RepEmpty(free[..], isize + 2, disk);
        } else {
          nfree := disk[bno][0];
          Fill(disk[bno][1..NICFREE+1]);
        }
      }
    }

    /** Hand out the first acceptable block of the list, cleared.  What was on
        the disk in its place is returned for the record: the clearing is in
        core only, until the block is written. */
    method Alloc() returns (bno: int, was: Block)
      requires Valid()
      modifies this`nfree, this`st, this`disk, free
      ensures Valid() && |disk| == |old(disk)|
      ensures bno == 0 ==> st == [] && disk == old(disk) && (old(Good()) ==> old(st) == [])
      ensures bno != 0 ==>
                && InRange(bno, isize + 2, old(disk))
                && was == old(disk)[bno] && disk == old(disk)[bno := Zeros()] && bno !in st
                && exists k :: 0 <= k < |old(st)| && old(st)[k] == bno && st == old(st)[k+1..]
                     && forall j :: 0 <= j < k ==> !InRange(old(st)[j], isize + 2, old(disk))
      ensures bno != 0 && old(Good()) ==> old(st) == [bno] + st && Good()
    {
      hide Rep;
      ghost var k := 0;
      was := Zeros();
      bno := Take();
      while bno != 0 && BadBlock(bno)
        invariant Valid() && disk == old(disk) && k <= |old(st)|
        invariant if bno == 0 then k == |old(st)| && st == []
                  else k < |old(st)| && bno == old(st)[k] && st == old(st)[k+1..]
        invariant forall j :: 0 <= j < k ==> !InRange(old(st)[j], isize + 2, disk)
        decreases |old(st)| - k
      {
        bno := Take();
        k := k + 1;
      }
      assert old(st) != [] ==> old(st)[0] in old(st);
      assert k > 0 ==> !InRange(old(st)[0], isize + 2, disk);
      if bno != 0 {
        assert k == 0 ==> old(st) == [bno] + st;
        assert forall b :: b in st ==> b in old(st);
        was := disk[bno];
        RepFrame(nfree, free[..], isize + 2, disk, disk[bno := Zeros()], st);
        disk := disk[bno := Zeros()];
      }
    }

    /** Put a block back.  A number outside the volume is ignored. */
    method Free(bno: int)
      requires Valid() && bno !in st
      modifies this`nfree, this`st, this`disk, free
      ensures Valid() && |disk| == |old(disk)|
      ensures forall b :: 0 <= b < |disk| && b != bno ==> disk[b] == old(disk)[b]
      ensures st == if InRange(bno, isize + 2, old(disk)) then [bno] + old(st) else old(st)
    {
      hide Rep;
      RepBounds(nfree, free[..], isize + 2, disk, st);
      if BadBlock(bno) { return; }
      NoRepeatPush(st, bno);
      if nfree <= 0 {
        nfree := 1;
        free[0] := 0;
        RepOneZero(free[..], isize + 2, disk);
      }
      if nfree >= NICFREE {
        var words := Spill();
        RepSpill(free[..], isize + 2, disk, st, bno, words, free[..][0 := bno]);
        disk := disk[bno := words];
        nfree := 0;
      } else {
        RepPush(nfree, free[..], isize + 2, disk, st, bno);
      }
      free[nfree] := bno;
      nfree := nfree + 1;
      st := [bno] + st;
    }

    /** The image of a chain block: the count and the hundred entries. */
    method Spill() returns (words: Block)
      requires free.Length == NICFREE
      ensures words[0] == nfree && words[1..NICFREE+1] == free[..]
    {
      var n, entries := nfree, free[..];
      words := seq(NWORDS, i requires 0 <= i < NWORDS && |entries| == NICFREE =>
                 if i == 0 then n else if i <= NICFREE then entries[i-1] else 0);
    }

    method Fill(words: seq<int>)
      requires free.Length == NICFREE == |words|
      modifies free
      ensures free[..] == words
    {
      for i := 0 to NICFREE
        invariant forall j :: 0 <= j < i ==> free[j] == words[j]
      {
        free[i] := words[i];
      }
    }
  }
}
