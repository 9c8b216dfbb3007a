/** The host-side builder of volumes: its free list is the kernel's stack, and
    the files it writes read back through the kernel's block map. */
module Mkfs {
  import opened Common
  import opened FreeStack
  import opened BlockMap

  const BLOCK: nat := 512

  type Sector = s: seq<Byte> | |s| == BLOCK witness seq(BLOCK, _ => 0)

  function Low(w: int): Byte { w % 256 }
  function High(w: int): Byte
    requires IsWord(w)
  {
    w / 256
  }
  function Join(lo: Byte, hi: Byte): int { lo + hi * 256 }

  predicate IsWord(w: int) { 0 <= w < 0x1_0000 }

  /** `bytes(block).ljust(BLOCK, b"\0")`. */
  function Pad(bs: seq<Byte>): (s: Sector)
    requires |bs| <= BLOCK
    ensures s[..|bs|] == bs && forall i :: |bs| <= i < BLOCK ==> s[i] == 0
  {
    bs + seq(BLOCK - |bs|, _ => 0)
  }

  /** `struct.pack("<nH", ...)`. */
  function Pack(ws: seq<int>): (bs: seq<Byte>)
    requires forall i :: 0 <= i < |ws| ==> IsWord(ws[i])
    ensures |bs| == 2 * |ws|
    ensures forall i :: 0 <= i < |ws| ==> bs[2*i] == Low(ws[i]) && bs[2*i+1] == High(ws[i])
  {
    seq(2 * |ws|, i requires 0 <= i < 2 * |ws| => if i % 2 == 0 then Low(ws[i/2]) else High(ws[i/2]))
  }

  /** A sector as the kernel sees it: 256 little-endian words. */
  function Words(s: Sector): (w: Block)
    ensures forall i :: 0 <= i < NWORDS ==> w[i] == Join(s[2*i], s[2*i+1])
  {
    seq(NWORDS, i requires 0 <= i < NWORDS => Join(s[2*i], s[2*i+1]))
  }

  function View(data: seq<Sector>): (d: Disk)
    ensures |d| == |data| && forall i :: 0 <= i < |data| ==> d[i] == Words(data[i])
  {
    seq(|data|, i requires 0 <= i < |data| => Words(data[i]))
  }

  /** Words packed into a block come back, followed by zeros. */
  lemma PackedWords(ws: seq<int>)
    requires |ws| <= NWORDS && forall i :: 0 <= i < |ws| ==> IsWord(ws[i])
    ensures var w := Words(Pad(Pack(ws)));
            w[..|ws|] == ws && forall i :: |ws| <= i < NWORDS ==> w[i] == 0
  {
    var bs := Pack(ws);
    var s := Pad(bs);
    forall i | 0 <= i < |ws| ensures Words(s)[i] == ws[i] {
      assert s[2*i] == s[..|bs|][2*i] && s[2*i+1] == s[..|bs|][2*i+1];
    }
  }

  datatype Outcome = Done | OutOfSpace | TooBig | BadWrite | BadField | BadGeometry

  class Image {
    var data: seq<Sector>

    constructor (nblocks: nat)
      ensures |data| == nblocks && forall i :: 0 <= i < nblocks ==> data[i] == Pad([])
    {
      data := seq(nblocks, _ => Pad([]));
    }

    /** Write one block, zero padded; refuse one outside the image or too long. */
    method Write(bno: int, block: seq<Byte>) returns (r: Outcome)
      modifies this
      ensures r.Done? <==> 0 <= bno < |old(data)| && |block| <= BLOCK
      ensures r.Done? || (r.BadWrite? && data == old(data))
      ensures r.Done? ==> data == old(data)[bno := Pad(block)]
    {
      if !(0 <= bno < |data|) || |block| > BLOCK { return BadWrite; }
      data := data[bno := Pad(block)];
      r := Done;
    }
  }

  const INODE_SIZE: nat := 32
  const INODES_PER_BLOCK: nat := 16
  const FIRST_INODE_BLOCK: nat := 2

  function Ascending(a: int, b: int): (s: seq<int>)
    ensures |s| == if a < b then b - a else 0
    ensures forall i :: 0 <= i < |s| ==> s[i] == a + i
  {
    if a < b then seq(b - a, i requires 0 <= i < b - a => a + i) else []
  }

  lemma AscendingPush(a: int, b: int)
    requires a < b
    ensures Ascending(a, b) == [a] + Ascending(a + 1, b)
  {
  }

  class FreeList {
    const image: Image
    ghost const lo: int
    var nfree: int
    var free: seq<int>
    ghost var st: seq<int>

    /** Between calls there is at least one entry, if only the 0 at the bottom. */
    ghost predicate Valid()
      reads this, image
    {
      && Rep(nfree, free, lo, View(image.data), st) && NoRepeat(st) && nfree >= 1
      && 0 < lo && |image.data| < 0x1_0000
      && (forall b :: b in st ==> InRange(b, lo, View(image.data)))
      && forall i :: 0 <= i < NICFREE ==> IsWord(free[i])
    }

    constructor (image: Image, ghost lo: int)
      ensures this.image == image && this.lo == lo && nfree == 0 && free == seq(NICFREE, _ => 0) && st == []
    {
      this.image, this.lo := image, lo;
      nfree, free, st := 0, seq(NICFREE, _ => 0), [];
    }
  
    /** The image of the list: the count and the hundred entries. */
    function PackList(): (bs: seq<Byte>)
      requires |free| == NICFREE && 0 <= nfree <= NICFREE
      requires forall i :: 0 <= i < NICFREE ==> IsWord(free[i])
      reads this
    {
      Pack([nfree] + free)
    }

    /** A full array moves into the block that becomes the next link. */
    method Spill(bno: int)
      requires Valid() && nfree == NICFREE && InRange(bno, lo, View(image.data)) && bno !in st
      modifies this`nfree, image
      ensures nfree == 0 && |image.data| == |old(image.data)|
      ensures Rep(1, free[0 := bno], lo, View(image.data), [bno] + st)
      ensures forall b :: 0 <= b < |image.data| && b != bno ==> image.data[b] == old(image.data)[b]
    {
      hide Rep, Pack, Pad, Words;
      RepBounds(nfree, free, lo, View(image.data), st);
      ghost var view := View(image.data);
      PackedWords([nfree] + free);
      var _ := image.Write(bno, PackList());
      nfree := 0;
      ghost var w := Words(image.data[bno]);
      assert View(image.data) == view[bno := w];
      SpilledWords(w, free);
      RepSpill(free, lo, view, st, bno, w, free[0 := bno]);
    }

    /** Put a number on the list. */
    method Give(bno: int)
      requires Valid() && InRange(bno, lo, View(image.data)) && bno !in st
      modifies this, image
      ensures Valid() && |image.data| == |old(image.data)| && st == [bno] + old(st)
      ensures forall b :: 0 <= b < |image.data| && b != bno ==> image.data[b] == old(image.data)[b]
    {
      hide Rep, View;
      RepBounds(nfree, free, lo, View(image.data), st);
      NoRepeatPush(st, bno);
      if nfree == NICFREE {
        Spill(bno);
      } else {
        RepPush(nfree, free, lo, View(image.data), st, bno);
      }
      free := free[nfree := bno];
      nfree := nfree + 1;
      st := [bno] + st;
    }

    method GiveNext(bno: int, fsize: nat)
      requires Valid() && lo <= bno < fsize <= |image.data| && st == Ascending(bno + 1, fsize)
      modifies this, image
      ensures Valid() && |image.data| == |old(image.data)| && st == Ascending(bno, fsize)
      ensures forall b :: 0 <= b < |image.data| && !(lo <= b < fsize) ==> image.data[b] == old(image.data)[b]
    {
      hide Rep, NoRepeat;
      assert bno !in st;
      AscendingPush(bno, fsize);
      Give(bno);
    }

    /** Block 0 freed first: the bottom of the stack. */
    method Ground()
      requires nfree == 0 && |free| == NICFREE && free == seq(NICFREE, _ => 0) && 0 < lo && |image.data| < 0x1_0000
      modifies this
      ensures Valid() && st == []
    {
      free, nfree, st := free[0 := 0], 1, [];
      RepOneZero(free, lo, View(image.data));
      hide Rep;
    }

    /** Free 0, then the data blocks from the top down: they will be handed out
        in ascending order, and then no more. */
    method Fill(fsize: nat, isize: nat)
      requires nfree == 0 && |free| == NICFREE && free == seq(NICFREE, _ => 0)
      requires lo == isize + 2 && fsize <= |image.data| < 0x1_0000
      modifies this, image
      ensures Valid() && |image.data| == |old(image.data)|
      ensures st == Ascending(isize + 2, fsize)
      ensures forall b :: 0 <= b < |image.data| && !(lo <= b < fsize) ==> image.data[b] == old(image.data)[b]
    {
      hide Rep, NoRepeat, View, InRange;
      Ground();
      var bno := fsize - 1;
      while bno > isize + 1
        modifies this, image
        invariant bno < fsize && if fsize <= isize + 2 then bno == fsize - 1 else isize + 1 <= bno
        invariant Valid() && |image.data| == |old(image.data)|
        invariant st == Ascending(bno + 1, fsize)
        invariant forall b :: 0 <= b < |image.data| && !(lo <= b < fsize) ==> image.data[b] == old(image.data)[b]
        decreases bno
      {
        GiveNext(bno, fsize);
        bno := bno - 1;
      }
      assert fsize <= isize + 2 ==> Ascending(isize + 2, fsize) == [] == Ascending(bno + 1, fsize);
    }

    /** The next free block; nothing when the 0 at the bottom comes up. */
    method Take() returns (bno: int)
      requires Valid()
      modifies this
      ensures old(st) == [] ==> bno == 0 && st == []
      ensures old(st) != [] ==> Valid() && bno == old(st)[0] != 0 && st == old(st)[1..]
    {
      hide Rep, Words;
      ghost var view := View(image.data);
      RepBounds(nfree, free, lo, view, st);
      RepTop(nfree, free, lo, view, st);
      ghost var was := free;
      nfree := nfree - 1;
      bno := free[nfree];
      free := free[nfree := 0];
      if bno == 0 { return; }
      RepPop(nfree + 1, was, lo, view, st);
      NoRepeatTail(st);
      assert bno in st;
      if nfree == 0 {
        var words := Words(image.data[bno]);
        WordsAreWords(image.data[bno]);
        nfree, free := words[0], words[1..NICFREE+1];
      } else {
        RepPrefix(nfree, was, free, lo, view, st[1..]);
      }
      st := st[1..];
    }
  }

  lemma WordsAreWords(s: Sector)
    ensures forall i :: 0 <= i < NWORDS ==> IsWord(Words(s)[i])
  {
  }

  /** Entries past the count do not matter. */
  lemma RepPrefix(n: int, free: seq<int>, free': seq<int>, lo: int, disk: Disk, st: seq<int>)
    requires Rep(n, free, lo, disk, st) && 0 < n && |free'| == |free| && free'[..n] == free[..n]
    ensures Rep(n, free', lo, disk, st)
  {
    assert forall i :: 0 <= i < n ==> free'[i] == free'[..n][i] == free[i];
    assert Rev(free', 0, n) == Rev(free, 0, n);
    assert Rev(free', 1, n) == Rev(free, 1, n);
  }

  lemma SpilledWords(w: Block, list: seq<int>)
    requires |list| == NICFREE && w[..NICFREE+1] == [NICFREE] + list
    ensures w[0] == NICFREE && w[1..NICFREE+1] == list
  {
    assert w[..NICFREE+1][1..] == list;
  }

  // ----- one file

  function Sectors(content: seq<Byte>): (n: nat) { (|content| + BLOCK - 1) / BLOCK }

  /** Bytes 512k.. of the content, as one sector. */
  function Slice(content: seq<Byte>, k: nat): Sector
    requires k < Sectors(content)
  {
    Pad(content[k * BLOCK..if (k + 1) * BLOCK <= |content| then (k + 1) * BLOCK else |content|])
  }

  /** Copy the content into fresh blocks; the data half of `write_content`. */
  method WriteBlocks(content: seq<Byte>, f: FreeList) returns (r: Outcome, blocks: seq<int>)
    requires f.Valid()
    modifies f, f.image
    ensures |f.image.data| == |old(f.image.data)|
    ensures r.Done? <==> Sectors(content) <= |old(f.st)|
    ensures r.Done? || r.OutOfSpace?
    ensures r.Done? ==>
              && f.Valid() && |blocks| == Sectors(content) && old(f.st) == blocks + f.st
              && (forall k :: 0 <= k < |blocks| ==> Holds(f.image, blocks[k], Slice(content, k)))
              && (forall b :: 0 <= b < |f.image.data| && b !in blocks ==> f.image.data[b] == old(f.image.data)[b])
  {
    hide Rep, NoRepeat, View, Slice, Pad;
    blocks := [];
    r := Done;
    var start := 0;
    ghost var all := f.st;
    while start < |content|
      modifies f, f.image
      invariant start == |blocks| * BLOCK && |blocks| <= Sectors(content)
      invariant f.Valid() && |f.image.data| == |old(f.image.data)|
      invariant NoRepeat(all) && all == blocks + f.st
      invariant forall k :: 0 <= k < |blocks| ==> Holds(f.image, blocks[k], Slice(content, k))
      invariant forall b :: 0 <= b < |f.image.data| && b !in blocks ==> f.image.data[b] == old(f.image.data)[b]
      decreases |content| - start
    {
      var end := if start + BLOCK <= |content| then start + BLOCK else |content|;
      SliceIs(content, |blocks|, end);
      var ok, bno := WriteOne(content[start..end], f);
      if !ok { return OutOfSpace, blocks; }
      FrontNotBack(blocks, [bno] + f.st);
      assert blocks + ([bno] + f.st) == (blocks + [bno]) + f.st;
      forall k | 0 <= k < |blocks| ensures Holds(f.image, blocks[k], Slice(content, k)) {
        assert bno in [bno] + f.st;
        assert blocks[k] in blocks;
      }
      blocks := blocks + [bno];
      start := start + BLOCK;
    }
  }

  lemma FrontNotBack(a: seq<int>, b: seq<int>)
    requires NoRepeat(a + b)
    ensures forall x :: x in b ==> x !in a
  {
    forall i, j | 0 <= i < |a| && 0 <= j < |b| ensures a[i] != b[j] {
      assert (a + b)[i] != (a + b)[|a| + j];
    }
  }

  lemma SliceIs(content: seq<Byte>, k: nat, end: nat)
    requires k * BLOCK < |content| && end == if k * BLOCK + BLOCK <= |content| then k * BLOCK + BLOCK else |content|
    ensures k < Sectors(content) && Slice(content, k) == Pad(content[k * BLOCK..end])
  {
  }

  /** One block taken from the list and written. */
  method WriteOne(part: seq<Byte>, f: FreeList) returns (ok: bool, bno: int)
    requires f.Valid() && |part| <= BLOCK
    modifies f, f.image
    ensures |f.image.data| == |old(f.image.data)|
    ensures ok <==> old(f.st) != []
    ensures ok ==>
              && f.Valid() && old(f.st) == [bno] + f.st && bno != 0 && Holds(f.image, bno, Pad(part))
              && (forall b :: 0 <= b < |f.image.data| && b != bno ==> f.image.data[b] == old(f.image.data)[b])
  {
    hide Rep;
    bno := f.Take();
    ok := bno != 0;
    if ok {
      assert bno in old(f.st);
      NoRepeatTail(old(f.st));
      ghost var view := View(f.image.data);
      var _ := f.image.Write(bno, part);
      RepFrame(f.nfree, f.free, f.lo, view, View(f.image.data), f.st);
    }
  }

  ghost predicate Holds(image: Image, b: int, s: Sector)
    reads image
  {
    0 <= b < |image.data| && image.data[b] == s
  }

  /** i_addr[] for a list of data blocks: the blocks themselves, or the block
      that names them. */
  function Inode(blocks: seq<int>, indirect: int): (ino: Ino)
    requires |blocks| <= NWORDS
    ensures |ino.addr| == NADDR
  {
    if |blocks| <= NADDR then Ino(blocks + seq(NADDR - |blocks|, _ => 0), false)
    else Ino([indirect] + seq(NADDR - 1, _ => 0), true)
  }

  /** The blocks the file takes from the list, in the order it takes them. */
  function Taken(blocks: seq<int>, indirect: int): seq<int> {
    if |blocks| <= NADDR then blocks else blocks + [indirect]
  }

  ghost predicate Indexed(disk: Disk, blocks: seq<int>, indirect: int) {
    |blocks| <= NWORDS &&
    (|blocks| > NADDR ==>
       && 0 <= indirect < |disk| && disk[indirect][..|blocks|] == blocks
       && forall k :: |blocks| <= k < NWORDS ==> disk[indirect][k] == 0)
  }

  /** Every place of the file, by the kernel's map. */
  lemma Places(disk: Disk, blocks: seq<int>, indirect: int, p: Pos)
    requires Indexed(disk, blocks, indirect) && (|blocks| > NADDR ==> indirect != 0)
    ensures At(Inode(blocks, indirect), disk, p) ==
            if |blocks| <= NADDR then (if p.Slot? && p.i < |blocks| then blocks[p.i] else 0)
            else if p == Slot(0) then indirect
            else if p.Word? && p.i == 0 && p.k < |blocks| then blocks[p.k] else 0
  {
    if |blocks| > NADDR {
      assert forall k :: 0 <= k < |blocks| ==> disk[indirect][k] == disk[indirect][..|blocks|][k];
    }
  }

  lemma FileIsSound(disk: Disk, blocks: seq<int>, indirect: int, lo: int, st: seq<int>)
    requires Indexed(disk, blocks, indirect) && NoRepeat(Taken(blocks, indirect) + st)
    requires forall b :: b in Taken(blocks, indirect) ==> InRange(b, lo, disk)
    ensures Sound(Inode(blocks, indirect), disk, lo, st)
    ensures forall b :: 0 <= b < MAXBLK ==>
              Lookup(Inode(blocks, indirect), disk, b) == if b < |blocks| then blocks[b] else 0
  {
    var ino, taken := Inode(blocks, indirect), Taken(blocks, indirect);
    assert |blocks| > NADDR ==> taken[|blocks|] == indirect && indirect in taken;
    assert forall k :: 0 <= k < |blocks| ==> taken[k] == blocks[k] && blocks[k] in taken;
    FrontNotBack(taken, st);
    forall i, j | 0 <= i < j < |taken| ensures taken[i] != taken[j] {
      assert (taken + st)[i] != (taken + st)[j];
    }
    forall p ensures SoundAt(ino, disk, lo, st, p) {
      Places(disk, blocks, indirect, p);
    }
    forall p, q ensures OnePlace(ino, disk, p, q) {
      Places(disk, blocks, indirect, p);
      Places(disk, blocks, indirect, q);
    }
    forall b | 0 <= b < MAXBLK ensures Lookup(ino, disk, b) == if b < |blocks| then blocks[b] else 0 {
      if Mapped(ino.large, b) {
        Places(disk, blocks, indirect, PosOf(ino.large, b));
      }
    }
  }

  /** By the kernel's map, the file is the content. */
  ghost predicate ReadsBack(data: seq<Sector>, ino: Ino, content: seq<Byte>)
    requires |ino.addr| == NADDR
  {
    forall b :: 0 <= b < MAXBLK ==>
      var nb := Lookup(ino, View(data), b);
      if b < Sectors(content) then 0 < nb < |data| && data[nb] == Slice(content, b) else nb == 0
  }

  lemma FileReadsBack(data: seq<Sector>, blocks: seq<int>, indirect: int, content: seq<Byte>, lo: int, st: seq<int>)
    requires Indexed(View(data), blocks, indirect) && NoRepeat(Taken(blocks, indirect) + st)
    requires forall b :: b in Taken(blocks, indirect) + st ==> InRange(b, lo, View(data))
    requires |blocks| == Sectors(content) && (|blocks| > NADDR ==> indirect != 0)
    requires forall k :: 0 <= k < |blocks| ==> 0 <= blocks[k] < |data| && data[blocks[k]] == Slice(content, k)
    ensures var ino := Inode(blocks, indirect);
            && ReadsBack(data, ino, content) && Sound(ino, View(data), lo, st)
            && forall p :: At(ino, View(data), p) != 0 ==> At(ino, View(data), p) in Taken(blocks, indirect)
  {
    hide Slice, NoRepeat, Sound, At, Lookup, Inode, Sectors, Words;
    var taken, disk := Taken(blocks, indirect), View(data);
    assert forall b :: b in taken ==> b in taken + st;
    FileIsSound(disk, blocks, indirect, lo, st);
    forall b | 0 <= b < |blocks| ensures InRange(blocks[b], lo, disk) {
      assert taken[b] == blocks[b];
      assert blocks[b] in taken + st;
    }
    forall p ensures At(Inode(blocks, indirect), disk, p) != 0 ==> At(Inode(blocks, indirect), disk, p) in taken {
      PlacesTaken(disk, blocks, indirect, p);
    }
  }

  lemma PlacesTaken(disk: Disk, blocks: seq<int>, indirect: int, p: Pos)
    requires Indexed(disk, blocks, indirect) && (|blocks| > NADDR ==> indirect != 0)
    ensures var b := At(Inode(blocks, indirect), disk, p); b != 0 ==> b in Taken(blocks, indirect)
  {
    var taken := Taken(blocks, indirect);
    assert |blocks| > NADDR ==> taken[|blocks|] == indirect && indirect in taken;
    assert forall k :: 0 <= k < |blocks| ==> taken[k] == blocks[k] && blocks[k] in taken;
    Places(disk, blocks, indirect, p);
  }

  /** The block that names the others. */
  method WriteIndirect(blocks: seq<int>, f: FreeList) returns (ok: bool, indirect: int)
    requires f.Valid() && NADDR < |blocks| <= NWORDS && NoRepeat(blocks + f.st)
    requires forall k :: 0 <= k < |blocks| ==> IsWord(blocks[k])
    modifies f, f.image
    ensures |f.image.data| == |old(f.image.data)|
    ensures ok <==> old(f.st) != []
    ensures ok ==>
              && f.Valid() && old(f.st) == [indirect] + f.st && indirect !in blocks && indirect != 0
              && Indexed(View(f.image.data), blocks, indirect)
              && (forall b :: 0 <= b < |f.image.data| && b != indirect ==> f.image.data[b] == old(f.image.data)[b])
  {
    hide Rep, Pack, Pad, Words;
    FrontNotBack(blocks, f.st);
    ok, indirect := WriteOne(Pack(blocks), f);
    PackedWords(blocks);
  }

  /** `write_content`. */
  method WriteContent(content: seq<Byte>, f: FreeList)
    returns (r: Outcome, ino: Ino, ghost taken: seq<int>)
    requires f.Valid()
    modifies f, f.image
    ensures |f.image.data| == |old(f.image.data)| && |ino.addr| == NADDR
    ensures var n := Sectors(content); var room := |old(f.st)|;
            r == if n > room then OutOfSpace else if n > NWORDS then TooBig
                 else if n > NADDR && n == room then OutOfSpace else Done
    ensures r.Done? ==>
              && f.Valid() && old(f.st) == taken + f.st
              && |taken| == Sectors(content) + (if Sectors(content) > NADDR then 1 else 0)
              && ReadsBack(f.image.data, ino, content)
              && Sound(ino, View(f.image.data), f.lo, f.st)
              && (forall b :: 0 <= b < |f.image.data| && b !in taken ==> f.image.data[b] == old(f.image.data)[b])
              && (forall p :: At(ino, View(f.image.data), p) != 0 ==> At(ino, View(f.image.data), p) in taken)
  {
    hide Rep, Slice, NoRepeat, Sound, ReadsBack, At, View;
    ghost var all := f.st;
    GoodBlocks(f);
    var blocks;
    r, blocks := WriteBlocks(content, f);
    ino, taken := Inode([], 0), [];
    if !r.Done? { return; }
    if |blocks| > NWORDS { return TooBig, ino, taken; }
    var indirect := 0;
    assert forall k :: 0 <= k < |blocks| ==> blocks[k] in all;
    if |blocks| > NADDR {
      var ok;
      ok, indirect := WriteIndirect(blocks, f);
      if !ok { return OutOfSpace, ino, taken; }
      assert forall k :: 0 <= k < |blocks| ==> blocks[k] != indirect;
    }
    taken, ino := Taken(blocks, indirect), Inode(blocks, indirect);
    assert all == taken + f.st;
    FileReadsBack(f.image.data, blocks, indirect, content, f.lo, f.st);
  }

  lemma GoodBlocks(f: FreeList)
    requires f.Valid()
    ensures forall b :: b in f.st ==> InRange(b, f.lo, View(f.image.data)) && IsWord(b)
  {
  }

  // ----- several files

  /** A file already written: sound, and the content it should be. */
  ghost predicate Written(data: seq<Sector>, ino: Ino, content: seq<Byte>, lo: int, st: seq<int>) {
    |ino.addr| == NADDR && Sound(ino, View(data), lo, st) && ReadsBack(data, ino, content)
  }

  ghost predicate Apart(data: seq<Sector>, a: Ino, b: Ino)
    requires |a.addr| == |b.addr| == NADDR
  {
    forall p, q :: At(a, View(data), p) != 0 ==> At(a, View(data), p) != At(b, View(data), q)
  }

  /** Writing only blocks from the list, or below the data blocks, changes nothing a
      sound file reads. */
  lemma PlacesStand(data: seq<Sector>, data': seq<Sector>, ino: Ino, lo: int, st: seq<int>, p: Pos)
    requires |data'| == |data| && Sound(ino, View(data), lo, st)
    requires forall b :: 0 <= b < |data| && lo <= b && b !in st ==> data'[b] == data[b]
    ensures At(ino, View(data'), p) == At(ino, View(data), p)
  {
    hide Words;
    var d := View(data);
    match p
    case Slot(_) =>
    case Word(i, _) =>
      assert SoundAt(ino, d, lo, st, Slot(i));
    case Word2(j, _) =>
      assert SoundAt(ino, d, lo, st, Slot(7));
      assert SoundAt(ino, d, lo, st, Word(7, j));
  }

  lemma WrittenStands(data: seq<Sector>, data': seq<Sector>, ino: Ino, content: seq<Byte>, lo: int, st: seq<int>,
                      st': seq<int>)
    requires |data'| == |data| && Written(data, ino, content, lo, st)
    requires forall b :: 0 <= b < |data| && lo <= b && b !in st ==> data'[b] == data[b]
    requires forall b :: b in st' ==> b in st
    ensures Written(data', ino, content, lo, st')
  {
    hide View, Slice, Sectors;
    var d, d' := View(data), View(data');
    forall p ensures At(ino, d', p) == At(ino, d, p) && SoundAt(ino, d', lo, st', p) {
      PlacesStand(data, data', ino, lo, st, p);
      assert SoundAt(ino, d, lo, st, p);
    }
    forall p, q ensures OnePlace(ino, d', p, q) {
      assert OnePlace(ino, d, p, q);
    }
    forall b | 0 <= b < MAXBLK
      ensures Lookup(ino, d', b) == Lookup(ino, d, b)
      ensures Lookup(ino, d, b) != 0 ==> data'[Lookup(ino, d, b)] == data[Lookup(ino, d, b)]
    {
      if Mapped(ino.large, b) {
        assert SoundAt(ino, d, lo, st, PosOf(ino.large, b));
      }
    }
  }

  lemma ApartStands(data: seq<Sector>, data': seq<Sector>, a: Ino, b: Ino, lo: int, st: seq<int>)
    requires |data'| == |data| && Sound(a, View(data), lo, st) && Sound(b, View(data), lo, st)
    requires forall b :: 0 <= b < |data| && lo <= b && b !in st ==> data'[b] == data[b]
    requires Apart(data, a, b)
    ensures Apart(data', a, b)
  {
    forall p, q ensures At(a, View(data'), p) != 0 ==> At(a, View(data'), p) != At(b, View(data'), q) {
      PlacesStand(data, data', a, lo, st, p);
      PlacesStand(data, data', b, lo, st, q);
    }
  }

  /** A file written from the list is apart from every file written before. */
  lemma NewApart(data: seq<Sector>, data': seq<Sector>, a: Ino, b: Ino, lo: int, st: seq<int>)
    requires |data'| == |data| && Sound(a, View(data), lo, st) && |b.addr| == NADDR
    requires forall b :: 0 <= b < |data| && lo <= b && b !in st ==> data'[b] == data[b]
    requires forall p :: At(b, View(data'), p) != 0 ==> At(b, View(data'), p) in st
    ensures Apart(data', a, b)
  {
    forall p, q ensures At(a, View(data'), p) != 0 ==> At(a, View(data'), p) != At(b, View(data'), q) {
      PlacesStand(data, data', a, lo, st, p);
      assert SoundAt(a, View(data), lo, st, p);
    }
  }
}
