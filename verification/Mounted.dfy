/** The builder's volume in the kernel's hands: mounted, opened and read by the
    kernel's own routines. */
module Mounted {
  import opened Common
  import opened FreeStack
  import opened BlockMap
  import opened Mkfs
  import opened Builder
  import opened Inodes
  import Volume

  // ----- the file system's part of the image

  lemma {:induction false} RepCut(n: int, free: seq<int>, lo: int, disk: Disk, m: nat, st: seq<int>)
    requires Rep(n, free, lo, disk, st) && m <= |disk| && forall b :: b in st ==> b < m
    ensures Rep(n, free, lo, disk[..m], st)
    decreases |st|
  {
    if n > 0 && free[0] != 0 && InRange(free[0], lo, disk) {
      assert st[..n][n-1] == free[0] && free[0] in st;
      assert forall b :: b in st[n..] ==> b in st;
      RepCut(disk[free[0]][0], disk[free[0]][1..NICFREE+1], lo, disk, m, st[n..]);
    }
  }

  lemma PlacesCut(ino: Ino, disk: Disk, m: nat, p: Pos)
    requires |ino.addr| == NADDR && m <= |disk| && forall q :: At(ino, disk, q) < m
    requires forall q :: At(ino, disk, q) >= 0
    ensures At(ino, disk[..m], p) == At(ino, disk, p)
  {
    match p
    case Slot(_) =>
    case Word(i, _) => assert At(ino, disk, Slot(i)) < m;
    case Word2(j, _) =>
      assert At(ino, disk, Slot(7)) < m && At(ino, disk, Word(7, j)) < m;
      assert At(ino, disk, Slot(7)) >= 0 && At(ino, disk, Word(7, j)) >= 0;
  }

  lemma SoundCut(ino: Ino, disk: Disk, m: nat, lo: int, st: seq<int>)
    requires Sound(ino, disk, lo, st) && m <= |disk| && forall q :: At(ino, disk, q) < m
    ensures Sound(ino, disk[..m], lo, st) && forall p :: At(ino, disk[..m], p) == At(ino, disk, p)
  {
    forall q ensures At(ino, disk, q) >= 0 { assert SoundAt(ino, disk, lo, st, q); }
    forall p ensures At(ino, disk[..m], p) == At(ino, disk, p) && SoundAt(ino, disk[..m], lo, st, p) {
      PlacesCut(ino, disk, m, p);
      assert SoundAt(ino, disk, lo, st, p);
    }
    forall p, q ensures OnePlace(ino, disk[..m], p, q) { assert OnePlace(ino, disk, p, q); }
  }

  // ----- mounting and opening

  /** A built image: `used` blocks in files, `st` free. */
  ghost predicate Built(data: seq<Sector>, nodes: seq<Node>, fsize: nat, isize: nat, used: seq<int>, st: seq<int>) {
    && isize + 2 <= fsize <= |data| && used + st == Ascending(isize + 2, fsize)
    && SuperOk(data, fsize, isize, st)
    && AllOk(data, nodes, |nodes|, isize + 2, st) && AllUse(data, nodes, |nodes|, used)
  }

  lemma BuiltBounds(data: seq<Sector>, nodes: seq<Node>, fsize: nat, isize: nat, used: seq<int>, st: seq<int>)
    requires Built(data, nodes, fsize, isize, used, st)
    ensures NoRepeat(st) && (forall b :: b in st ==> isize + 2 <= b < fsize)
    ensures (forall b :: b in used ==> isize + 2 <= b < fsize)
  {
    forall i, j | 0 <= i < j < |st| ensures st[i] != st[j] {
      assert (used + st)[|used| + i] != (used + st)[|used| + j];
    }
    forall b | b in st ensures isize + 2 <= b < fsize { assert b in used + st; }
    forall b | b in used ensures isize + 2 <= b < fsize { assert b in used + st; }
  }

  /** The kernel mounts what the builder made, and has the builder's free list. */
  method Mount(data: seq<Sector>, ghost nodes: seq<Node>, ghost fsize: nat, ghost isize: nat, ghost used: seq<int>,
               ghost st: seq<int>)
    returns (v: Volume.Volume)
    requires Built(data, nodes, fsize, isize, used, st)
    ensures v.Valid() && v.Good() && fresh(v) && fresh(v.free)
    ensures v.st == st && v.isize == isize && v.disk == View(data)[..fsize]
  {
    BuiltBounds(data, nodes, fsize, isize, used, st);
    var all := View(data);
    ghost var w := all[1];
    RepCut(w[2], w[3..3+NICFREE], isize + 2, all, fsize, st);
    hide AllOk, AllUse, Rep;
    v := new Volume.Volume.Mount(all, st);
  }

  lemma EntryHere(data: seq<Sector>, nodes: seq<Node>, fsize: nat, isize: nat, used: seq<int>, st: seq<int>, i: nat)
    requires Built(data, nodes, fsize, isize, used, st) && i < |nodes| && nodes[i].File?
    ensures InodeBlock(i + 1) < |data| && UsesOnly(data, i + 1, used)
    ensures var m := MapOf(Iget(data, i + 1));
            Sound(m, View(data), isize + 2, st) && ReadsBack(data, m, nodes[i].content)
    ensures SizeOf(Iget(data, i + 1)) == |nodes[i].content|
  {
    assert NodeOk(data, nodes[i], i + 1, isize + 2, st) && FileUses(data, nodes, i, used);
    hide Iget, ReadsBack, SuperOk, AllOk, AllUse, Sound, UsesOnly;
  }

  lemma UsedBelow(data: seq<Sector>, ino: nat, used: seq<int>, m: nat)
    requires InodeBlock(ino) < |data| && UsesOnly(data, ino, used) && 0 < m && forall b :: b in used ==> b < m
    ensures forall q {:trigger At(MapOf(Iget(data, ino)), View(data), q)} ::
              At(MapOf(Iget(data, ino)), View(data), q) < m
  {
    var f := MapOf(Iget(data, ino));
    hide At, Iget;
    forall q ensures At(f, View(data), q) < m {
      if At(f, View(data), q) != 0 { assert At(f, View(data), q) in used; }
    }
  }

  /** The map of an entry's file, in the mounted part. */
  lemma FileSound(data: seq<Sector>, nodes: seq<Node>, fsize: nat, isize: nat, used: seq<int>, st: seq<int>, i: nat)
    requires Built(data, nodes, fsize, isize, used, st) && i < |nodes| && nodes[i].File?
    ensures InodeBlock(i + 1) < |data|
    ensures var m := MapOf(Iget(data, i + 1));
            && Sound(m, View(data)[..fsize], isize + 2, st) && ReadsBack(data, m, nodes[i].content)
            && forall p :: At(m, View(data)[..fsize], p) == At(m, View(data), p)
    ensures SizeOf(Iget(data, i + 1)) == |nodes[i].content|
  {
    hide Iget, ReadsBack, Sound, At, View;
    BuiltBounds(data, nodes, fsize, isize, used, st);
    EntryHere(data, nodes, fsize, isize, used, st, i);
    var m := MapOf(Iget(data, i + 1));
    UsedBelow(data, i + 1, used, fsize);
    SoundCut(m, View(data), fsize, isize + 2, st);
  }

  /** The kernel opens the file of entry `i`: an inode `bmap` can work on. */
  method Open(v: Volume.Volume, data: seq<Sector>, ghost nodes: seq<Node>, ghost fsize: nat, ghost isize: nat,
              ghost used: seq<int>, ghost st: seq<int>, i: nat) returns (ip: Inode)
    requires Built(data, nodes, fsize, isize, used, st) && i < |nodes| && nodes[i].File?
    requires v.Valid() && v.Good() && v.st == st && v.isize == isize && v.disk == View(data)[..fsize]
    ensures fresh(ip) && fresh(ip.addr) && Consistent(v, ip) && ip.size == |nodes[i].content|
    ensures InodeBlock(i + 1) < |data| && ip.Abs() == MapOf(Iget(data, i + 1))
  {
    hide Iget, Sound, ReadsBack, Built, Rep, NoRepeat, View, At;
    FileSound(data, nodes, fsize, isize, used, st, i);
    var p := Iget(data, i + 1);
    ip := new Inode(p.addr, (p.mode / ILARG) % 2 == 1, false, SizeOf(p));
  }

  /** The whole way: the builder's image mounted, the file opened, and its block `b`
      found by the kernel's `bmap`: it holds the words of bytes 512b on, and nothing
      has changed. */
  method ReadBlock(data: seq<Sector>, ghost nodes: seq<Node>, ghost fsize: nat, ghost isize: nat,
                   ghost used: seq<int>, ghost st: seq<int>, i: nat, b: nat) returns (words: Block)
    requires Built(data, nodes, fsize, isize, used, st) && i < |nodes| && nodes[i].File?
    requires b < Sectors(nodes[i].content)
    ensures words == Words(Slice(nodes[i].content, b))
  {
    hide Built, Iget, Sound, Words, Slice, Sectors, Rep, NoRepeat, At, Steady;
    FileSound(data, nodes, fsize, isize, used, st, i);
    FewBlocks(data, nodes, fsize, isize, used, st, i);
    var v := Mount(data, nodes, fsize, isize, used, st);
    var ip := Open(v, data, nodes, fsize, isize, used, st, i);
    ghost var was := Lookup(ip.Abs(), v.disk, b);
    assert was == Lookup(ip.Abs(), View(data), b) != 0;
    FoundInRange(ip.Abs(), v.disk, v.isize + 2, v.st, b);
    var nb, _, _, _ := Bmap(v, ip, b, 0, false);
    words := v.disk[nb];
  }

  lemma FoundInRange(ino: Ino, disk: Disk, lo: int, st: seq<int>, b: int)
    requires Sound(ino, disk, lo, st) && Lookup(ino, disk, b) != 0
    ensures 0 < Lookup(ino, disk, b) < |disk|
  {
    assert SoundAt(ino, disk, lo, st, PosOf(ino.large, b));
  }

  lemma FewBlocks(data: seq<Sector>, nodes: seq<Node>, fsize: nat, isize: nat, used: seq<int>, st: seq<int>, i: nat)
    requires Built(data, nodes, fsize, isize, used, st) && i < |nodes| && nodes[i].File?
    ensures Sectors(nodes[i].content) <= MAXBLK
  {
    hide Built, Sound, ReadsBack, At, View, UsesOnly, Words;
    EntryHere(data, nodes, fsize, isize, used, st, i);
    SizeBound(data, i + 1);
  }

  lemma SizeBound(data: seq<Sector>, ino: nat)
    requires InodeBlock(ino) < |data|
    ensures SizeOf(Iget(data, ino)) < 256 * 0x1_0000
  {
    WordsAreWords(data[InodeBlock(ino)]);
    hide Words;
  }

  /** Builder and kernel agree: whatever fits is built, and then read back by the
      kernel, block by block, as what it was built from. */
  method BuildAndRead(boot: seq<Byte>, nodes: seq<Node>, fsize: nat, isize: nat, swap: nat, i: nat, b: nat)
    returns (r: Outcome, words: Block)
    requires fsize + swap < 0x1_0000 && forall k :: 0 <= k < |nodes| ==> PlainMode(nodes[k].mode)
    requires i < |nodes| && nodes[i].File? && b < Sectors(nodes[i].content)
    ensures r.Done? <==>
              && isize <= fsize - isize - 2 && |nodes| <= isize * INODES_PER_BLOCK
              && AllFit(nodes, fsize - isize - 2)
    ensures r.Done? ==> words == Words(Slice(nodes[i].content, b))
  {
    hide AllFit, Fails, SuperOk, AllOk, AllUse, Words, Slice, Sectors, Pad;
    words := Zeros();
    var image;
    ghost var st, used;
    r, image, st, used := Build(boot, nodes, fsize, isize, swap);
    if r.Done? {
      words := ReadBlock(image.data, nodes, fsize, isize, used, st, i, b);
    }
  }
}
