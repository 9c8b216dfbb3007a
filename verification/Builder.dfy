/** The whole volume as the builder leaves it and the kernel finds it: the inodes,
    what they say of the files, and the superblock's free list. */
module Builder {
  import opened Common
  import opened FreeStack
  import opened BlockMap
  import opened Mkfs

  const ILARG := 0x1000

  /** An entry: a file or directory with its contents, or a device. */
  datatype Node =
    | File(mode: int, nlink: int, uid: int, gid: int, content: seq<Byte>)
    | Special(mode: int, nlink: int, uid: int, gid: int, major: nat, minor: nat)

  /** The bitwise or of two numbers. */
  function Or(a: nat, b: nat): nat {
    if a == 0 then b else if b == 0 then a
    else 2 * Or(a / 2, b / 2) + if a % 2 == 1 || b % 2 == 1 then 1 else 0
  }

  lemma {:induction false} OrApart(a: nat, b: nat, n: nat)
    requires b < Power(n)
    ensures Or(a * Power(n), b) == a * Power(n) + b
  {
    if n == 0 || b == 0 {
      if a == 0 { assert a * Power(n) == 0; }
    } else if a == 0 {
      assert a * Power(n) == 0;
    } else {
      OrApart(a, b / 2, n - 1);
      Doubled(a, Power(n - 1));
      assert a * Power(n) == 2 * (a * Power(n - 1));
      assert a * Power(n) != 0;
    }
  }

  lemma Doubled(a: nat, p: nat)
    ensures a * (2 * p) == 2 * (a * p)
  {
  }

  function Power(n: nat): (p: nat)
    ensures p > 0
  {
    if n == 0 then 1 else 2 * Power(n - 1)
  }

  /** The parts of an inode that `iget` brings in. */
  datatype Incore = Incore(mode: int, nlink: int, uid: int, gid: int, size0: int, size1: int, addr: seq<int>)

  /** The size, and the map, as the kernel makes them out. */
  function SizeOf(p: Incore): int { p.size0 * 0x1_0000 + p.size1 }

  function MapOf(p: Incore): Ino { Ino(p.addr, (p.mode / ILARG) % 2 == 1) }

  /** `iget`: twelve words from the inode's place in its block. */
  function Iget(data: seq<Sector>, ino: nat): (p: Incore)
    requires (ino + 31) / 16 < |data|
    ensures |p.addr| == NADDR
  {
    FromWords(Words(data[(ino + 31) / 16]), (ino + 31) % 16)
  }

  function FromWords(w: Block, slot: nat): (p: Incore)
    requires slot < 16
    ensures |p.addr| == NADDR
  {
    var o := 16 * slot;
    Incore(w[o], w[o+1] % 256, w[o+1] / 256, w[o+2] % 256, w[o+2] / 256, w[o+3], w[o+4..o+12])
  }

  // ----- one inode

  predicate Fits(p: Incore) {
    && IsWord(p.mode) && 0 <= p.nlink < 256 && 0 <= p.uid < 256 && 0 <= p.gid < 256
    && 0 <= p.size0 < 256 && IsWord(p.size1) && |p.addr| == NADDR && forall i :: 0 <= i < NADDR ==> IsWord(p.addr[i])
  }

  /** The 32 bytes of an inode, the times zero. */
  function PackInode(p: Incore): (bs: seq<Byte>)
    requires Fits(p)
    ensures |bs| == INODE_SIZE
  {
    Pack([p.mode]) + [p.nlink, p.uid, p.gid, p.size0] + Pack([p.size1] + p.addr + [0, 0, 0, 0])
  }

  /** Where `write_inode` puts inode `ino`. */
  function InodeBlock(ino: nat): int { (ino + INODES_PER_BLOCK * FIRST_INODE_BLOCK - 1) / INODES_PER_BLOCK }

  function WithInode(data: seq<Sector>, ino: nat, packed: seq<Byte>): (data': seq<Sector>)
    requires InodeBlock(ino) < |data| && |packed| == INODE_SIZE
    ensures |data'| == |data| && forall b :: 0 <= b < |data| && b != InodeBlock(ino) ==> data'[b] == data[b]
  {
    var slot := ino + INODES_PER_BLOCK * FIRST_INODE_BLOCK - 1;
    var b := slot / INODES_PER_BLOCK;
    data[b := Splice(data[b], slot % INODES_PER_BLOCK, packed)]
  }

  lemma JoinedParts(w: int)
    requires IsWord(w)
    ensures Join(Low(w), High(w)) == w
  {
  }

  lemma PackedPair(ws: seq<int>, i: nat)
    requires i < |ws| && forall j :: 0 <= j < |ws| ==> IsWord(ws[j])
    ensures Pack(ws)[2*i] == Low(ws[i]) && Pack(ws)[2*i+1] == High(ws[i])
  {
  }

  lemma WordPair(s: Sector, k: nat)
    requires k < NWORDS
    ensures Words(s)[k] == Join(s[2*k], s[2*k+1])
  {
  }

  function Splice(s: Sector, slot: nat, bs: seq<Byte>): (s': Sector)
    requires slot < 16 && |bs| == INODE_SIZE
  {
    s[..slot * INODE_SIZE] + bs + s[slot * INODE_SIZE + INODE_SIZE..]
  }

  lemma SplicedWord(s: Sector, slot: nat, ws: seq<int>, k: nat)
    requires slot < 16 && |ws| == 16 && (forall i :: 0 <= i < 16 ==> IsWord(ws[i])) && k < NWORDS
    ensures Words(Splice(s, slot, Pack(ws)))[k] == if 16*slot <= k < 16*slot + 16 then ws[k - 16*slot] else Words(s)[k]
  {
    hide Pack, Words, Join, Low, High, Splice;
    var bs := Pack(ws);
    var s' := Splice(s, slot, bs);
    WordPair(s', k);
    WordPair(s, k);
    SplicedByte(s, slot, bs, 2*k);
    SplicedByte(s, slot, bs, 2*k+1);
    if 16*slot <= k < 16*slot + 16 {
      PackedPair(ws, k - 16*slot);
      JoinedParts(ws[k - 16*slot]);
    }
  }

  /** Sixteen words spliced into a sector by their bytes. */
  lemma WordsSpliced(s: Sector, slot: nat, ws: seq<int>)
    requires slot < 16 && |ws| == 16 && forall i :: 0 <= i < 16 ==> IsWord(ws[i])
    ensures Words(Splice(s, slot, Pack(ws))) == Words(s)[..16*slot] + ws + Words(s)[16*slot+16..]
  {
    hide Pack, Words, Join, Low, High, Splice, IsWord;
    forall k | 0 <= k < NWORDS
      ensures Words(Splice(s, slot, Pack(ws)))[k] == if 16*slot <= k < 16*slot + 16 then ws[k - 16*slot]
          else Words(s)[k]
    {
      SplicedWord(s, slot, ws, k);
    }
  }

  lemma SplicedByte(s: Sector, slot: nat, bs: seq<Byte>, x: nat)
    requires slot < 16 && |bs| == INODE_SIZE && x < BLOCK
    ensures var o := slot * INODE_SIZE; Splice(s, slot, bs)[x] == if o <= x < o + INODE_SIZE then bs[x - o] else s[x]
  {
  }

  function InodeWords(p: Incore): (ws: seq<int>)
    requires Fits(p)
    ensures |ws| == 16 && forall i :: 0 <= i < 16 ==> IsWord(ws[i])
  {
    [p.mode, Join(p.nlink, p.uid), Join(p.gid, p.size0), p.size1] + p.addr + [0, 0, 0, 0]
  }

  lemma PackedAsWords(p: Incore)
    requires Fits(p)
    ensures PackInode(p) == Pack(InodeWords(p))
  {
    var a, b, tail := PackInode(p), Pack(InodeWords(p)), [p.size1] + p.addr + [0, 0, 0, 0];
    forall k | 0 <= k < 16 ensures a[2*k] == b[2*k] && a[2*k+1] == b[2*k+1] {
      PackedPair(InodeWords(p), k);
      PackedPart(p, k);
    }
    EvenOdd(a, b);
  }

  lemma PackedPart(p: Incore, k: nat)
    requires Fits(p) && k < 16
    ensures var a, w := PackInode(p), InodeWords(p)[k]; a[2*k] == Low(w) && a[2*k+1] == High(w)
  {
    var tail := [p.size1] + p.addr + [0, 0, 0, 0];
    hide Pack;
    PackedPair([p.mode], 0);
    if k >= 3 {
      PackedPair(tail, k - 3);
      hide Low, High, Join;
      assert PackInode(p)[2*k] == Pack(tail)[2*(k-3)] && PackInode(p)[2*k+1] == Pack(tail)[2*(k-3)+1];
      assert InodeWords(p)[k] == tail[k-3];
    }
  }

  lemma EvenOdd(a: seq<Byte>, b: seq<Byte>)
    requires |a| == |b| == 32 && forall k :: 0 <= k < 16 ==> a[2*k] == b[2*k] && a[2*k+1] == b[2*k+1]
    ensures a == b
  {
    forall x | 0 <= x < 32 ensures a[x] == b[x] {
      if x % 2 == 0 { assert a[2*(x/2)] == b[2*(x/2)]; } else { assert a[2*(x/2)+1] == b[2*(x/2)+1]; }
    }
  }

  lemma PartOf(w: Block, slot: nat)
    requires slot < 16
    ensures var o := 16 * slot; var part := w[o..o+16];
            w[o] == part[0] && w[o+1] == part[1] && w[o+2] == part[2] && w[o+3] == part[3]
                && w[o+4..o+12] == part[4..12]
  {
    var o := 16 * slot;
    var part := w[o..o+16];
    forall i | 0 <= i < 8 ensures w[o+4..o+12][i] == part[4..12][i] {
      assert part[4 + i] == w[o + (4 + i)];
    }
    assert w[o+4..o+12] == part[4..12];
  }

  lemma FromInodeWords(w: Block, slot: nat, p: Incore)
    requires slot < 16 && Fits(p) && w[16*slot..16*slot+16] == InodeWords(p)
    ensures FromWords(w, slot) == p
  {
    var ws := InodeWords(p);
    PartOf(w, slot);
    assert ws[4..12] == p.addr;
  }

  lemma FromSameWords(w: Block, w': Block, slot: nat)
    requires slot < 16 && w[16*slot..16*slot+16] == w'[16*slot..16*slot+16]
    ensures FromWords(w, slot) == FromWords(w', slot)
  {
    PartOf(w, slot);
    PartOf(w', slot);
  }

  /** What the builder writes in an inode's place is what the kernel finds there. */
  lemma InodeReads(data: seq<Sector>, ino: nat, p: Incore)
    requires InodeBlock(ino) < |data| && Fits(p)
    ensures Iget(WithInode(data, ino, PackInode(p)), ino) == p
  {
    var b, slot, ws := InodeBlock(ino), (ino + 31) % 16, InodeWords(p);
    hide Pack, PackInode, Words, InodeWords, FromWords, Splice, Fits;
    PackedAsWords(p);
    WordsSpliced(data[b], slot, ws);
    FromInodeWords(Words(Splice(data[b], slot, PackInode(p))), slot, p);
  }

  /** And no other inode is touched. */
  lemma OtherInodes(data: seq<Sector>, ino: nat, p: Incore, other: nat)
    requires InodeBlock(ino) < |data| && Fits(p) && other != ino && InodeBlock(other) < |data|
    ensures Iget(WithInode(data, ino, PackInode(p)), other) == Iget(data, other)
  {
    hide Pack, PackInode, Words, InodeWords, FromWords, Splice, Fits;
    if InodeBlock(other) == InodeBlock(ino) {
      var b, slot, ws := InodeBlock(ino), (ino + 31) % 16, InodeWords(p);
      PackedAsWords(p);
      WordsSpliced(data[b], slot, ws);
      OtherWords(Words(data[b]), ws, slot, (other + 31) % 16);
      FromSameWords(Words(data[b]), Words(Splice(data[b], slot, PackInode(p))), (other + 31) % 16);
    }
  }

  lemma OtherWords(w: Block, ws: seq<int>, slot: nat, x: nat)
    requires slot < 16 && x < 16 && x != slot && |ws| == 16
    ensures (w[..16*slot] + ws + w[16*slot+16..])[16*x..16*x+16] == w[16*x..16*x+16]
  {
  }

  // ----- an entry

  /** A mode the description of a volume can give: never with the bit that says the
      file is large. */
  predicate PlainMode(mode: int) { (mode / ILARG) % 2 == 0 }

  lemma LargeMode(mode: int)
    requires IsWord(mode) && PlainMode(mode)
    ensures IsWord(mode + ILARG) && ((mode + ILARG) / ILARG) % 2 == 1
  {
  }

  /** The kernel finds the entry in inode `ino`: its fields, and if it has contents
      their size and, by the kernel's map, themselves. */
  ghost predicate NodeOk(data: seq<Sector>, node: Node, ino: nat, lo: int, st: seq<int>) {
    && InodeBlock(ino) < |data|
    && var p := Iget(data, ino);
       && p.nlink == node.nlink && p.uid == node.uid && p.gid == node.gid
       && match node
          case File(mode, _, _, _, content) =>
            && p.mode == mode + (if MapOf(p).large then ILARG else 0)
            && SizeOf(p) == |content| && Written(data, MapOf(p), content, lo, st)
          case Special(mode, _, _, _, major, minor) =>
            p.mode == mode && SizeOf(p) == 0 && p.addr == [Or(major * 256, minor), 0, 0, 0, 0, 0, 0, 0]
  }

  lemma NodeStands(data: seq<Sector>, data': seq<Sector>, node: Node, ino: nat, lo: int, st: seq<int>, st': seq<int>)
    requires |data'| == |data| && NodeOk(data, node, ino, lo, st) && Iget(data', ino) == Iget(data, ino)
    requires forall b :: 0 <= b < |data| && lo <= b && b !in st ==> data'[b] == data[b]
    requires forall b :: b in st' ==> b in st
    ensures NodeOk(data', node, ino, lo, st')
  {
    hide Written, Iget;
    if node.File? {
      WrittenStands(data, data', MapOf(Iget(data, ino)), node.content, lo, st, st');
    }
  }

  method WriteInode(image: Image, ino: nat, p: Incore)
    requires InodeBlock(ino) < |image.data| && Fits(p)
    modifies image
    ensures image.data == WithInode(old(image.data), ino, PackInode(p))
    ensures Iget(image.data, ino) == p
    ensures forall other: nat :: other != ino && InodeBlock(other) < |image.data| ==>
              Iget(image.data, other) == Iget(old(image.data), other)
  {
    ghost var data := image.data;
    image.data := WithInode(image.data, ino, PackInode(p));
    hide WithInode, PackInode, Iget, Fits;
    InodeReads(data, ino, p);
    forall other: nat | other != ino && InodeBlock(other) < |data|
      ensures Iget(image.data, other) == Iget(data, other)
    {
      OtherInodes(data, ino, p, other);
    }
  }

  predicate FieldsFit(node: Node) {
    IsWord(node.mode) && 0 <= node.nlink < 256 && 0 <= node.uid < 256 && 0 <= node.gid < 256
  }

  function FileFields(node: Node, map_: Ino): Incore
    requires node.File?
  {
    var size := |node.content|;
    Incore(node.mode + if map_.large then ILARG
           else 0, node.nlink, node.uid, node.gid, size / 0x1_0000, size % 0x1_0000, map_.addr)
  }

  lemma FileFieldsFit(data: seq<Sector>, node: Node, map_: Ino, lo: int, st: seq<int>)
    requires node.File? && PlainMode(node.mode) && FieldsFit(node) && Sectors(node.content) <= NWORDS
    requires Sound(map_, View(data), lo, st) && |data| < 0x1_0000
    ensures var p := FileFields(node, map_);
            Fits(p) && MapOf(p) == map_ && SizeOf(p) == |node.content|
                && p.mode == node.mode + (if map_.large then ILARG else 0)
  {
    LargeMode(node.mode);
    hide Sound;
    AddressesFit(data, map_, lo, st);
  }

  lemma FileNodeOk(data: seq<Sector>, data': seq<Sector>, node: Node, map_: Ino, ino: nat, lo: int, st: seq<int>)
    requires node.File? && |data'| == |data| && Written(data, map_, node.content, lo, st) && InodeBlock(ino) < |data|
    requires forall b :: 0 <= b < |data| && lo <= b ==> data'[b] == data[b]
    requires Iget(data', ino) == FileFields(node, map_) && MapOf(FileFields(node, map_)) == map_
    ensures NodeOk(data', node, ino, lo, st)
  {
    hide Written, Iget;
    WrittenStands(data, data', map_, node.content, lo, st, st);
  }

  /** An inode goes in below the data blocks: the list stands, and the others. */
  method PutInode(ino: nat, p: Incore, f: FreeList)
    requires f.Valid() && InodeBlock(ino) < f.lo <= |f.image.data| && Fits(p)
    modifies f.image
    ensures f.Valid() && |f.image.data| == |old(f.image.data)| && Iget(f.image.data, ino) == p
    ensures forall b :: 0 <= b < |f.image.data| && b != InodeBlock(ino) ==> f.image.data[b] == old(f.image.data)[b]
    ensures forall other: nat :: other != ino && InodeBlock(other) < |f.image.data| ==>
              Iget(f.image.data, other) == Iget(old(f.image.data), other)
  {
    hide Iget, Rep, NoRepeat, Fits, PackInode, WithInode;
    ghost var data := f.image.data;
    WriteInode(f.image, ino, p);
    ListStands(data, f);
  }

  /** A file's inode, once its contents are written. */
  method FileInode(node: Node, map_: Ino, ino: nat, f: FreeList) returns (r: Outcome)
    requires node.File? && PlainMode(node.mode) && f.Valid() && InodeBlock(ino) < f.lo <= |f.image.data|
    requires Sectors(node.content) <= NWORDS && Written(f.image.data, map_, node.content, f.lo, f.st)
    modifies f.image
    ensures |f.image.data| == |old(f.image.data)|
    ensures r == if FieldsFit(node) then Done else BadField
    ensures r.Done? ==>
              && f.Valid() && NodeOk(f.image.data, node, ino, f.lo, f.st) && MapOf(Iget(f.image.data, ino)) == map_
              && (forall b :: 0 <= b < |f.image.data| && b != InodeBlock(ino) ==>
                    f.image.data[b] == old(f.image.data)[b])
              && (forall other: nat :: other != ino && InodeBlock(other) < |f.image.data| ==>
                    Iget(f.image.data, other) == Iget(old(f.image.data), other))
  {
    if !FieldsFit(node) {
      return BadField;
    }
    ghost var data := f.image.data;
    FileFieldsFit(data, node, map_, f.lo, f.st);
    hide Iget, Rep, NoRepeat, Fits, NodeOk, FileFields, Sectors, Sound, ReadsBack;
    PutInode(ino, FileFields(node, map_), f);
    FileNodeOk(data, f.image.data, node, map_, ino, f.lo, f.st);
    r := Done;
  }

  lemma AddressesFit(data: seq<Sector>, map_: Ino, lo: int, st: seq<int>)
    requires Sound(map_, View(data), lo, st) && |data| < 0x1_0000
    ensures |map_.addr| == NADDR && forall i :: 0 <= i < NADDR ==> IsWord(map_.addr[i])
  {
    forall i | 0 <= i < NADDR ensures IsWord(map_.addr[i]) {
      assert SoundAt(map_, View(data), lo, st, Slot(i));
    }
  }

  /** Blocks below the data blocks have no part in the free list. */
  lemma ListStands(data: seq<Sector>, f: FreeList)
    requires |f.image.data| == |data| && Rep(f.nfree, f.free, f.lo, View(data), f.st)
    requires forall b :: b in f.st ==> InRange(b, f.lo, View(data))
    requires forall b :: f.lo <= b < |data| && 0 <= b ==> f.image.data[b] == data[b]
    ensures Rep(f.nfree, f.free, f.lo, View(f.image.data), f.st)
  {
    RepFrame(f.nfree, f.free, f.lo, View(data), View(f.image.data), f.st);
  }

  /** A device's inode: no contents, its number where the first address goes. */
  method WriteSpecial(node: Node, ino: nat, f: FreeList) returns (r: Outcome)
    requires node.Special? && f.Valid() && InodeBlock(ino) < f.lo <= |f.image.data|
    modifies f.image
    ensures |f.image.data| == |old(f.image.data)|
    ensures r == if FieldsFit(node) && IsWord(Or(node.major * 256, node.minor)) then Done else BadField
    ensures r.Done? ==>
              && f.Valid() && NodeOk(f.image.data, node, ino, f.lo, f.st)
              && (forall b :: 0 <= b < |f.image.data| && b != InodeBlock(ino) ==>
                    f.image.data[b] == old(f.image.data)[b])
              && (forall other: nat :: other != ino && InodeBlock(other) < f.lo ==>
                    Iget(f.image.data, other) == Iget(old(f.image.data), other))
  {
    var dev := Or(node.major * 256, node.minor);
    if !FieldsFit(node) || !IsWord(dev) { return BadField; }
    var addr := [dev, 0, 0, 0, 0, 0, 0, 0];
    assert |addr| == NADDR;
    var p := Incore(node.mode, node.nlink, node.uid, node.gid, 0, 0, addr);
    assert Fits(p);
    hide Iget, Rep, NoRepeat, Fits, Or;
    PutInode(ino, p, f);
    r := Done;
  }

  /** An entry that can be written at all: its fields fit an inode, its device number
      a word, its contents one indirect block. */
  predicate NodeFits(node: Node) {
    FieldsFit(node) && match node
      case File(_, _, _, _, content) => Sectors(content) <= NWORDS
      case Special(_, _, _, _, major, minor) => IsWord(Or(major * 256, minor))
  }

  /** The blocks it takes: its contents, and one to name them if they are many. */
  function Need1(node: Node): (n: nat) {
    match node
    case File(_, _, _, _, content) => Sectors(content) + if Sectors(content) > NADDR then 1 else 0
    case Special(_, _, _, _, _, _) => 0
  }

  function Need(nodes: seq<Node>, n: nat): (blocks: nat)
    requires n <= |nodes|
  {
    if n == 0 then 0 else Need(nodes, n-1) + Need1(nodes[n-1])
  }

  /** How writing an entry comes out when `room` blocks are free. */
  function Verdict(node: Node, room: nat): (r: Outcome)
    ensures r.Done? <==> NodeFits(node) && Need1(node) <= room
    ensures r.Done? || r.OutOfSpace? || r.TooBig? || r.BadField?
  {
    match node
    case Special(_, _, _, _, major, minor) =>
      if FieldsFit(node) && IsWord(Or(major * 256, minor)) then Done else BadField
    case File(_, _, _, _, content) =>
      var n := Sectors(content);
      if n > room then OutOfSpace else if n > NWORDS then TooBig
      else if n > NADDR && n == room then OutOfSpace
      else if FieldsFit(node) then Done else BadField
  }

  /** All the entries fit. */
  predicate AllFit(nodes: seq<Node>, room: int) {
    (forall i :: 0 <= i < |nodes| ==> NodeFits(nodes[i])) && Need(nodes, |nodes|) <= room
  }

  /** Entry `n` is the first that does not, for this reason. */
  predicate FailsAt(nodes: seq<Node>, n: nat, room: int, r: Outcome) {
    && n < |nodes| && (forall i :: 0 <= i < n ==> NodeFits(nodes[i]))
    && Need(nodes, n) <= room && r == Verdict(nodes[n], room - Need(nodes, n)) && !r.Done?
  }

  ghost predicate Fails(nodes: seq<Node>, room: int, r: Outcome) {
    exists n: nat :: FailsAt(nodes, n, room, r)
  }

  lemma {:induction false} NeedGrows(nodes: seq<Node>, k: nat, n: nat)
    requires k <= n <= |nodes|
    ensures Need(nodes, k) <= Need(nodes, n)
  {
    if k < n { NeedGrows(nodes, k, n-1); }
  }

  lemma FailsNotFit(nodes: seq<Node>, n: nat, room: int, r: Outcome)
    requires FailsAt(nodes, n, room, r)
    ensures !AllFit(nodes, room)
  {
    if NodeFits(nodes[n]) {
      NeedGrows(nodes, n+1, |nodes|);
    }
  }

  /** A file's contents, and its inode. */
  method WriteFile(node: Node, ino: nat, f: FreeList) returns (r: Outcome, ghost taken: seq<int>)
    requires node.File? && PlainMode(node.mode) && f.Valid() && InodeBlock(ino) < f.lo <= |f.image.data|
    modifies f, f.image
    ensures |f.image.data| == |old(f.image.data)|
    ensures r == Verdict(node, |old(f.st)|)
    ensures r.Done? ==>
              && f.Valid() && old(f.st) == taken + f.st && |taken| == Need1(node)
                 && NodeOk(f.image.data, node, ino, f.lo, f.st)
              && UsesOnly(f.image.data, ino, taken)
              && (forall b :: 0 <= b < |f.image.data| && b != InodeBlock(ino) && b !in taken ==>
                    f.image.data[b] == old(f.image.data)[b])
              && (forall other: nat :: other != ino && InodeBlock(other) < f.lo ==>
                    Iget(f.image.data, other) == Iget(old(f.image.data), other))
  {
    hide Iget, Rep, NoRepeat, NodeOk, Sound, ReadsBack, At;
    ghost var data := f.image.data;
    var map_;
    TakesInRange(f);
    r, map_, taken := WriteContent(node.content, f);
    if !r.Done? { return; }
    ghost var data1 := f.image.data;
    assert forall b :: b in taken ==> b in taken + f.st;
    SameInodes(data, data1, f.lo, taken);
    r := FileInode(node, map_, ino, f);
    if !r.Done? { return; }
    ghost var data2 := f.image.data;
    forall p ensures At(map_, View(data2), p) != 0 ==> At(map_, View(data2), p) in taken {
      PlacesStand(data1, data2, map_, f.lo, f.st, p);
    }
  }

  /** `write_node`: contents first, then the inode; what it takes off the list. */
  method WriteNode(node: Node, ino: nat, f: FreeList) returns (r: Outcome, ghost taken: seq<int>)
    requires PlainMode(node.mode) && f.Valid() && InodeBlock(ino) < f.lo <= |f.image.data|
    modifies f, f.image
    ensures |f.image.data| == |old(f.image.data)| && !r.BadGeometry?
    ensures r == Verdict(node, |old(f.st)|)
    ensures r.Done? ==>
              && f.Valid() && old(f.st) == taken + f.st && |taken| == Need1(node)
                 && NodeOk(f.image.data, node, ino, f.lo, f.st)
              && (node.File? ==> UsesOnly(f.image.data, ino, taken))
              && (forall b :: 0 <= b < |f.image.data| && b != InodeBlock(ino) && b !in taken ==>
                    f.image.data[b] == old(f.image.data)[b])
              && (forall other: nat :: other != ino && InodeBlock(other) < f.lo ==>
                    Iget(f.image.data, other) == Iget(old(f.image.data), other))
  {
    hide Iget, Rep, NoRepeat, NodeOk, UsesOnly, Or, Sectors;
    taken := [];
    match node
    case Special(_, _, _, _, _, _) => r := WriteSpecial(node, ino, f);
    case File(_, _, _, _, _) => r, taken := WriteFile(node, ino, f);
  }

  /** All the blocks of the file in inode `ino` are among these. */
  ghost predicate UsesOnly(data: seq<Sector>, ino: nat, taken: seq<int>)
    requires InodeBlock(ino) < |data|
  {
    var m := MapOf(Iget(data, ino));
    forall p {:trigger At(m, View(data), p)} :: At(m, View(data), p) != 0 ==> At(m, View(data), p) in taken
  }

  lemma TakesInRange(f: FreeList)
    requires f.Valid()
    ensures forall b :: b in f.st ==> f.lo <= b
  {
  }

  lemma SameInodes(data: seq<Sector>, data': seq<Sector>, lo: int, taken: seq<int>)
    requires |data'| == |data| && lo <= |data| && (forall b :: b in taken ==> lo <= b)
    requires forall b :: 0 <= b < |data| && b !in taken ==> data'[b] == data[b]
    ensures forall other: nat :: InodeBlock(other) < lo ==> Iget(data', other) == Iget(data, other)
  {
    hide Words, FromWords;
  }

  // ----- all the entries

  ghost predicate PairOk(data: seq<Sector>, nodes: seq<Node>, i: nat, j: nat)
    requires i < j < |nodes| && InodeBlock(j + 1) < |data|
  {
    nodes[i].File? && nodes[j].File? ==> Apart(data, MapOf(Iget(data, i + 1)), MapOf(Iget(data, j + 1)))
  }

  /** The first `n` entries are as they should be, in inodes 1 to `n`, and no two
      share a block. */
  ghost predicate AllOk(data: seq<Sector>, nodes: seq<Node>, n: nat, lo: int, st: seq<int>)
    requires n <= |nodes|
  {
    && InodeBlock(n) < lo <= |data|
    && (forall i: nat {:trigger NodeOk(data, nodes[i], i + 1, lo, st)} :: i < n ==>
          NodeOk(data, nodes[i], i + 1, lo, st))
    && forall i: nat, j: nat {:trigger PairOk(data, nodes, i, j)} :: i < j < n ==> PairOk(data, nodes, i, j)
  }

  /** The blocks of the first `n` entries' files are all among these. */
  ghost predicate AllUse(data: seq<Sector>, nodes: seq<Node>, n: nat, used: seq<int>)
    requires n <= |nodes|
  {
    forall i: nat {:trigger FileUses(data, nodes, i, used)} :: i < n ==> FileUses(data, nodes, i, used)
  }

  ghost predicate FileUses(data: seq<Sector>, nodes: seq<Node>, i: nat, used: seq<int>)
    requires i < |nodes|
  {
    InodeBlock(i + 1) < |data| && (nodes[i].File? ==> UsesOnly(data, i + 1, used))
  }

  lemma UseStands(data: seq<Sector>, data': seq<Sector>, nodes: seq<Node>, i: nat, lo: int, st: seq<int>,
                  used: seq<int>, taken: seq<int>)
    requires i < |nodes| && |data'| == |data| && NodeOk(data, nodes[i], i + 1, lo, st)
    requires FileUses(data, nodes, i, used) && Iget(data', i + 1) == Iget(data, i + 1)
    requires forall b :: 0 <= b < |data| && lo <= b && b !in st ==> data'[b] == data[b]
    ensures FileUses(data', nodes, i, used + taken)
  {
    hide Iget, Sound, ReadsBack, At;
    if nodes[i].File? {
      var m := MapOf(Iget(data, i + 1));
      forall p ensures At(m, View(data'), p) != 0 ==> At(m, View(data'), p) in used + taken {
        PlacesStand(data, data', m, lo, st, p);
      }
    }
  }

  lemma PairStands(data: seq<Sector>, data': seq<Sector>, nodes: seq<Node>, i: nat, j: nat, lo: int, st: seq<int>)
    requires i < j < |nodes| && InodeBlock(j + 1) < |data| == |data'| && PairOk(data, nodes, i, j)
    requires NodeOk(data, nodes[i], i + 1, lo, st) && NodeOk(data, nodes[j], j + 1, lo, st)
    requires Iget(data', i + 1) == Iget(data, i + 1) && Iget(data', j + 1) == Iget(data, j + 1)
    requires forall b :: 0 <= b < |data| && lo <= b && b !in st ==> data'[b] == data[b]
    ensures PairOk(data', nodes, i, j)
  {
    hide Apart, Sound, ReadsBack, Iget;
    if nodes[i].File? && nodes[j].File? {
      ApartStands(data, data', MapOf(Iget(data, i + 1)), MapOf(Iget(data, j + 1)), lo, st);
    }
  }

  lemma PairNew(data: seq<Sector>, data': seq<Sector>, nodes: seq<Node>, i: nat, j: nat, lo: int, st: seq<int>,
                taken: seq<int>)
    requires i < j < |nodes| && InodeBlock(j + 1) < |data| == |data'|
    requires NodeOk(data, nodes[i], i + 1, lo, st) && Iget(data', i + 1) == Iget(data, i + 1)
    requires nodes[j].File? ==> UsesOnly(data', j + 1, taken)
    requires forall b :: b in taken ==> b in st
    requires forall b :: 0 <= b < |data| && lo <= b && b !in st ==> data'[b] == data[b]
    ensures PairOk(data', nodes, i, j)
  {
    hide Apart, Sound, ReadsBack, Iget, At;
    if nodes[i].File? && nodes[j].File? {
      NewApart(data, data', MapOf(Iget(data, i + 1)), MapOf(Iget(data', j + 1)), lo, st);
    }
  }

  lemma AddUse(data: seq<Sector>, data': seq<Sector>, nodes: seq<Node>, n: nat, lo: int, st: seq<int>, used: seq<int>,
               taken: seq<int>)
    requires n < |nodes| && AllOk(data, nodes, n, lo, st) && |data'| == |data| && InodeBlock(n + 1) < lo
    requires AllUse(data, nodes, n, used) && (nodes[n].File? ==> UsesOnly(data', n + 1, taken))
    requires forall b :: b in taken ==> b in st
    requires forall b :: 0 <= b < |data| && b != InodeBlock(n + 1) && b !in taken ==> data'[b] == data[b]
    requires forall other: nat :: other != n + 1 && InodeBlock(other) < lo ==> Iget(data', other) == Iget(data, other)
    ensures AllUse(data', nodes, n + 1, used + taken)
  {
    hide NodeOk, Iget, At;
    assert forall b :: 0 <= b < |data| && lo <= b && b !in st ==> data'[b] == data[b];
    forall i: nat {:trigger FileUses(data', nodes, i, used + taken)} | i < n + 1
      ensures FileUses(data', nodes, i, used + taken)
    {
      if i < n {
        assert NodeOk(data, nodes[i], i + 1, lo, st) && FileUses(data, nodes, i, used);
        UseStands(data, data', nodes, i, lo, st, used, taken);
      }
    }
  }

  lemma AddNode(data: seq<Sector>, data': seq<Sector>, nodes: seq<Node>, n: nat, lo: int, st: seq<int>, st': seq<int>,
                taken: seq<int>)
    requires n < |nodes| && AllOk(data, nodes, n, lo, st) && |data'| == |data| && InodeBlock(n + 1) < lo
    requires st == taken + st' && NodeOk(data', nodes[n], n + 1, lo, st')
    requires nodes[n].File? ==> UsesOnly(data', n + 1, taken)
    requires forall b :: 0 <= b < |data| && b != InodeBlock(n + 1) && b !in taken ==> data'[b] == data[b]
    requires forall other: nat :: other != n + 1 && InodeBlock(other) < lo ==> Iget(data', other) == Iget(data, other)
    ensures AllOk(data', nodes, n + 1, lo, st')
    ensures forall used :: AllUse(data, nodes, n, used) ==> AllUse(data', nodes, n + 1, used + taken)
  {
    hide NodeOk, PairOk, UsesOnly, Iget;
    forall used | AllUse(data, nodes, n, used) ensures AllUse(data', nodes, n + 1, used + taken) {
      AddUse(data, data', nodes, n, lo, st, used, taken);
    }
    assert forall b :: b in taken ==> b in st;
    assert forall b :: 0 <= b < |data| && lo <= b && b !in st ==> data'[b] == data[b];
    forall i: nat {:trigger NodeOk(data', nodes[i], i + 1, lo, st')} | i < n + 1
      ensures NodeOk(data', nodes[i], i + 1, lo, st')
    {
      if i < n {
        NodeStands(data, data', nodes[i], i + 1, lo, st, st');
      }
    }
    forall i: nat, j: nat {:trigger PairOk(data', nodes, i, j)} | i < j < n + 1 ensures PairOk(data', nodes, i, j) {
      assert NodeOk(data, nodes[i], i + 1, lo, st);
      if j < n {
        assert NodeOk(data, nodes[j], j + 1, lo, st);
        PairStands(data, data', nodes, i, j, lo, st);
      } else {
        PairNew(data, data', nodes, i, j, lo, st, taken);
      }
    }
  }

  /** Entries in the order given, in inodes from 1 up. */
  method WriteNodes(nodes: seq<Node>, f: FreeList) returns (r: Outcome, ghost used: seq<int>)
    requires f.Valid() && 2 <= f.lo <= |f.image.data| && InodeBlock(|nodes|) < f.lo
    requires forall i :: 0 <= i < |nodes| ==> PlainMode(nodes[i].mode)
    modifies f, f.image
    ensures |f.image.data| == |old(f.image.data)| && !r.BadGeometry?
    ensures r.Done? <==> AllFit(nodes, |old(f.st)|)
    ensures !r.Done? ==> Fails(nodes, |old(f.st)|, r)
    ensures r.Done? ==>
              && f.Valid() && old(f.st) == used + f.st && AllOk(f.image.data, nodes, |nodes|, f.lo, f.st)
              && AllUse(f.image.data, nodes, |nodes|, used)
              && (forall b :: 0 <= b < |f.image.data| && !(2 <= b < f.lo) && b !in used ==>
                    f.image.data[b] == old(f.image.data)[b])
  {
    hide Rep, NoRepeat, NodeOk, PairOk, UsesOnly, FileUses, Iget, InRange, View, Verdict, NodeFits, Need1;
    r, used := Done, [];
    var n := 0;
    while n < |nodes|
      modifies f, f.image
      invariant n <= |nodes| && f.Valid() && |f.image.data| == |old(f.image.data)| && r.Done?
      invariant (forall i :: 0 <= i < n ==> NodeFits(nodes[i])) && |used| == Need(nodes, n)
      invariant old(f.st) == used + f.st && AllOk(f.image.data, nodes, n, f.lo, f.st)
      invariant AllUse(f.image.data, nodes, n, used)
      invariant forall b :: 0 <= b < |f.image.data| && !(2 <= b < f.lo) && b !in used ==>
                  f.image.data[b] == old(f.image.data)[b]
    {
      ghost var data, st := f.image.data, f.st;
      ghost var taken;
      r, taken := WriteNode(nodes[n], n + 1, f);
      if !r.Done? {
        assert FailsAt(nodes, n, |old(f.st)|, r);
        FailsNotFit(nodes, n, |old(f.st)|, r);
        return;
      }
      AddNode(data, f.image.data, nodes, n, f.lo, st, f.st, taken);
      used := used + taken;
      n := n + 1;
    }
  }

  // ----- the superblock and the whole volume

  lemma PackConcat(a: seq<int>, b: seq<int>)
    requires (forall i :: 0 <= i < |a| ==> IsWord(a[i])) && (forall i :: 0 <= i < |b| ==> IsWord(b[i]))
    ensures (forall i :: 0 <= i < |a + b| ==> IsWord((a + b)[i])) && Pack(a + b) == Pack(a) + Pack(b)
  {
    hide Pack, Low, High;
    forall x | 0 <= x < 2 * |a + b| ensures Pack(a + b)[x] == (Pack(a) + Pack(b))[x] {
      PackedByte(a + b, x);
      if x < 2 * |a| { PackedByte(a, x); } else { PackedByte(b, x - 2 * |a|); }
    }
  }

  lemma PackedByte(ws: seq<int>, x: nat)
    requires x < 2 * |ws| && forall i :: 0 <= i < |ws| ==> IsWord(ws[i])
    ensures IsWord(ws[x/2]) && Pack(ws)[x] == if x % 2 == 0 then Low(ws[x/2]) else High(ws[x/2])
  {
  }

  /** What the kernel makes of block 1: the sizes, and the free list from where the
      builder left it. */
  ghost predicate SuperOk(data: seq<Sector>, fsize: int, isize: int, st: seq<int>) {
    && 1 < |data|
    && var w := Words(data[1]);
       && w[0] == isize && w[1] == fsize && Rep(w[2], w[3..3+NICFREE], isize + 2, View(data), st)
       && forall k :: 3 + NICFREE <= k < NWORDS ==> w[k] == 0
  }

  lemma SuperWords(isize: int, fsize: int, nfree: int, free: seq<int>)
    requires IsWord(isize) && IsWord(fsize) && IsWord(nfree) && |free| == NICFREE
    requires forall i :: 0 <= i < NICFREE ==> IsWord(free[i])
    ensures var bs := Pack([isize, fsize]) + Pack([nfree] + free) + Pack([0]);
            && |bs| <= BLOCK
            && var w := Words(Pad(bs));
               w[0] == isize && w[1] == fsize && w[2] == nfree && w[3..3+NICFREE] == free
                   && forall k :: 3 + NICFREE <= k < NWORDS ==> w[k] == 0
  {
    var a, b, c := [isize, fsize], [nfree] + free, [0];
    var all := a + b + c;
    hide Pack, Words, Pad;
    PackConcat(a, b);
    PackConcat(a + b, c);
    PackedWords(all);
    SuperParts(Words(Pad(Pack(all))), isize, fsize, nfree, free);
  }

  lemma SuperParts(w: Block, isize: int, fsize: int, nfree: int, free: seq<int>)
    requires |free| == NICFREE && w[..NICFREE+4] == [isize, fsize] + ([nfree] + free) + [0]
    requires forall k :: NICFREE + 4 <= k < NWORDS ==> w[k] == 0
    ensures w[0] == isize && w[1] == fsize && w[2] == nfree && w[3..3+NICFREE] == free
    ensures forall k :: 3 + NICFREE <= k < NWORDS ==> w[k] == 0
  {
    var p := w[..NICFREE+4];
    assert w[0] == p[0] && w[1] == p[1] && w[2] == p[2] && w[NICFREE+3] == p[NICFREE+3];
    forall i | 0 <= i < NICFREE ensures w[3..3+NICFREE][i] == free[i] {
      assert w[3 + i] == p[3 + i];
    }
    assert w[3..3+NICFREE] == free;
  }

  method WriteBlock1(image: Image, bs: seq<Byte>)
    requires 1 < |image.data| && |bs| <= BLOCK
    modifies image
    ensures image.data == old(image.data)[1 := Pad(bs)]
  {
    var _ := image.Write(1, bs);
  }

  lemma SuperIs(data: seq<Sector>, fsize: int, isize: int, nfree: int, free: seq<int>, st: seq<int>)
    requires IsWord(isize) && IsWord(fsize) && IsWord(nfree) && |free| == NICFREE
    requires forall i :: 0 <= i < NICFREE ==> IsWord(free[i])
    requires 1 < |data| && Rep(nfree, free, isize + 2, View(data), st)
    requires var bs := Pack([isize, fsize]) + Pack([nfree] + free) + Pack([0]); |bs| <= BLOCK && data[1] == Pad(bs)
    ensures SuperOk(data, fsize, isize, st)
  {
    hide Rep, Pack, Pad, Words, View;
    SuperWords(isize, fsize, nfree, free);
  }

  method WriteSuper(fsize: nat, isize: nat, f: FreeList)
    requires f.Valid() && f.lo == isize + 2 <= |f.image.data| && fsize <= |f.image.data|
    modifies f.image
    ensures f.Valid() && |f.image.data| == |old(f.image.data)| && SuperOk(f.image.data, fsize, isize, f.st)
    ensures forall b :: 0 <= b < |f.image.data| && b != 1 ==> f.image.data[b] == old(f.image.data)[b]
  {
    ghost var data := f.image.data;
    RepBounds(f.nfree, f.free, f.lo, View(data), f.st);
    hide Rep, Pack, Pad, Words, NoRepeat, SuperOk;
    var bs := Pack([isize, fsize]) + f.PackList() + Pack([0]);
    assert |bs| <= BLOCK;
    WriteBlock1(f.image, bs);
    ListStands(data, f);
    SuperIs(f.image.data, fsize, isize, f.nfree, f.free, f.st);
  }

  lemma AllStand(data: seq<Sector>, data': seq<Sector>, nodes: seq<Node>, lo: int, st: seq<int>)
    requires AllOk(data, nodes, |nodes|, lo, st) && |data'| == |data|
    requires forall b :: 2 <= b < |data| ==> data'[b] == data[b]
    requires 2 <= lo
    ensures AllOk(data', nodes, |nodes|, lo, st)
    ensures forall used :: AllUse(data, nodes, |nodes|, used) ==> AllUse(data', nodes, |nodes|, used)
  {
    hide NodeOk, PairOk, FileUses;
    forall i: nat {:trigger Iget(data', i + 1)} | i < |nodes| ensures Iget(data', i + 1) == Iget(data, i + 1) {
      assert 2 <= InodeBlock(i + 1) <= InodeBlock(|nodes|);
    }
    hide Iget;
    forall i: nat {:trigger NodeOk(data', nodes[i], i + 1, lo, st)} | i < |nodes|
      ensures NodeOk(data', nodes[i], i + 1, lo, st)
    {
      NodeStands(data, data', nodes[i], i + 1, lo, st, st);
    }
    forall used | AllUse(data, nodes, |nodes|, used) ensures AllUse(data', nodes, |nodes|, used) {
      forall i: nat {:trigger FileUses(data', nodes, i, used)} | i < |nodes| ensures FileUses(data', nodes, i, used) {
        assert NodeOk(data, nodes[i], i + 1, lo, st) && FileUses(data, nodes, i, used);
        UseStands(data, data', nodes, i, lo, st, used, []);
        assert used + [] == used;
      }
    }
    forall i: nat, j: nat {:trigger PairOk(data', nodes, i, j)} | i < j < |nodes| ensures PairOk(data', nodes, i, j) {
      assert NodeOk(data, nodes[i], i + 1, lo, st) && NodeOk(data, nodes[j], j + 1, lo, st);
      PairStands(data, data', nodes, i, j, lo, st);
    }
  }

  /** `build`: the volume, boot sector, inodes, superblock and all, or why not.
      Blocks past the file system, for swapping, stay zero. */
  method Build(boot: seq<Byte>, nodes: seq<Node>, fsize: nat, isize: nat, swap: nat)
    returns (r: Outcome, image: Image, ghost st: seq<int>, ghost used: seq<int>)
    requires fsize + swap < 0x1_0000 && forall i :: 0 <= i < |nodes| ==> PlainMode(nodes[i].mode)
    ensures r.BadGeometry? <==> isize > fsize - isize - 2 || |nodes| > isize * INODES_PER_BLOCK
    ensures r.Done? <==> !r.BadGeometry? && AllFit(nodes, fsize - isize - 2)
    ensures r.Done? || r.BadGeometry? || Fails(nodes, fsize - isize - 2, r)
    ensures r.Done? ==>
              && |image.data| == fsize + swap && used + st == Ascending(isize + 2, fsize)
              && SuperOk(image.data, fsize, isize, st)
              && AllOk(image.data, nodes, |nodes|, isize + 2, st) && AllUse(image.data, nodes, |nodes|, used)
              && image.data[0] == Pad(if |boot| <= BLOCK then boot else boot[..BLOCK])
              && (forall b :: fsize <= b < |image.data| ==> image.data[b] == Pad([]))
  {
    hide Rep, NoRepeat, NodeOk, PairOk, Iget, InRange, View, Pad, SuperOk, AllFit, Fails, FileUses;
    st, used := [], [];
    image := new Image(fsize + swap);
    if isize > fsize - isize - FIRST_INODE_BLOCK || |nodes| > isize * INODES_PER_BLOCK {
      return BadGeometry, image, st, used;
    }
    var _ := image.Write(0, if |boot| <= BLOCK then boot else boot[..BLOCK]);
    var f := new FreeList(image, isize + 2);
    f.Fill(fsize, isize);
    assert InodeBlock(|nodes|) < isize + 2;
    r, used := WriteNodes(nodes, f);
    if r.Done? {
      ghost var data := image.data;
      assert forall b :: b in used ==> b in used + f.st;
      WriteSuper(fsize, isize, f);
      st := f.st;
      AllStand(data, image.data, nodes, isize + 2, st);
    }
  }

  // ----- reading it

  /** Byte by byte: what the kernel reads of a file at an offset is the byte it was
      built from, for all offsets below the size it reads in the inode. */
  lemma ByteReads(data: seq<Sector>, node: Node, ino: nat, lo: int, st: seq<int>, x: nat)
    requires NodeOk(data, node, ino, lo, st) && node.File?
    ensures SizeOf(Iget(data, ino)) == |node.content|
    ensures x < |node.content| ==>
              var nb := Lookup(MapOf(Iget(data, ino)), View(data), x / BLOCK);
              0 < nb < |data| && data[nb][x % BLOCK] == node.content[x]
  {
    if x < |node.content| {
      var nb := Lookup(MapOf(Iget(data, ino)), View(data), x / BLOCK);
      hide Lookup, Iget, View, Sound, Written;
      FileBytes(data, MapOf(Iget(data, ino)), node.content, lo, st, x);
    }
  }

  lemma FileBytes(data: seq<Sector>, m: Ino, content: seq<Byte>, lo: int, st: seq<int>, x: nat)
    requires Written(data, m, content, lo, st) && x < |content| && Sectors(content) <= MAXBLK
    ensures var nb := Lookup(m, View(data), x / BLOCK); 0 < nb < |data| && data[nb][x % BLOCK] == content[x]
  {
    hide Lookup, View, Sound, Pad;
    var k := x / BLOCK;
    var end := if k * BLOCK + BLOCK <= |content| then k * BLOCK + BLOCK else |content|;
    SliceIs(content, k, end);
    var part := content[k * BLOCK..end];
    assert Pad(part)[..|part|] == part && part[x % BLOCK] == content[x];
    assert Pad(part)[x % BLOCK] == Pad(part)[..|part|][x % BLOCK];
  }

  /** A device's number, as the kernel takes it apart. */
  lemma DeviceNumber(major: nat, minor: nat)
    requires major < 256 && minor < 256
    ensures Or(major * 256, minor) / 256 == major && Or(major * 256, minor) % 256 == minor
  {
    assert Power(8) == 256 by {
      assert Power(4) == 16;
    }
    OrApart(major, minor, 8);
  }
}
