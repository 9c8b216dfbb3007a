/** What an inode's block numbers mean: every place where a file keeps a block
    number, what it means for them to be sound, and what storing one more does. */
module BlockMap {
  import opened FreeStack

  const NADDR: nat := 8
  const MAXBLK: nat := 32768

  /** i_addr and the ILARG bit. */
  datatype Ino = Ino(addr: seq<int>, large: bool)

  /** The places: an inode slot; a word of the block a slot names (a data block,
      or under slot 7 a second indirect block); a word of a second indirect block. */
  datatype Pos = Slot(i: nat) | Word(i: nat, k: nat) | Word2(j: nat, k: nat)

  function Get(disk: Disk, b: int): Block {
    if 0 <= b < |disk| then disk[b] else Zeros()
  }

  /** The block number kept in a place, 0 when there is none. */
  function At(ino: Ino, disk: Disk, p: Pos): int
    requires |ino.addr| == NADDR
  {
    match p
    case Slot(i) => if i < NADDR then ino.addr[i] else 0
    case Word(i, k) =>
      if ino.large && i < NADDR && k < NWORDS && ino.addr[i] != 0 then Get(disk, ino.addr[i])[k] else 0
    case Word2(j, k) =>
      if ino.large && j < NWORDS && k < NWORDS && ino.addr[7] != 0 && Get(disk, ino.addr[7])[j] != 0
      then Get(disk, Get(disk, ino.addr[7])[j])[k] else 0
  }

  ghost predicate OnePlace(ino: Ino, disk: Disk, p: Pos, q: Pos)
    requires |ino.addr| == NADDR
  {
    At(ino, disk, p) != 0 && At(ino, disk, p) == At(ino, disk, q) ==> p == q
  }

  ghost predicate SoundAt(ino: Ino, disk: Disk, lo: int, st: seq<int>, p: Pos)
    requires |ino.addr| == NADDR
  {
    At(ino, disk, p) != 0 ==> InRange(At(ino, disk, p), lo, disk) && At(ino, disk, p) !in st
  }

  /** Every block of the file is a block of the volume, kept in one place only
      and not on the free list. */
  ghost predicate Sound(ino: Ino, disk: Disk, lo: int, st: seq<int>) {
    && |ino.addr| == NADDR
    && (forall p {:trigger SoundAt(ino, disk, lo, st, p)} :: SoundAt(ino, disk, lo, st, p))
    && (forall p, q {:trigger OnePlace(ino, disk, p, q)} :: OnePlace(ino, disk, p, q))
  }

  // ----- logical blocks

  predicate Mapped(large: bool, bn: int) { 0 <= bn < MAXBLK && (large || bn < 8) }

  /** The place of a logical block: direct; through slots 0 to 6; or, from 1792
      on, through slot 7 twice. */
  function PosOf(large: bool, bn: int): Pos
    requires Mapped(large, bn)
  {
    if !large then Slot(bn)
    else if bn / 256 < 7 then Word(bn / 256, bn % 256)
    else Word2(bn / 256 - 7, bn % 256)
  }

  /** The physical block of a logical one, 0 for a hole. */
  function Lookup(ino: Ino, disk: Disk, bn: int): int
    requires |ino.addr| == NADDR
  {
    if Mapped(ino.large, bn) then At(ino, disk, PosOf(ino.large, bn)) else 0
  }

  /** Distinct logical blocks never share a physical one. */
  lemma LookupInjective(ino: Ino, disk: Disk, lo: int, st: seq<int>, b: int, c: int)
    requires Sound(ino, disk, lo, st) && 0 <= b < MAXBLK && 0 <= c < MAXBLK && b != c
    requires Lookup(ino, disk, b) != 0
    ensures Lookup(ino, disk, b) != Lookup(ino, disk, c)
  {
    if Mapped(ino.large, c) {
      var p, q := PosOf(ino.large, b), PosOf(ino.large, c);
      assert OnePlace(ino, disk, p, q);
    }
  }

  // ----- storing one more block number

  /** Block `x`, cleared, now kept in place `pl`, and nothing else moved. */
  ghost predicate Grown(ino: Ino, disk: Disk, ino': Ino, disk': Disk, pl: Pos, x: int)
    requires |ino.addr| == NADDR == |ino'.addr|
  {
    && At(ino, disk, pl) == 0
    && forall p {:trigger At(ino', disk', p)} :: At(ino', disk', p) == if p == pl then x else At(ino, disk, p)
  }

  /** Fresh from the allocator: on no list and in no place. */
  ghost predicate FreshFor(ino: Ino, disk: Disk, lo: int, st: seq<int>, x: int) {
    InRange(x, lo, disk) && x !in st && |ino.addr| == NADDR && forall p :: At(ino, disk, p) != x
  }

  lemma GrownIsSound(ino: Ino, disk: Disk, ino': Ino, disk': Disk, lo: int, st: seq<int>, pl: Pos, x: int)
    requires Sound(ino, disk, lo, st) && FreshFor(ino, disk, lo, st, x) && |disk'| == |disk|
    requires |ino'.addr| == NADDR && Grown(ino, disk, ino', disk', pl, x)
    ensures Sound(ino', disk', lo, st)
  {
    forall p ensures SoundAt(ino', disk', lo, st, p) {
      assert SoundAt(ino, disk, lo, st, p);
    }
    forall p, q ensures OnePlace(ino', disk', p, q) {
      assert OnePlace(ino, disk, p, q);
    }
  }

  /** A slot takes the block. */
  lemma SlotGrows(ino: Ino, disk: Disk, lo: int, st: seq<int>, i: nat, x: int)
    requires Sound(ino, disk, lo, st) && FreshFor(ino, disk, lo, st, x)
    requires i < NADDR && ino.addr[i] == 0
    ensures Grown(ino, disk, ino.(addr := ino.addr[i := x]), disk[x := Zeros()], Slot(i), x)
  {
    var ino', disk' := ino.(addr := ino.addr[i := x]), disk[x := Zeros()];
    forall p ensures At(ino', disk', p) == if p == Slot(i) then x else At(ino, disk, p) {
      UntouchedReads(ino, disk, lo, st, x, p);
    }
  }

  /** What a place's path reads is never the fresh block. */
  lemma UntouchedReads(ino: Ino, disk: Disk, lo: int, st: seq<int>, x: int, p: Pos)
    requires Sound(ino, disk, lo, st) && FreshFor(ino, disk, lo, st, x)
    ensures At(ino, disk[x := Zeros()], p) == At(ino, disk, p)
  {
    if p.Word? && p.i < NADDR {
      assert At(ino, disk, Slot(p.i)) != x;
    }
    if p.Word2? {
      assert At(ino, disk, Slot(7)) != x;
      assert At(ino, disk, Word(7, p.j)) != x;
    }
  }

  /** A word of the block in a slot takes it. */
  lemma WordGrows(ino: Ino, disk: Disk, lo: int, st: seq<int>, i: nat, k: nat, x: int)
    requires Sound(ino, disk, lo, st) && FreshFor(ino, disk, lo, st, x)
    requires ino.large && i < NADDR && k < NWORDS && ino.addr[i] != 0 && Get(disk, ino.addr[i])[k] == 0
    ensures InRange(ino.addr[i], lo, disk) && ino.addr[i] != x
    ensures var b := ino.addr[i];
            Grown(ino, disk, ino, disk[x := Zeros()][b := disk[b][k := x]], Word(i, k), x)
  {
    var b := ino.addr[i];
    assert SoundAt(ino, disk, lo, st, Slot(i));
    assert At(ino, disk, Slot(i)) != x;
    var disk' := disk[x := Zeros()][b := disk[b][k := x]];
    forall p ensures At(ino, disk', p) == if p == Word(i, k) then x else At(ino, disk, p) {
      UntouchedReads(ino, disk, lo, st, x, p);
      if p.Word? && p.i < NADDR {
        assert OnePlace(ino, disk, Slot(i), Slot(p.i));
      }
      if p.Word2? {
        assert OnePlace(ino, disk, Slot(i), Slot(7));
        assert OnePlace(ino, disk, Slot(i), Word(7, p.j));
        assert At(ino, disk, Word(7, p.j)) != x;
      }
    }
  }

  /** A word of a second indirect block takes it. */
  lemma Word2Grows(ino: Ino, disk: Disk, lo: int, st: seq<int>, j: nat, k: nat, x: int)
    requires Sound(ino, disk, lo, st) && FreshFor(ino, disk, lo, st, x)
    requires ino.large && j < NWORDS && k < NWORDS && At(ino, disk, Word(7, j)) != 0
    requires At(ino, disk, Word2(j, k)) == 0
    ensures var b := At(ino, disk, Word(7, j));
            InRange(b, lo, disk) && b != x &&
            Grown(ino, disk, ino, disk[x := Zeros()][b := disk[b][k := x]], Word2(j, k), x)
  {
    var b := At(ino, disk, Word(7, j));
    assert SoundAt(ino, disk, lo, st, Word(7, j));
    var disk' := disk[x := Zeros()][b := disk[b][k := x]];
    forall p ensures At(ino, disk', p) == if p == Word2(j, k) then x else At(ino, disk, p) {
      UntouchedReads(ino, disk, lo, st, x, p);
      if p.Word? && p.i < NADDR {
        assert OnePlace(ino, disk, Word(7, j), Slot(p.i));
      }
      if p.Word2? {
        assert OnePlace(ino, disk, Word(7, j), Slot(7));
        assert OnePlace(ino, disk, Word(7, j), Word(7, p.j));
        assert At(ino, disk, Word(7, p.j)) != x;
      }
    }
  }

  /** Small to large: the eight numbers move into the block, which takes slot 0. */
  function Large(x: int): Ino {
    Ino([x, 0, 0, 0, 0, 0, 0, 0], true)
  }

  lemma Converted(ino: Ino, disk: Disk, lo: int, st: seq<int>, x: int, w: Block)
    requires Sound(ino, disk, lo, st) && FreshFor(ino, disk, lo, st, x) && !ino.large
    requires w[..NADDR] == ino.addr && forall k :: NADDR <= k < NWORDS ==> w[k] == 0
    ensures Sound(Large(x), disk[x := w], lo, st)
    ensures forall bn :: 0 <= bn < MAXBLK ==> Lookup(Large(x), disk[x := w], bn) == Lookup(ino, disk, bn)
  {
    var ino', disk' := Large(x), disk[x := w];
    assert forall k :: 0 <= k < NADDR ==> w[k] == w[..NADDR][k] == ino.addr[k];
    forall p ensures At(ino', disk', p) ==
                     if p == Slot(0) then x
                     else if p.Word? && p.i == 0 && p.k < NADDR then At(ino, disk, Slot(p.k)) else 0
    {
    }
    forall p ensures SoundAt(ino', disk', lo, st, p) {
      if p.Word? { assert SoundAt(ino, disk, lo, st, Slot(p.k)); }
    }
    forall p, q ensures OnePlace(ino', disk', p, q) {
      if p.Word? && q.Word? { assert OnePlace(ino, disk, Slot(p.k), Slot(q.k)); }
      if p.Word? { assert At(ino, disk, Slot(p.k)) != x; }
      if q.Word? { assert At(ino, disk, Slot(q.k)) != x; }
    }
  }
}
