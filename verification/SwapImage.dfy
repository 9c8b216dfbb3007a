/** What of a process goes to the swap device and comes back: the two ends of its
    block, without the hole between the heap and the stack. */
module SwapImage {
  import Rmap

  const PAGE := 4096
  const SECTORS := 8
  const UPREFIX := 0x400
  const DSEG := 0xFC00
  const DBLK := 16

  /** A sector's contents. */
  type Sector = int
  const ZERO: Sector := 0

  /** The page of the block in which byte `b` of the data segment is. */
  function PageOf(b: int): int { (UPREFIX + b) / PAGE }

  /** Pages written: the first `nd`, and the last `ns` of the block. */
  predicate Covered(nd: int, ns: int, page: int) { page < nd || DBLK - ns <= page }

  /** Break and stack pointer as they are taken, garbage and all. */
  function Break(dsize: int): int { if dsize > DSEG then DSEG else dsize }
  function Stack(sp: int): int { if sp >= DSEG then DSEG - 2 else sp }

  /** `swsize`; `dsize` and `sp` are any 16-bit words. */
  method SwSize(size: nat, dsize: int, sp: int) returns (nd: int, ns: int, total: int)
    requires 0 <= dsize < 0x1_0000 && 0 <= sp < 0x1_0000
    ensures total == nd + ns && nd >= 0 && ns >= 0
    ensures size != DBLK ==> nd == size && ns == 0
    ensures size == DBLK ==> 0 < nd && nd + ns <= DBLK && (nd - 1) * PAGE < UPREFIX + Break(dsize) <= nd * PAGE
    ensures size == DBLK ==> forall b {:trigger PageOf(b)} :: 0 - UPREFIX <= b < Break(dsize) ==>
              Covered(nd, ns, PageOf(b))
    ensures size == DBLK ==> forall b {:trigger PageOf(b)} :: Stack(sp) <= b < DSEG ==> Covered(nd, ns, PageOf(b))
    ensures size == DBLK && nd + ns < DBLK ==>
              forall b {:trigger PageOf(b)} :: Stack(sp) - PAGE <= b < DSEG ==>
                    PageOf(b) >= DBLK - ns || b < 0 - UPREFIX
  {
    if size != DBLK {
      return size, 0, size;
    }
    var dsz := dsize;
    if dsz > DSEG {
      dsz := DSEG;
    }
    nd := dsz / PAGE + 1;
    if dsz % PAGE > PAGE - UPREFIX {
      nd := nd + 1;
    }
    var s := sp;
    if s >= DSEG {
      s := DSEG - 2;
    }
    ns := (UPREFIX + s) / PAGE;
    if ns > 0 {
      ns := ns - 1;
    }
    ns := DBLK - ns;
    if nd + ns > DBLK {
      ns := DBLK - nd;
    }
    total := nd + ns;
  }

  class Store {
    const core: array<Sector>
    const dev: array<Sector>

    constructor (n: nat, m: nat)
      ensures fresh(core) && fresh(dev) && core.Length == n && dev.Length == m
    {
      core, dev := new Sector[n](_ => ZERO), new Sector[m](_ => ZERO);
    }

    ghost predicate Fits(blkno: nat, page: nat, count: nat) {
      core != dev && blkno + count * SECTORS <= dev.Length && (page + count) * SECTORS <= core.Length
    }

    /** `swap`: `count` pages, to or from the device. */
    method Swap(blkno: nat, page: nat, count: nat, read: bool)
      requires Fits(blkno, page, count)
      modifies if read then core else dev
      ensures read ==> forall k :: 0 <= k < core.Length ==>
                core[k] == if page * SECTORS <= k < (page + count) * SECTORS then dev[blkno + k - page * SECTORS]
                    else old(core[k])
      ensures !read ==> forall k :: 0 <= k < dev.Length ==>
                dev[k] == if blkno <= k < blkno + count * SECTORS then core[page * SECTORS + k - blkno] else old(dev[k])
    {
      var from, n := page * SECTORS, count * SECTORS;
      var i := 0;
      if read {
        while i < n
          invariant i <= n
          invariant forall k :: 0 <= k < core.Length ==>
                      core[k] == if from <= k < from + i then dev[blkno + k - from] else old(core[k])
          modifies core
        {
          core[from + i] := dev[blkno + i];
          i := i + 1;
        }
      } else {
        while i < n
          invariant i <= n
          invariant forall k :: 0 <= k < dev.Length ==>
                      dev[k] == if blkno <= k < blkno + i then core[from + k - blkno] else old(dev[k])
          modifies dev
        {
          dev[blkno + i] := core[from + i];
          i := i + 1;
        }
      }
    }

    ghost predicate Room(nd: nat, ns: nat, blkno: nat, page: nat) {
      && core != dev && nd + ns <= DBLK
      && blkno + (nd + ns) * SECTORS <= dev.Length && (page + DBLK) * SECTORS <= core.Length
    }

    /** Sector `k` of the block at `page`, as the image at `blkno` has it. */
    function Imaged(nd: nat, ns: nat, blkno: nat, k: nat): int
      requires nd + ns <= DBLK
    {
      if k < nd * SECTORS then blkno + k else blkno + k - (DBLK - ns - nd) * SECTORS
    }

    /** `swapio` to write. */
    method SwapOut(nd: nat, ns: nat, blkno: nat, page: nat)
      requires Room(nd, ns, blkno, page)
      modifies dev
      ensures forall k {:trigger Imaged(nd, ns, blkno, k)} ::
                0 <= k < DBLK * SECTORS && Covered(nd, ns, k / SECTORS) ==>
                dev[Imaged(nd, ns, blkno, k)] == core[page * SECTORS + k]
      ensures forall k :: 0 <= k < dev.Length && (k < blkno || k >= blkno + (nd + ns) * SECTORS) ==>
                dev[k] == old(dev[k])
    {
      Swap(blkno, page, nd, false);
      if ns == 0 { return; }
      Swap(blkno + nd * SECTORS, page + DBLK - ns, ns, false);
    }

    /** `swapio` to read, and the hole cleared, as `sched` does. */
    method SwapIn(nd: nat, ns: nat, blkno: nat, page: nat)
      requires Room(nd, ns, blkno, page)
      modifies core
      ensures forall k {:trigger Imaged(nd, ns, blkno, k)} ::
                0 <= k < DBLK * SECTORS && Covered(nd, ns, k / SECTORS) ==>
                core[page * SECTORS + k] == dev[Imaged(nd, ns, blkno, k)]
      ensures ns > 0 ==> forall k :: 0 <= k < DBLK * SECTORS && !Covered(nd, ns, k / SECTORS) ==>
                core[page * SECTORS + k] == ZERO
      ensures forall k :: 0 <= k < core.Length && (k < page * SECTORS || k >= (page + DBLK) * SECTORS) ==>
                core[k] == old(core[k])
    {
      Swap(blkno, page, nd, true);
      if ns != 0 {
        Swap(blkno + nd * SECTORS, page + DBLK - ns, ns, true);
      }
      ghost var was := core[..];
      var n := nd;
      while ns != 0 && n < DBLK - ns
        invariant nd <= n && (ns != 0 ==> n <= DBLK - ns) && (ns == 0 ==> n == nd)
        invariant forall k :: 0 <= k < core.Length ==>
                    core[k] == if (page + nd) * SECTORS <= k < (page + n) * SECTORS then ZERO else was[k]
        modifies core
      {
        ClearSeg(page + n);
        n := n + 1;
      }
    }

    method ClearSeg(page: nat)
      requires (page + 1) * SECTORS <= core.Length
      modifies core
      ensures forall k :: 0 <= k < core.Length ==>
                core[k] == if page * SECTORS <= k < (page + 1) * SECTORS then ZERO else old(core[k])
    {
      forall k | page * SECTORS <= k < (page + 1) * SECTORS {
        core[k] := ZERO;
      }
    }

    /** Out and in again, to another place in core: everything swapped is as it was,
        and in the hole there is nothing. */
    method RoundTrip(nd: nat, ns: nat, blkno: nat, page: nat, back: nat)
      requires Room(nd, ns, blkno, page) && Room(nd, ns, blkno, back)
      modifies core, dev
      ensures forall k :: 0 <= k < DBLK * SECTORS && Covered(nd, ns, k / SECTORS) ==>
                core[back * SECTORS + k] == old(core[page * SECTORS + k])
      ensures ns > 0 ==> forall k :: 0 <= k < DBLK * SECTORS && !Covered(nd, ns, k / SECTORS) ==>
                core[back * SECTORS + k] == ZERO
    {
      ghost var was := core[..];
      SwapOut(nd, ns, blkno, page);
      SwapIn(nd, ns, blkno, back);
      forall k | 0 <= k < DBLK * SECTORS && Covered(nd, ns, k / SECTORS)
        ensures core[back * SECTORS + k] == was[page * SECTORS + k]
      {
        var x := Imaged(nd, ns, blkno, k);
        assert core[back * SECTORS + k] == dev[x];
      }
    }

    /** A whole trip: units for the image are found in the swap map, it is written,
        read back to any other place in core, and the units are given back. */
    method Trip(swapmap: Rmap.Map, size: nat, dsize: int, sp: int, page: nat, back: nat)
      returns (done: bool, ghost nd: nat, ghost ns: nat)
      requires swapmap.Valid() && 0 < size <= DBLK && 0 <= dsize < 0x1_0000 && 0 <= sp < 0x1_0000
      requires core != dev && (page + DBLK) * SECTORS <= core.Length && (back + DBLK) * SECTORS <= core.Length
      requires forall u :: Rmap.IsFree(swapmap.runs, u) ==> u < dev.Length
      modifies core, dev, swapmap, swapmap.m
      ensures swapmap.Valid() && swapmap.runs == old(swapmap.runs) && nd + ns <= DBLK
      ensures !done <==> forall i :: 0 <= i < |swapmap.runs| ==> swapmap.runs[i].size < (nd + ns) * SECTORS
      ensures done ==> forall k :: 0 <= k < DBLK * SECTORS && Covered(nd, ns, k / SECTORS) ==>
                core[back * SECTORS + k] == old(core[page * SECTORS + k])
      ensures done && ns > 0 ==>
                forall k :: 0 <= k < DBLK * SECTORS && !Covered(nd, ns, k / SECTORS) ==> core[back * SECTORS + k] == ZERO
      ensures size == DBLK ==>
                forall b {:trigger PageOf(b)} ::
                  0 - UPREFIX <= b < Break(dsize) || Stack(sp) <= b < DSEG ==> Covered(nd, ns, PageOf(b))
    {
      hide Rmap.Taken, Rmap.Given, Rmap.InUse, Rmap.IsFree;
      ghost var runs := swapmap.runs;
      var d, s, total := SwSize(size, dsize, sp);
      nd, ns := d, s;
      var a := swapmap.Malloc(total * SECTORS);
      ghost var k := Rmap.FirstFit(runs, total * SECTORS, 0);
      if a == 0 {
        return false, nd, ns;
      }
      UnitsOf(runs, k, total * SECTORS, dev.Length);
      RoundTrip(d, s, a, page, back);
      swapmap.Mfree((d + s) * SECTORS, a);
      return true, nd, ns;
    }
  }

  /** What is taken from a map is on the device, and given back leaves the map as it was. */
  lemma UnitsOf(runs: seq<Rmap.Entry>, k: nat, size: int, n: nat)
    requires Rmap.Canonical(runs) && k < |runs| && 0 < size <= runs[k].size
    requires forall u :: Rmap.IsFree(runs, u) ==> u < n
    ensures var a := runs[k].addr; 0 < a && a + size <= n && a + size <= Rmap.UNITS
    ensures Rmap.InUse(Rmap.Taken(runs, k, size), runs[k].addr, size)
    ensures Rmap.Given(Rmap.Taken(runs, k, size), runs[k].addr, size) == runs
  {
    Rmap.TakenIs(runs, k, size);
    Rmap.TakeGive(runs, k, size);
    var last := runs[k].addr + size - 1;
    assert Rmap.Holds(runs[k], last);
    assert Rmap.IsFree(runs, last);
  }
}
