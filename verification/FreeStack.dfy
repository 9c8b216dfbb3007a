/** The free list of a volume: up to 100 block numbers in the superblock, the
    rest chained through the free blocks themselves.  It is a stack. */
module FreeStack {
  import opened Common

  const NWORDS: nat := 256
  const NICFREE: nat := 100

  type Block = b: seq<int> | |b| == NWORDS witness seq(NWORDS, _ => 0)
  type Disk = seq<Block>

  /** A cleared block. */
  function Zeros(): (b: Block)
    ensures forall k :: 0 <= k < NWORDS ==> b[k] == 0
  {
    seq(NWORDS, _ => 0)
  }

  /** Entries `lo..n` of the array, last first. */
  function Rev(free: seq<int>, lo: nat, n: nat): (s: seq<int>)
    requires lo <= n <= |free|
    ensures |s| == n - lo && forall i :: 0 <= i < n - lo ==> s[i] == free[n-1-i]
  {
    seq(n - lo, i requires 0 <= i < n - lo => free[n-1-i])
  }

  /** A number the allocator accepts: past the inodes, inside the volume. */
  predicate InRange(b: int, lo: int, disk: Disk) {
    0 < lo <= b < |disk|
  }

  /** `n` and `free`, with the chain they head, hold the stack `st`, top first.
      Entry 0 is the link to the next hundred; 0, or a number the allocator
      refuses, ends the list; a link never heads an empty hundred. */
  ghost predicate Rep(n: int, free: seq<int>, lo: int, disk: Disk, st: seq<int>)
    decreases |st|
  {
    && 0 <= n <= NICFREE == |free|
    && (forall i :: 1 <= i < n ==> free[i] != 0)
    && if n == 0 then st == []
       else if free[0] == 0 then st == Rev(free, 1, n)
       else if !InRange(free[0], lo, disk) then st == Rev(free, 0, n)
       else
         && n <= |st| && st[..n] == Rev(free, 0, n) && disk[free[0]][0] >= 1
         && Rep(disk[free[0]][0], disk[free[0]][1..NICFREE+1], lo, disk, st[n..])
  }

  /** Only listed blocks hold the chain: writing any other leaves the list be. */
  lemma {:induction false} RepFrame(n: int, free: seq<int>, lo: int, disk: Disk, disk': Disk, st: seq<int>)
    requires Rep(n, free, lo, disk, st) && |disk'| == |disk|
    requires forall b :: b in st && 0 <= b < |disk| ==> disk'[b] == disk[b]
    ensures Rep(n, free, lo, disk', st)
    decreases |st|
  {
    if n > 0 && free[0] != 0 && InRange(free[0], lo, disk) {
      assert st[..n][n-1] == free[0];
      assert forall b :: b in st[n..] ==> b in st;
      RepFrame(disk[free[0]][0], disk[free[0]][1..NICFREE+1], lo, disk, disk', st[n..]);
    }
  }

  /** The top of the stack is the last entry of the array ... */
  lemma RepTop(n: int, free: seq<int>, lo: int, disk: Disk, st: seq<int>)
    requires Rep(n, free, lo, disk, st)
    ensures st == [] <==> n == 0 || free[n-1] == 0
    ensures st != [] ==> st[0] == free[n-1] && free[n-1] != 0
  {
    if n > 0 && free[0] != 0 && InRange(free[0], lo, disk) {
      assert st[..n][0] == st[0];
    }
  }

  /** ... and taking it off leaves the rest, from the array or the next link. */
  lemma RepPop(n: int, free: seq<int>, lo: int, disk: Disk, st: seq<int>)
    requires Rep(n, free, lo, disk, st) && st != []
    ensures n > 1 ==> Rep(n-1, free, lo, disk, st[1..])
    ensures n == 1 && InRange(free[0], lo, disk) ==>
              disk[free[0]][0] >= 1 && Rep(disk[free[0]][0], disk[free[0]][1..NICFREE+1], lo, disk, st[1..])
    ensures n == 1 && !InRange(free[0], lo, disk) ==> st[1..] == []
  {
    if n > 1 {
      if free[0] == 0 {
        assert Rev(free, 1, n)[1..] == Rev(free, 1, n-1);
      } else {
        assert Rev(free, 0, n)[1..] == Rev(free, 0, n-1);
        if InRange(free[0], lo, disk) {
          assert st[1..][..n-1] == st[..n][1..];
          assert st[1..][n-1..] == st[n..];
        }
      }
    }
  }

  /** Room in the array: one more entry is one more on the stack. */
  lemma RepPush(n: int, free: seq<int>, lo: int, disk: Disk, st: seq<int>, b: int)
    requires Rep(n, free, lo, disk, st) && 0 < n < NICFREE && b != 0
    ensures Rep(n+1, free[n := b], lo, disk, [b] + st)
  {
    var f := free[n := b];
    assert f[0] == free[0];
    assert Rev(f, 0, n+1) == [b] + Rev(free, 0, n);
    assert Rev(f, 1, n+1) == [b] + Rev(free, 1, n);
    if free[0] != 0 && InRange(free[0], lo, disk) {
      assert ([b] + st)[..n+1] == [b] + st[..n];
      assert ([b] + st)[n+1..] == st[n..];
    }
  }

  /** The array is full: it moves into the block, which becomes the link. */
  lemma RepSpill(free: seq<int>, lo: int, disk: Disk, st: seq<int>, b: int, w: Block, free': seq<int>)
    requires Rep(NICFREE, free, lo, disk, st) && InRange(b, lo, disk) && b !in st
    requires w[0] == NICFREE && w[1..NICFREE+1] == free
    requires |free'| == NICFREE && free'[0] == b
    ensures Rep(1, free', lo, disk[b := w], [b] + st)
  {
    RepFrame(NICFREE, free, lo, disk, disk[b := w], st);
    assert Rev(free', 0, 1) == [b];
    assert ([b] + st)[..1] == [b] && ([b] + st)[1..] == st;
  }

  lemma RepBounds(n: int, free: seq<int>, lo: int, disk: Disk, st: seq<int>)
    requires Rep(n, free, lo, disk, st)
    ensures 0 <= n <= NICFREE == |free| && (n == 0 ==> st == [])
  {
  }

  lemma RepEmpty(free: seq<int>, lo: int, disk: Disk)
    requires |free| == NICFREE
    ensures Rep(0, free, lo, disk, [])
  {
  }

  /** A list of one zero entry is empty too. */
  lemma RepOneZero(free: seq<int>, lo: int, disk: Disk)
    requires |free| == NICFREE && free[0] == 0
    ensures Rep(1, free, lo, disk, [])
  {
  }

  lemma NoRepeatTail(s: seq<int>)
    requires s != [] && NoRepeat(s)
    ensures NoRepeat(s[1..]) && s[0] !in s[1..]
  {
  }

  lemma NoRepeatPush(s: seq<int>, b: int)
    requires NoRepeat(s) && b !in s
    ensures NoRepeat([b] + s)
  {
  }
}
