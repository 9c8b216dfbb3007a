/** The buffer cache as values: what its routines do to the headers, the
    available list, the disk queue and the disk. */
module CacheSpec {

  /** The contents of a block; only equality matters. */
  type Data = int

  datatype Key = Key(dev: int, blk: int)

  const NODEV: int := -1

  datatype Buf = Buf(dev: int, blk: int, busy: bool, done: bool, read: bool, wanted: bool,
                     async: bool, delwri: bool, data: Data)
  {
    function Block(): Key { Key(dev, blk) }
  }

  /** `avail` is the available list, oldest first; `fwant` is B_WANTED of its
      head; `q` is the disk queue, the transfer under way first. */
  datatype Core = Core(bufs: seq<Buf>, avail: seq<nat>, fwant: bool, q: seq<nat>, disk: imap<Key, Data>)

  /** Index of a buffer with the key, or the number of buffers. */
  function Find(bufs: seq<Buf>, dev: int, blk: int): (b: nat)
    ensures b <= |bufs|
    ensures b < |bufs| ==> bufs[b].dev == dev && bufs[b].blk == blk
    ensures b == |bufs| ==> forall i :: 0 <= i < |bufs| ==> !(bufs[i].dev == dev && bufs[i].blk == blk)
  {
    FindFrom(bufs, dev, blk, 0)
  }

  function FindFrom(bufs: seq<Buf>, dev: int, blk: int, k: nat): (b: nat)
    requires k <= |bufs|
    ensures k <= b <= |bufs|
    ensures b < |bufs| ==> bufs[b].dev == dev && bufs[b].blk == blk
    ensures b == |bufs| ==> forall i :: k <= i < |bufs| ==> !(bufs[i].dev == dev && bufs[i].blk == blk)
    decreases |bufs| - k
  {
    if k == |bufs| || (bufs[k].dev == dev && bufs[k].blk == blk) then k else FindFrom(bufs, dev, blk, k+1)
  }

  function Without(s: seq<nat>, b: nat): (r: seq<nat>)
    ensures forall x :: x in r ==> x in s && x != b
    ensures forall x :: x in s && x != b ==> x in r
  {
    if s == [] then [] else
      assert forall x :: x in s <==> x == s[0] || x in s[1..];
      (if s[0] == b then [] else [s[0]]) + Without(s[1..], b)
  }

  // ----- the routines

  /** `notavail`: off the available list, busy. */
  ghost function Notavail(c: Core, b: nat): Core
    requires b < |c.bufs|
  {
    c.(bufs := c.bufs[b := c.bufs[b].(busy := true)], avail := Without(c.avail, b))
  }

  /** `brelse`, but for its wakeups, which are for those asleep on the buffer when
      it is wanted and on the list when that is wanted. */
  ghost function Release(c: Core, b: nat): Core
    requires b < |c.bufs|
  {
    c.(bufs := c.bufs[b := c.bufs[b].(wanted := false, busy := false, async := false)],
       avail := c.avail + [b], fwant := false)
  }

  /** The strategy routine: onto the end of the disk queue. */
  ghost function Enqueue(c: Core, b: nat): Core {
    c.(q := c.q + [b])
  }

  /** The first half of `bwrite`: the flags, and the request. */
  ghost function StartWrite(c: Core, b: nat, async: bool): Core
    requires b < |c.bufs|
  {
    var h := c.bufs[b];
    Enqueue(c.(bufs := c.bufs[b := h.(read := false, done := false, delwri := false, async := h.async || async)]), b)
  }

  ghost function StartRead(c: Core, b: nat, async: bool): Core
    requires b < |c.bufs|
  {
    var h := c.bufs[b];
    Enqueue(c.(bufs := c.bufs[b := h.(read := true, async := h.async || async)]), b)
  }

  datatype Got = Have(b: nat) | SleepBuf(b: nat) | SleepFree | Again

  /** One time round the loop of `getblk`. */
  ghost function Getblk(c: Core, dev: int, blk: int): (r: (Core, Got))
    requires forall i :: 0 <= i < |c.avail| ==> c.avail[i] < |c.bufs|
  {
    var b := Find(c.bufs, dev, blk);
    if dev >= 0 && b < |c.bufs| then
      if c.bufs[b].busy
      then (c.(bufs := c.bufs[b := c.bufs[b].(wanted := true)]), SleepBuf(b))
      else (Notavail(c, b), Have(b))
    else if c.avail == [] then (c.(fwant := true), SleepFree)
    else
      var f := c.avail[0];
      if c.bufs[f].delwri then (StartWrite(Notavail(c, f), f, true), Again)
      else
        var h := Buf(dev, blk, true, false, false, false, false, false, c.bufs[f].data);
        (c.(bufs := c.bufs[f := h], avail := Without(c.avail, f)), Have(f))
  }

  /** The completion interrupt: `rkintr` with `iodone`, less the wakeups.  The
      transfer at the head of the queue has been made. */
  ghost function Intr(c: Core): Core
    requires c.q != [] && c.q[0] < |c.bufs| && c.bufs[c.q[0]].Block() in c.disk
  {
    var b := c.q[0];
    var h := c.bufs[b];
    var h' := h.(done := true, data := if h.read then c.disk[h.Block()] else h.data);
    var c' := c.(bufs := c.bufs[b := h'], q := c.q[1..],
                 disk := if h.read then c.disk else c.disk[h.Block() := h.data]);
    if h.async then Release(c', b) else c'.(bufs := c'.bufs[b := h'.(wanted := false)])
  }
}
