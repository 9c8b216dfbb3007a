/** The loops of the buffer cache, left to themselves: what `getblk` and `bflush`
    come to when nothing else happens. */
module CacheSearch {
  import opened Common
  import opened CacheSpec
  import opened Rings
  import opened CacheLists

  predicate InRange(c: Core) {
    forall i :: 0 <= i < |c.avail| ==> c.avail[i] < |c.bufs|
  }

  lemma WithoutShorter(s: seq<nat>, b: nat)
    ensures |Without(s, b)| <= |s|
    ensures b in s ==> |Without(s, b)| < |s|
  {
  }

  lemma WithoutHead(s: seq<nat>)
    requires NoRepeat(s) && s != []
    ensures Without(s, s[0]) == s[1..] && NoRepeat(s[1..]) && s[0] !in s[1..]
  {
    WithoutIsCut(s, 0);
  }

  /** `getblk` with nothing else going on: round the loop until it has a buffer or
      has to sleep. */
  ghost function Search(c: Core, dev: int, blk: int): (Core, Got)
    requires InRange(c)
    decreases |c.avail|
  {
    var (c1, got) := Getblk(c, dev, blk);
    if got != Again then (c1, got)
    else
      (WithoutShorter(c.avail, c.avail[0]); WithoutInRange(c.avail, c.avail[0], |c.bufs|); Search(c1, dev, blk))
  }

  /** How many delayed writes are ahead of the oldest clean buffer. */
  function Ahead(bufs: seq<Buf>, avail: seq<nat>): (k: nat)
    requires forall i :: 0 <= i < |avail| ==> avail[i] < |bufs|
    ensures k <= |avail| && (forall i :: 0 <= i < k ==> bufs[avail[i]].delwri)
    ensures (k < |avail| ==> !bufs[avail[k]].delwri)
  {
    if avail == [] || !bufs[avail[0]].delwri then 0 else 1 + Ahead(bufs, avail[1..])
  }

  lemma AheadFrame(bufs: seq<Buf>, bufs': seq<Buf>, avail: seq<nat>)
    requires |bufs| == |bufs'|
    requires forall i :: 0 <= i < |avail| ==> avail[i] < |bufs| && bufs'[avail[i]] == bufs[avail[i]]
    ensures Ahead(bufs', avail) == Ahead(bufs, avail)
  {
  }

  /** For a block not in the cache, the buffer is the oldest clean one; the delayed
      writes ahead of it have been started, in order; and the search sleeps only
      when there was none. */
  lemma {:induction false} SearchTakesOldestClean(c: Core, dev: int, blk: int)
    requires InRange(c) && NoRepeat(c.avail) && (dev >= 0 ==> Find(c.bufs, dev, blk) == |c.bufs|)
    ensures var k := Ahead(c.bufs, c.avail);
            var (c', got) := Search(c, dev, blk);
            && got == (if k < |c.avail| then Have(c.avail[k]) else SleepFree)
            && c'.q == c.q + c.avail[..k]
            && c'.avail == (if k < |c.avail| then c.avail[k+1..] else [])
            && c'.disk == c.disk
    decreases |c.avail|
  {
    hide Getblk, Find, Without, NoRepeat, Ahead;
    SearchStep(c, dev, blk);
    if c.avail != [] && c.bufs[c.avail[0]].delwri {
      var c1 := Getblk(c, dev, blk).0;
      SearchTakesOldestClean(c1, dev, blk);
      var k := Ahead(c1.bufs, c1.avail);
      OneMore(c.q, c.avail, k);
    }
  }

  lemma OneMore(q: seq<nat>, s: seq<nat>, k: nat)
    requires k < |s|
    ensures q + [s[0]] + s[1..][..k] == q + s[..k+1]
  {
  }

  /** One time round, for a block not in the cache. */
  lemma SearchStep(c: Core, dev: int, blk: int)
    requires InRange(c) && NoRepeat(c.avail) && (dev >= 0 ==> Find(c.bufs, dev, blk) == |c.bufs|)
    ensures var (c1, got) := Getblk(c, dev, blk);
            if c.avail == [] then got == SleepFree && Ahead(c.bufs, c.avail) == 0 && c1 == c.(fwant := true)
            else
              var f := c.avail[0];
              && c1.avail == c.avail[1..] && c1.disk == c.disk && NoRepeat(c1.avail) && InRange(c1)
              && if c.bufs[f].delwri
                 then && got == Again && c1.q == c.q + [f] && (dev >= 0 ==> Find(c1.bufs, dev, blk) == |c1.bufs|)
                      && Ahead(c.bufs, c.avail) == 1 + Ahead(c1.bufs, c1.avail)
                 else got == Have(f) && c1.q == c.q && Ahead(c.bufs, c.avail) == 0
  {
    if c.avail != [] {
      WithoutHead(c.avail);
      MissIs(c, dev, blk);
      hide NoRepeat, Without, Find, Getblk, Ahead;
      AheadStep(c.bufs, c.avail);
      assert InRange(c.(avail := c.avail[1..]));
      var f := c.avail[0];
      if c.bufs[f].delwri {
        var c1 := Getblk(c, dev, blk).0;
        StillAbsent(c.bufs, c1.bufs, dev, blk);
        AheadFrame(c.bufs, c1.bufs, c.avail[1..]);
      }
    }
  }

  lemma AheadStep(bufs: seq<Buf>, avail: seq<nat>)
    requires avail != [] && forall i :: 0 <= i < |avail| ==> avail[i] < |bufs|
    ensures Ahead(bufs, avail) == if bufs[avail[0]].delwri then 1 + Ahead(bufs, avail[1..]) else 0
  {
  }

  lemma StillAbsent(bufs: seq<Buf>, bufs': seq<Buf>, dev: int, blk: int)
    requires |bufs| == |bufs'| && forall i :: 0 <= i < |bufs| ==> bufs'[i].Block() == bufs[i].Block()
    ensures Find(bufs, dev, blk) == |bufs| ==> Find(bufs', dev, blk) == |bufs|
  {
    var b := Find(bufs', dev, blk);
    if b < |bufs| { assert bufs[b].Block() == bufs'[b].Block(); }
  }

  // ----- bflush

  predicate Late(h: Buf, dev: int) {
    h.delwri && (dev == NODEV || dev == h.dev)
  }

  /** Place of the oldest delayed write for the device, from `i` on. */
  function FirstLate(c: Core, dev: int, i: nat): (k: nat)
    requires InRange(c) && i <= |c.avail|
    ensures i <= k <= |c.avail|
    ensures (forall j :: i <= j < k ==> !Late(c.bufs[c.avail[j]], dev))
    ensures (k < |c.avail| ==> Late(c.bufs[c.avail[k]], dev))
    decreases |c.avail| - i
  {
    if i == |c.avail| || Late(c.bufs[c.avail[i]], dev) then i else FirstLate(c, dev, i+1)
  }

  lemma FirstLateStep(c: Core, dev: int, i: nat)
    requires InRange(c) && i < |c.avail|
    ensures FirstLate(c, dev, i) == if Late(c.bufs[c.avail[i]], dev) then i else FirstLate(c, dev, i+1)
  {
  }

  lemma EvictShrinks(c: Core, dev: int)
    requires InRange(c) && FirstLate(c, dev, 0) < |c.avail|
    ensures var c1 := Evict(c, c.avail[FirstLate(c, dev, 0)]);
            |c1.avail| < |c.avail| && Flushed(c, dev) == Flushed(c1, dev)
  {
    WithoutShorter(c.avail, c.avail[FirstLate(c, dev, 0)]);
  }

  /** One delayed write started. */
  ghost function Evict(c: Core, b: nat): (r: Core)
    requires InRange(c) && b < |c.bufs|
    ensures InRange(r)
  {
    WithoutInRange(c.avail, b, |c.bufs|);
    StartWrite(Notavail(c, b), b, true)
  }

  ghost function Flushed(c: Core, dev: int): Core
    requires InRange(c)
    decreases |c.avail|
  {
    var k := FirstLate(c, dev, 0);
    if k == |c.avail| then c
    else (WithoutShorter(c.avail, c.avail[k]); Flushed(Evict(c, c.avail[k]), dev))
  }

  /** Those of `s` whose write is, or is not, delayed. */
  function Pick(bufs: seq<Buf>, s: seq<nat>, dev: int, late: bool): seq<nat>
    requires forall i :: 0 <= i < |s| ==> s[i] < |bufs|
  {
    if s == [] then []
    else (if Late(bufs[s[0]], dev) == late then [s[0]] else []) + Pick(bufs, s[1..], dev, late)
  }

  lemma {:induction false} PickAll(bufs: seq<Buf>, s: seq<nat>, dev: int, late: bool)
    requires forall i :: 0 <= i < |s| ==> s[i] < |bufs| && Late(bufs[s[i]], dev) == late
    ensures Pick(bufs, s, dev, late) == s && Pick(bufs, s, dev, !late) == []
  {
    if s != [] { PickAll(bufs, s[1..], dev, late); }
  }

  lemma {:induction false} PickFrame(bufs: seq<Buf>, bufs': seq<Buf>, s: seq<nat>, dev: int, late: bool)
    requires |bufs| == |bufs'| && forall i :: 0 <= i < |s| ==> s[i] < |bufs| && bufs'[s[i]] == bufs[s[i]]
    ensures Pick(bufs', s, dev, late) == Pick(bufs, s, dev, late)
  {
    if s != [] { PickFrame(bufs, bufs', s[1..], dev, late); }
  }

  /** The list split at its first delayed write. */
  lemma PickAt(bufs: seq<Buf>, s: seq<nat>, k: nat, dev: int)
    requires k < |s| && (forall i :: 0 <= i < |s| ==> s[i] < |bufs|)
    requires (forall i :: 0 <= i < k ==> !Late(bufs[s[i]], dev)) && Late(bufs[s[k]], dev)
    ensures Pick(bufs, s, dev, true) == [s[k]] + Pick(bufs, Cut(s, k), dev, true)
    ensures Pick(bufs, s, dev, false) == Pick(bufs, Cut(s, k), dev, false)
  {
    PickOne(bufs, s, k, dev, true);
    PickOne(bufs, s, k, dev, false);
  }

  lemma {:induction false} PickOne(bufs: seq<Buf>, s: seq<nat>, k: nat, dev: int, late: bool)
    requires k < |s| && (forall i :: 0 <= i < |s| ==> s[i] < |bufs|)
    requires (forall i :: 0 <= i < k ==> !Late(bufs[s[i]], dev)) && Late(bufs[s[k]], dev)
    ensures Pick(bufs, s, dev, late) == (if late then [s[k]] else []) + Pick(bufs, Cut(s, k), dev, late)
  {
    hide Late;
    if k == 0 {
      assert Cut(s, 0) == s[1..];
    } else {
      PickOne(bufs, s[1..], k-1, dev, late);
      var r := Cut(s, k);
      assert r[0] == s[0] && r[1..] == Cut(s[1..], k-1);
    }
  }

  /** What `bflush` comes to: exactly the delayed writes of the device have been
      started, oldest first, and the rest of the available list is as it was. */
  lemma {:induction false} FlushedLists(c: Core, dev: int)
    requires InRange(c) && NoRepeat(c.avail)
    ensures var c' := Flushed(c, dev);
            && c'.q == c.q + Pick(c.bufs, c.avail, dev, true)
            && c'.avail == Pick(c.bufs, c.avail, dev, false)
            && c'.disk == c.disk
    decreases |c.avail|
  {
    var k := FirstLate(c, dev, 0);
    if k == |c.avail| {
      PickAll(c.bufs, c.avail, dev, false);
      assert Flushed(c, dev) == c && c.q + [] == c.q;
    } else {
      var b := c.avail[k];
      var c1 := Evict(c, b);
      assert Flushed(c, dev) == Flushed(c1, dev);
      EvictStep(c, k, dev);
      hide Evict, Pick, NoRepeat, Flushed, FirstLate, Late;
      FlushedLists(c1, dev);
      assert c1.q + Pick(c1.bufs, c1.avail, dev, true) == c.q + ([b] + Pick(c1.bufs, c1.avail, dev, true));
    }
  }

  function Started(h: Buf): Buf {
    h.(busy := true, read := false, done := false, delwri := false, async := true)
  }

  /** Each buffer written keeps its block and contents, and the others everything. */
  lemma {:induction false} FlushedBufs(c: Core, dev: int)
    requires InRange(c) && NoRepeat(c.avail)
    ensures var c' := Flushed(c, dev);
            |c'.bufs| == |c.bufs| &&
            forall b :: 0 <= b < |c.bufs| ==>
              c'.bufs[b] == if b in c.avail && Late(c.bufs[b], dev) then Started(c.bufs[b]) else c.bufs[b]
    decreases |c.avail|
  {
    var k := FirstLate(c, dev, 0);
    if k < |c.avail| {
      var b := c.avail[k];
      var c1 := Evict(c, b);
      assert Flushed(c, dev) == Flushed(c1, dev);
      EvictStep(c, k, dev);
      assert Late(c.bufs[b], dev);
      hide Evict, Pick, NoRepeat, Flushed, FirstLate, Late;
      FlushedBufs(c1, dev);
    }
  }

  /** The first delayed write started. */
  lemma EvictStep(c: Core, k: nat, dev: int)
    requires InRange(c) && NoRepeat(c.avail) && k < |c.avail| && k == FirstLate(c, dev, 0)
    ensures var b := c.avail[k]; var c1 := Evict(c, b);
            && NoRepeat(c1.avail) && |c1.avail| < |c.avail| && c1.disk == c.disk && c1.q == c.q + [b]
            && c1.bufs == c.bufs[b := Started(c.bufs[b])]
            && Pick(c.bufs, c.avail, dev, true) == [b] + Pick(c1.bufs, c1.avail, dev, true)
            && Pick(c.bufs, c.avail, dev, false) == Pick(c1.bufs, c1.avail, dev, false)
            && (forall a :: a in c1.avail <==> a in c.avail && a != b)
  {
    var b := c.avail[k];
    var c1 := Evict(c, b);
    WithoutIsCut(c.avail, k);
    CutNoRepeat(c.avail, k);
    WithoutInRange(c.avail, b, |c.bufs|);
    PickAt(c.bufs, c.avail, k, dev);
    hide Pick, NoRepeat, Without;
    assert forall i :: 0 <= i < |c1.avail| ==> c1.avail[i] in c1.avail;
    PickFrame(c.bufs, c1.bufs, c1.avail, dev, true);
    PickFrame(c.bufs, c1.bufs, c1.avail, dev, false);
  }

  // ----- the steps in pieces

  /** A miss, after which of the branches it takes. */
  lemma MissIs(c: Core, dev: int, blk: int)
    requires InRange(c) && (dev >= 0 ==> Find(c.bufs, dev, blk) == |c.bufs|)
    ensures c.avail == [] ==> Getblk(c, dev, blk) == (c.(fwant := true), SleepFree)
    ensures c.avail != [] ==>
              var f := c.avail[0]; var c1 := Notavail(c, f);
              && (c.bufs[f].delwri ==> Getblk(c, dev, blk) == (StartWrite(c1, f, true), Again))
              && (!c.bufs[f].delwri ==>
                    Getblk(c, dev, blk) ==
                    (c1.(bufs := c1.bufs[f := Buf(dev, blk, true, false, false, false, false, false,
                                                  c1.bufs[f].data)]), Have(f)))
  {
    hide Find, Without;
    if c.avail != [] && !c.bufs[c.avail[0]].delwri {
      var f := c.avail[0];
      var h := Buf(dev, blk, true, false, false, false, false, false, c.bufs[f].data);
      assert Notavail(c, f).bufs[f := h] == c.bufs[f := h];
    }
  }

  lemma AgainShrinks(c: Core, dev: int, blk: int)
    requires InRange(c) && Getblk(c, dev, blk).1 == Again
    ensures var c1 := Getblk(c, dev, blk).0;
            InRange(c1) && |c1.avail| < |c.avail| && Search(c, dev, blk) == Search(c1, dev, blk)
  {
    WithoutShorter(c.avail, c.avail[0]);
    WithoutInRange(c.avail, c.avail[0], |c.bufs|);
  }

  lemma SearchEnds(c: Core, dev: int, blk: int)
    requires InRange(c) && Getblk(c, dev, blk).1 != Again
    ensures Search(c, dev, blk) == Getblk(c, dev, blk)
  {
  }

  ghost function Transferred(c: Core, b: nat): Core
    requires b < |c.bufs| && c.bufs[b].Block() in c.disk
  {
    var h := c.bufs[b];
    c.(bufs := c.bufs[b := h.(data := if h.read then c.disk[h.Block()] else h.data)],
       disk := if h.read then c.disk else c.disk[h.Block() := h.data])
  }

  ghost function Completed(c: Core, b: nat): Core
    requires b < |c.bufs|
  {
    var h := c.bufs[b].(done := true);
    var c' := c.(bufs := c.bufs[b := h]);
    if h.async then Release(c', b) else c'.(bufs := c'.bufs[b := h.(wanted := false)])
  }

  lemma IntrIs(c: Core)
    requires c.q != [] && c.q[0] < |c.bufs| && c.bufs[c.q[0]].Block() in c.disk
    ensures var b := c.q[0]; var c1 := Transferred(c.(q := c.q[1..]), b);
            && Intr(c) == Completed(c1, b) && |c1.bufs| == |c.bufs|
            && c1.bufs[b].async == c.bufs[b].async && c1.bufs[b].wanted == c.bufs[b].wanted && c1.fwant == c.fwant
  {
    var b := c.q[0];
    var c1 := Transferred(c.(q := c.q[1..]), b);
    assert Intr(c).bufs == Completed(c1, b).bufs;
  }
}
