/** What the links of the buffer headers mean, and what each change of a link does
    to the lists: the available list, the device lists and the disk queue. */
module CacheLists {
  import opened Common
  import opened CacheSpec
  import opened Rings

  // ----- what the links mean

  /** The available list: a buffer is on it if and only if it is not busy. */
  ghost predicate AvOk(n: nat, hdr: seq<Buf>, af: seq<nat>, ab: seq<nat>, avail: seq<nat>) {
    && |hdr| == n && |af| == n+1 && |ab| == n+1
    && Ring(af, ab, n, avail) && (forall i :: 0 <= i < |avail| ==> avail[i] < n)
    && forall b :: 0 <= b < n ==> (b in avail <==> !hdr[b].busy)
  }

  /** No buffer: the null pointer of the disk queue. */
  function Null(n: nat): nat { n + 2 }

  /** The disk queue runs through the forward available-list pointers. */
  ghost predicate QueueOk(n: nat, hdr: seq<Buf>, af: seq<nat>, actf: nat, actl: nat, q: seq<nat>) {
    && |hdr| == n && |af| == n+1 && NoRepeat(q)
    && (forall i :: 0 <= i < |q| ==> q[i] < n && hdr[q[i]].busy)
    && (q == [] ==> actf == Null(n))
    && (q != [] ==> actf == q[0] && actl == q[|q|-1] && af[q[|q|-1]] == Null(n))
    && forall i :: 0 <= i < |q|-1 ==> af[q[i]] == q[i+1]
  }

  ghost predicate OneEach(hdr: seq<Buf>) {
    forall a, b :: 0 <= a < |hdr| && 0 <= b < |hdr| && hdr[a].dev >= 0 && hdr[a].Block() == hdr[b].Block() ==> a == b
  }

  /** Two rings that share no node. */
  ghost predicate TwoRings(n: nat, bf: seq<nat>, bb: seq<nat>, none: seq<nat>, rk: seq<nat>) {
    && |bf| == n+2 && |bb| == n+2
    && Ring(bf, bb, n, none) && Ring(bf, bb, n+1, rk)
    && (forall b :: b in none ==> b < n && b !in rk) && (forall b :: b in rk ==> b < n)
  }

  /** Every buffer is on one device list: the disk's, or that of no device. */
  ghost predicate DevOk(n: nat, hdr: seq<Buf>, bf: seq<nat>, bb: seq<nat>, none: seq<nat>, rk: seq<nat>) {
    && |hdr| == n && TwoRings(n, bf, bb, none, rk)
    && (forall b :: 0 <= b < n ==> (b in none <==> hdr[b].dev < 0) && (b in rk <==> hdr[b].dev >= 0))
  }

  // ----- the lists after each change

  lemma WithoutIsCut(s: seq<nat>, i: nat)
    requires NoRepeat(s) && i < |s|
    ensures Without(s, s[i]) == Cut(s, i)
  {
    var a, b := s[..i], s[i+1..];
    hide NoRepeat, Cut, Without;
    CutParts(s, i);
    WithoutConcat(a, [s[i]] + b, s[i]);
    WithoutAbsent(a, s[i]);
    WithoutFirst(s[i], b);
  }

  lemma WithoutFirst(x: nat, s: seq<nat>)
    requires x !in s
    ensures Without([x] + s, x) == s
  {
    assert ([x] + s)[1..] == s;
    WithoutAbsent(s, x);
  }

  lemma {:induction false} WithoutConcat(s: seq<nat>, t: seq<nat>, b: nat)
    ensures Without(s + t, b) == Without(s, b) + Without(t, b)
  {
    if s == [] {
      assert s + t == t;
    } else {
      WithoutConcat(s[1..], t, b);
      assert (s + t)[1..] == s[1..] + t;
      var h := if s[0] == b then [] else [s[0]];
      assert (h + Without(s[1..], b)) + Without(t, b) == h + (Without(s[1..], b) + Without(t, b));
    }
  }

  lemma WithoutAbsent(s: seq<nat>, b: nat)
    requires b !in s
    ensures Without(s, b) == s
  {
    if s != [] { WithoutAbsent(s[1..], b); }
  }

  lemma WithoutInRange(s: seq<nat>, b: nat, n: nat)
    requires forall i :: 0 <= i < |s| ==> s[i] < n
    ensures forall i :: 0 <= i < |Without(s, b)| ==> Without(s, b)[i] < n
  {
    forall i | 0 <= i < |Without(s, b)| ensures Without(s, b)[i] < n {
      assert Without(s, b)[i] in Without(s, b);
    }
  }

  lemma PlaceOf(s: seq<nat>, b: nat) returns (i: nat)
    requires b in s
    ensures i < |s| && s[i] == b
  {
    i :| i < |s| && s[i] == b;
  }

  lemma AvailIdle(n: nat, hdr: seq<Buf>, af: seq<nat>, ab: seq<nat>, avail: seq<nat>, b: nat)
    requires AvOk(n, hdr, af, ab, avail) && b in avail
    ensures b < n == |hdr| && !hdr[b].busy
  {
    var i := PlaceOf(avail, b);
    LinksInRange(af, ab, n, avail, i);
  }

  lemma ShorterAv(n: nat, hdr: seq<Buf>, af: seq<nat>, ab: seq<nat>, avail: seq<nat>, b: nat, h: Buf, af': seq<nat>,
                  ab': seq<nat>)
    requires AvOk(n, hdr, af, ab, avail) && b < n && h.busy
    requires |af'| == |ab'| == n+1 && Ring(af', ab', n, Without(avail, b))
    ensures AvOk(n, hdr[b := h], af', ab', Without(avail, b))
  {
    WithoutInRange(avail, b, n);
    hide Ring, Without;
  }

  lemma TakenAv(n: nat, hdr: seq<Buf>, af: seq<nat>, ab: seq<nat>, avail: seq<nat>, b: nat, h: Buf)
    requires AvOk(n, hdr, af, ab, avail) && b in avail && h.busy
    ensures b < n && ab[b] <= n && af[b] <= n
    ensures AvOk(n, hdr[b := h], af[ab[b] := af[b]], ab[af[b] := ab[b]], Without(avail, b))
  {
    var i := PlaceOf(avail, b);
    LinksInRange(af, ab, n, avail, i);
    assert NoRepeat(avail) && b < n;
    hide AvOk, Ring, Cut, Without, NoRepeat;
    Unlinked(af, ab, n, avail, i);
    WithoutIsCut(avail, i);
    ShorterAv(n, hdr, af, ab, avail, b, h, af[ab[b] := af[b]], ab[af[b] := ab[b]]);
  }

  /** The queue is untouched by what happens to buffers that are not on it. */
  lemma QueueFrame(n: nat, hdr: seq<Buf>, af: seq<nat>, hdr': seq<Buf>, af': seq<nat>, actf: nat, actl: nat,
                   q: seq<nat>)
    requires QueueOk(n, hdr, af, actf, actl, q) && |hdr'| == n && |af'| == n+1
    requires forall b :: b in q && b < n ==> hdr'[b] == hdr[b] && af'[b] == af[b]
    ensures QueueOk(n, hdr', af', actf, actl, q)
  {
    hide NoRepeat;
    assert forall i :: 0 <= i < |q| ==> q[i] in q;
  }

  lemma QueueBusy(n: nat, hdr: seq<Buf>, af: seq<nat>, actf: nat, actl: nat, q: seq<nat>)
    requires QueueOk(n, hdr, af, actf, actl, q)
    ensures forall b :: b in q ==> b < n == |hdr| && hdr[b].busy
    ensures |af| == n+1
  {
  }

  lemma TakenQueue(n: nat, hdr: seq<Buf>, af: seq<nat>, ab: seq<nat>, avail: seq<nat>, actf: nat, actl: nat,
                   q: seq<nat>, b: nat, h: Buf)
    requires AvOk(n, hdr, af, ab, avail) && QueueOk(n, hdr, af, actf, actl, q) && b in avail && h.busy
    ensures b < n && ab[b] <= n
    ensures QueueOk(n, hdr[b := h], af[ab[b] := af[b]], actf, actl, q)
  {
    var i := PlaceOf(avail, b);
    LinksAt(af, ab, n, avail, i);
    LinksInRange(af, ab, n, avail, i);
    var y := ab[b];
    assert (y == n || y in avail) && b < n;
    QueueBusy(n, hdr, af, actf, actl, q);
    assert b !in q && y !in q;
    hide Ring, NoRepeat, AvOk, QueueOk;
    QueueFrame(n, hdr, af, hdr[b := h], af[y := af[b]], actf, actl, q);
  }

  lemma ReleasedAv(n: nat, hdr: seq<Buf>, af: seq<nat>, ab: seq<nat>, avail: seq<nat>, b: nat, h: Buf)
    requires AvOk(n, hdr, af, ab, avail) && b < n && hdr[b].busy && !h.busy
    ensures ab[n] <= n
    ensures AvOk(n, hdr[b := h], af[ab[n] := b][b := n], ab[b := ab[n]][n := b], avail + [b])
  {
    Appended(af, ab, n, avail, b);
    hide Ring;
  }

  lemma ReleasedQueue(n: nat, hdr: seq<Buf>, af: seq<nat>, ab: seq<nat>, avail: seq<nat>, actf: nat, actl: nat,
                      q: seq<nat>, b: nat, h: Buf)
    requires AvOk(n, hdr, af, ab, avail) && QueueOk(n, hdr, af, actf, actl, q) && b < n && b !in q
    ensures ab[n] <= n
    ensures QueueOk(n, hdr[b := h], af[ab[n] := b][b := n], actf, actl, q)
  {
    LinksAt(af, ab, n, avail, -1);
    var y := ab[n];
    assert (y == n || y in avail) && y <= n;
    QueueBusy(n, hdr, af, actf, actl, q);
    assert y !in q && n !in q;
    hide Ring, NoRepeat, AvOk, QueueOk;
    QueueFrame(n, hdr, af, hdr[b := h], af[y := b][b := n], actf, actl, q);
  }

  /** Another link in the place of busy buffer `b` is nothing to the list. */
  lemma AvFrame(n: nat, hdr: seq<Buf>, af: seq<nat>, ab: seq<nat>, avail: seq<nat>, b: nat, link: nat)
    requires AvOk(n, hdr, af, ab, avail) && b < n && hdr[b].busy
    ensures AvOk(n, hdr, af[b := link], ab, avail)
  {
    assert b !in avail;
    RingFrame(af, ab, af[b := link], ab, n, avail);
  }

  /** Other flags in a buffer whose being busy stays. */
  lemma AvFlags(n: nat, hdr: seq<Buf>, af: seq<nat>, ab: seq<nat>, avail: seq<nat>, b: nat, h: Buf)
    requires AvOk(n, hdr, af, ab, avail) && b < n && hdr[b].busy == h.busy
    ensures AvOk(n, hdr[b := h], af, ab, avail)
  {
    hide Ring;
  }

  lemma QueueFlags(n: nat, hdr: seq<Buf>, af: seq<nat>, actf: nat, actl: nat, q: seq<nat>, b: nat, h: Buf)
    requires QueueOk(n, hdr, af, actf, actl, q) && b < n && hdr[b].busy == h.busy
    ensures QueueOk(n, hdr[b := h], af, actf, actl, q)
  {
    hide NoRepeat;
  }

  lemma Enqueued(n: nat, hdr: seq<Buf>, af: seq<nat>, actf: nat, actl: nat, q: seq<nat>, b: nat)
    requires QueueOk(n, hdr, af, actf, actl, q) && b < n && hdr[b].busy && b !in q
    ensures actf != Null(n) ==> actl < n && hdr[actl].busy && actl != b
    ensures var af' := af[b := Null(n)];
            if actf == Null(n) then QueueOk(n, hdr, af', b, b, q + [b])
            else actl < |af'| && QueueOk(n, hdr, af'[actl := b], actf, b, q + [b])
  {
    if q != [] {
      assert q[|q|-1] in q;
    }
  }

  lemma Dequeued(n: nat, hdr: seq<Buf>, af: seq<nat>, actf: nat, actl: nat, q: seq<nat>)
    requires QueueOk(n, hdr, af, actf, actl, q) && q != []
    ensures actf < |af| && QueueOk(n, hdr, af, af[actf], actl, q[1..]) && q[0] !in q[1..]
  {
  }

  lemma DevFlags(n: nat, hdr: seq<Buf>, bf: seq<nat>, bb: seq<nat>, none: seq<nat>, rk: seq<nat>, b: nat, h: Buf)
    requires DevOk(n, hdr, bf, bb, none, rk) && b < n && (hdr[b].dev < 0 <==> h.dev < 0)
    ensures DevOk(n, hdr[b := h], bf, bb, none, rk)
  {
    hide TwoRings;
  }

  lemma OneEachFlags(hdr: seq<Buf>, b: nat, h: Buf)
    requires OneEach(hdr) && b < |hdr| && (hdr[b].dev < 0 <==> h.dev < 0) && h.Block() == hdr[b].Block()
    ensures OneEach(hdr[b := h])
  {
  }

  // ----- moving a buffer to the front of a device list

  lemma UnlinkedApart(bf: seq<nat>, bb: seq<nat>, h1: nat, s1: seq<nat>, i: nat, h2: nat, s2: seq<nat>)
    requires Ring(bf, bb, h1, s1) && Ring(bf, bb, h2, s2) && i < |s1|
    requires h1 != h2 && h1 !in s2 && h2 !in s1 && (forall b :: b in s1 ==> b !in s2)
    ensures s1[i] < |bf| && bb[s1[i]] < |bf| && bf[s1[i]] < |bb|
    ensures Ring(bf[bb[s1[i]] := bf[s1[i]]], bb[bf[s1[i]] := bb[s1[i]]], h2, s2)
  {
    LinksAt(bf, bb, h1, s1, i);
    LinksInRange(bf, bb, h1, s1, i);
    var x := s1[i];
    assert bb[x] == h1 || bb[x] in s1;
    assert bf[x] == h1 || bf[x] in s1;
    RingNodes(bf, bb, h2, s2);
    hide Ring, Node;
    RingFrame(bf, bb, bf[bb[x] := bf[x]], bb[bf[x] := bb[x]], h2, s2);
  }

  lemma OtherNodes(bf: seq<nat>, bb: seq<nat>, h1: nat, x: nat, y: nat, h2: nat, s2: seq<nat>)
    requires h1 < |bf| == |bb| && x < |bf| && y < |bf|
    requires h2 < |bf| && h2 != x && h2 != y && h2 != h1
    requires forall z :: z in s2 ==> z < |bf| && z != x && z != y && z != h1
    ensures bf[x := y][h1 := x][h2] == bf[h2] && bb[x := h1][y := x][h2] == bb[h2]
    ensures forall z :: z in s2 ==> bf[x := y][h1 := x][z] == bf[z] && bb[x := h1][y := x][z] == bb[z]
  {
  }

  lemma RingNodes(bf: seq<nat>, bb: seq<nat>, h: nat, s: seq<nat>)
    requires Ring(bf, bb, h, s)
    ensures h < |bf| == |bb| && bf[h] < |bf| && (bf[h] == h || bf[h] in s)
    ensures forall z :: z in s ==> z < |bf| && z != h
  {
    LinksAt(bf, bb, h, s, -1);
  }

  lemma PushedApart(bf: seq<nat>, bb: seq<nat>, h1: nat, s1: seq<nat>, x: nat, h2: nat, s2: seq<nat>)
    requires Ring(bf, bb, h1, s1) && Ring(bf, bb, h2, s2) && x < |bf| && x != h2 && x !in s2
    requires h1 != h2 && h1 !in s2 && h2 !in s1 && (forall b :: b in s1 ==> b !in s2)
    ensures h1 < |bf| == |bb| && bf[h1] < |bb|
    ensures Ring(bf[x := bf[h1]][h1 := x], bb[x := h1][bf[h1] := x], h2, s2)
  {
    hide Ring, Node;
    RingNodes(bf, bb, h1, s1);
    RingNodes(bf, bb, h2, s2);
    var y, bf', bb' := bf[h1], bf[x := bf[h1]][h1 := x], bb[x := h1][bf[h1] := x];
    assert y != h2 && y !in s2;
    OtherNodes(bf, bb, h1, x, y, h2, s2);
    RingFrame(bf, bb, bf', bb', h2, s2);
  }

  lemma OneUnlinked(n: nat, bf: seq<nat>, bb: seq<nat>, h: nat, s: seq<nat>, h2: nat, s2: seq<nat>, b: nat)
    requires |bf| == n+2 == |bb| && Ring(bf, bb, h, s) && Ring(bf, bb, h2, s2) && b in s && b < n
    requires h != h2 && h !in s2 && h2 !in s && (forall x :: x in s ==> x !in s2)
    ensures bb[b] < |bf| && bf[b] < |bb|
    ensures var bf', bb' := bf[bb[b] := bf[b]], bb[bf[b] := bb[b]];
            Ring(bf', bb', h, Without(s, b)) && Ring(bf', bb', h2, Without(s2, b))
  {
    var i := PlaceOf(s, b);
    LinksInRange(bf, bb, h, s, i);
    assert NoRepeat(s);
    hide Ring, NoRepeat, Without, Cut;
    Unlinked(bf, bb, h, s, i);
    UnlinkedApart(bf, bb, h, s, i, h2, s2);
    WithoutIsCut(s, i);
    WithoutAbsent(s2, b);
  }

  lemma TwoUnlinked(n: nat, bf: seq<nat>, bb: seq<nat>, none: seq<nat>, rk: seq<nat>, b: nat)
    requires TwoRings(n, bf, bb, none, rk) && (b in none || b in rk)
    ensures b < n && bb[b] < n+2 && bf[b] < n+2
    ensures TwoRings(n, bf[bb[b] := bf[b]], bb[bf[b] := bb[b]], Without(none, b), Without(rk, b))
  {
    hide Ring, Without;
    if b in none {
      OneUnlinked(n, bf, bb, n, none, n+1, rk, b);
    } else {
      OneUnlinked(n, bf, bb, n+1, rk, n, none, b);
    }
  }

  /** The links with `b` put after the head `h`. */
  function PushForw(bf: seq<nat>, h: nat, b: nat): seq<nat> {
    if h < |bf| && b < |bf| then bf[b := bf[h]][h := b] else bf
  }

  function PushBack(bf: seq<nat>, bb: seq<nat>, h: nat, b: nat): seq<nat> {
    if h < |bf| && b < |bb| && bf[h] < |bb| then bb[b := h][bf[h] := b] else bb
  }

  lemma TwoPushed(n: nat, bf: seq<nat>, bb: seq<nat>, none: seq<nat>, rk: seq<nat>, b: nat, dev: int)
    requires TwoRings(n, bf, bb, none, rk) && b < n && b !in none && b !in rk
    ensures |bf| == n+2 == |bb| && bf[if dev < 0 then n else n+1] < n+2
    ensures var h := if dev < 0 then n else n+1;
            TwoRings(n, PushForw(bf, h, b), PushBack(bf, bb, h, b),
                     if dev < 0 then [b] + none else none, if dev < 0 then rk else [b] + rk)
  {
    hide Ring;
    if dev < 0 {
      Pushed(bf, bb, n, none, b);
      PushedApart(bf, bb, n, none, b, n+1, rk);
    } else {
      Pushed(bf, bb, n+1, rk, b);
      PushedApart(bf, bb, n+1, rk, b, n, none);
    }
  }

  /** The device lists with buffer `b` moved to the front of its new device's. */
  function NoneMoved(none: seq<nat>, b: nat, dev: int): seq<nat> {
    if dev < 0 then [b] + Without(none, b) else Without(none, b)
  }

  function DiskMoved(rk: seq<nat>, b: nat, dev: int): seq<nat> {
    if dev < 0 then Without(rk, b) else [b] + Without(rk, b)
  }

  lemma MovedDev(n: nat, hdr: seq<Buf>, none: seq<nat>, rk: seq<nat>, bf: seq<nat>, bb: seq<nat>, bf': seq<nat>,
                 bb': seq<nat>, b: nat, h: Buf)
    requires DevOk(n, hdr, bf, bb, none, rk) && b < n
    requires TwoRings(n, bf', bb', NoneMoved(none, b, h.dev), DiskMoved(rk, b, h.dev))
    ensures DevOk(n, hdr[b := h], bf', bb', NoneMoved(none, b, h.dev), DiskMoved(rk, b, h.dev))
  {
    hide TwoRings, Without;
  }

  // ----- what a search of the disk's list finds

  lemma FoundIs(hdr: seq<Buf>, dev: int, blk: int, b: nat)
    requires OneEach(hdr) && b < |hdr| && dev >= 0 && hdr[b].dev == dev && hdr[b].blk == blk
    ensures Find(hdr, dev, blk) == b
  {
    assert hdr[b].Block() == hdr[Find(hdr, dev, blk)].Block();
  }

  lemma AbsentIs(n: nat, hdr: seq<Buf>, bf: seq<nat>, bb: seq<nat>, none: seq<nat>, rk: seq<nat>, dev: int, blk: int)
    requires DevOk(n, hdr, bf, bb, none, rk) && dev >= 0
    requires forall b :: b in rk && b < n ==> !(hdr[b].dev == dev && hdr[b].blk == blk)
    ensures Find(hdr, dev, blk) == |hdr|
  {
    hide TwoRings;
    var b := Find(hdr, dev, blk);
    assert b < n ==> b in rk;
  }

  lemma OneEachTaken(hdr: seq<Buf>, b: nat, h: Buf)
    requires OneEach(hdr) && b < |hdr| && (h.dev >= 0 ==> Find(hdr, h.dev, h.blk) == |hdr|)
    ensures OneEach(hdr[b := h])
  {
  }

  /** The first of the available list, and whether there is one. */
  lemma AvHead(n: nat, hdr: seq<Buf>, af: seq<nat>, ab: seq<nat>, avail: seq<nat>)
    requires AvOk(n, hdr, af, ab, avail)
    ensures |af| == n+1 && (af[n] == n <==> avail == []) && (avail != [] ==> af[n] == avail[0])
  {
  }

  /** One step along the available list. */
  lemma AvNext(n: nat, hdr: seq<Buf>, af: seq<nat>, ab: seq<nat>, avail: seq<nat>, i: nat)
    requires AvOk(n, hdr, af, ab, avail) && i < |avail|
    ensures avail[i] < n < |af| && af[avail[i]] == Node(n, avail, i+1) && (Node(n, avail, i+1) == n <==> i+1 == |avail|)
  {
  }

  /** One step along the disk's list. */
  lemma DevNext(n: nat, bf: seq<nat>, bb: seq<nat>, none: seq<nat>, rk: seq<nat>, i: int)
    requires TwoRings(n, bf, bb, none, rk) && -1 <= i < |rk|
    ensures var p := Node(n+1, rk, i); p < |bf| == n+2 && bf[p] == Node(n+1, rk, i+1)
    ensures Node(n+1, rk, i+1) == n+1 <==> i+1 == |rk|
    ensures i+1 < |rk| ==> Node(n+1, rk, i+1) < n && rk[i+1] == Node(n+1, rk, i+1)
  {
    if i+1 < |rk| { assert rk[i+1] in rk; }
  }
}
