/** Circular doubly linked lists with a head node, kept as two arrays of links. */
module Rings {
  import opened Common

  /** Node `i` of the ring: the head first, then `s`. */
  function Node(head: nat, s: seq<nat>, i: int): nat {
    if 0 <= i < |s| then s[i] else head
  }

  /** From `head`, forward links run through `s` and back to the head, and
      backward links the other way. */
  ghost predicate Ring(fwd: seq<nat>, bwd: seq<nat>, head: nat, s: seq<nat>) {
    && |fwd| == |bwd| && head < |fwd|
    && NoRepeat(s) && (forall i :: 0 <= i < |s| ==> s[i] < |fwd| && s[i] != head)
    && fwd[head] == Node(head, s, 0) && bwd[head] == Node(head, s, |s|-1)
    && (forall i :: 0 <= i < |s| ==> fwd[s[i]] == Node(head, s, i+1) && bwd[s[i]] == Node(head, s, i-1))
  }

  function Cut(s: seq<nat>, i: nat): (r: seq<nat>)
    requires i < |s|
    ensures |r| == |s| - 1 && forall k :: 0 <= k < |r| ==> r[k] == if k < i then s[k] else s[k+1]
  {
    s[..i] + s[i+1..]
  }

  /** A list round its element `i`. */
  lemma CutParts(s: seq<nat>, i: nat)
    requires i < |s|
    ensures s == s[..i] + ([s[i]] + s[i+1..]) && Cut(s, i) == s[..i] + s[i+1..]
    ensures NoRepeat(s) ==> s[i] !in s[..i] && s[i] !in s[i+1..]
  {
  }

  /** Nodes at different places differ. */
  lemma NodesDiffer(fwd: seq<nat>, bwd: seq<nat>, head: nat, s: seq<nat>, i: int, j: int)
    requires Ring(fwd, bwd, head, s) && -1 <= i <= |s| && -1 <= j <= |s|
    ensures Node(head, s, i) == Node(head, s, j) <==> i == j || (i in {-1, |s|} && j in {-1, |s|})
  {
  }

  /** Forward and backward links of the node at place `i`, the head's included. */
  lemma LinksAt(fwd: seq<nat>, bwd: seq<nat>, head: nat, s: seq<nat>, i: int)
    requires Ring(fwd, bwd, head, s) && -1 <= i < |s|
    ensures var x := Node(head, s, i);
            x < |fwd| && fwd[x] == Node(head, s, i+1) && bwd[x] == Node(head, s, if i == -1 then |s|-1 else i-1)
  {
  }

  lemma RingShape(fwd: seq<nat>, bwd: seq<nat>, head: nat, s: seq<nat>)
    requires Ring(fwd, bwd, head, s)
    ensures |fwd| == |bwd| && head < |fwd| && fwd[head] < |fwd| && bwd[head] < |fwd|
  {
  }

  /** What the place `k` of the shorter list is, and its neighbours. */
  lemma CutNodes(head: nat, s: seq<nat>, i: nat, k: int)
    requires i < |s| && -1 <= k < |s|
    ensures var m := if k < i then k else k + 1; Node(head, Cut(s, i), k) == Node(head, s, m)
    ensures Node(head, Cut(s, i), |s| - 1) == head
  {
  }

  /** The links of the node at place `k` are as the ring wants them. */
  ghost predicate LinkOk(fwd: seq<nat>, bwd: seq<nat>, head: nat, s: seq<nat>, k: int) {
    var y := Node(head, s, k);
    && y < |fwd| && y < |bwd|
    && fwd[y] == Node(head, s, k+1)
    && bwd[y] == Node(head, s, if k == -1 then |s|-1 else k-1)
  }

  lemma RingFromLinks(fwd: seq<nat>, bwd: seq<nat>, head: nat, s: seq<nat>)
    requires |fwd| == |bwd| && head < |fwd| && NoRepeat(s) && head !in s
    requires forall k {:trigger LinkOk(fwd, bwd, head, s, k)} :: -1 <= k < |s| ==> LinkOk(fwd, bwd, head, s, k)
    ensures Ring(fwd, bwd, head, s)
  {
    hide NoRepeat;
    assert LinkOk(fwd, bwd, head, s, -1);
    forall i | 0 <= i < |s|
      ensures s[i] < |fwd| && s[i] != head && fwd[s[i]] == Node(head, s, i+1) && bwd[s[i]] == Node(head, s, i-1)
    {
      assert LinkOk(fwd, bwd, head, s, i);
      assert s[i] in s;
    }
  }

  lemma UnlinkedNode(fwd: seq<nat>, bwd: seq<nat>, head: nat, s: seq<nat>, i: nat, k: int)
    requires Ring(fwd, bwd, head, s) && i < |s| && -1 <= k < |s| - 1
    requires |fwd| == |bwd| && s[i] < |fwd| && bwd[s[i]] < |fwd| && fwd[s[i]] < |bwd|
    ensures LinkOk(fwd[bwd[s[i]] := fwd[s[i]]], bwd[fwd[s[i]] := bwd[s[i]]], head, Cut(s, i), k)
  {
    hide Ring, Node;
    var m := if k < i then k else k + 1;
    LinksAt(fwd, bwd, head, s, i);
    LinksAt(fwd, bwd, head, s, m);
    NodesDiffer(fwd, bwd, head, s, m, i-1);
    NodesDiffer(fwd, bwd, head, s, m, i+1);
    CutNodes(head, s, i, k);
    CutNodes(head, s, i, k+1);
    CutNodes(head, s, i, if k == -1 then |s|-2 else k-1);
    assert Node(head, s, i) == s[i] by { NodeAt(head, s, i); }
    NodeEnds(head, s);
  }

  lemma NodeAt(head: nat, s: seq<nat>, i: nat)
    requires i < |s|
    ensures Node(head, s, i) == s[i]
  {
  }

  lemma NodeEnds(head: nat, s: seq<nat>)
    ensures Node(head, s, -1) == head == Node(head, s, |s|)
  {
  }

  lemma CutNoRepeat(s: seq<nat>, i: nat)
    requires NoRepeat(s) && i < |s|
    ensures NoRepeat(Cut(s, i)) && forall k :: 0 <= k < |s| - 1 ==> Cut(s, i)[k] in s && Cut(s, i)[k] != s[i]
  {
  }

  /** `p->back->forw = p->forw; p->forw->back = p->back`. */
  lemma Unlinked(fwd: seq<nat>, bwd: seq<nat>, head: nat, s: seq<nat>, i: nat)
    requires Ring(fwd, bwd, head, s) && i < |s|
    ensures var x := s[i];
            x < |fwd| == |bwd| && bwd[x] < |fwd| && fwd[x] < |bwd| &&
            Ring(fwd[bwd[x] := fwd[x]], bwd[fwd[x] := bwd[x]], head, Cut(s, i))
  {
    var x, r := s[i], Cut(s, i);
    LinksInRange(fwd, bwd, head, s, i);
    var fwd', bwd' := fwd[bwd[x] := fwd[x]], bwd[fwd[x] := bwd[x]];
    CutNoRepeat(s, i);
    assert head !in r;
    forall k {:trigger LinkOk(fwd', bwd', head, r, k)} | -1 <= k < |r| ensures LinkOk(fwd', bwd', head, r, k) {
      UnlinkedNode(fwd, bwd, head, s, i, k);
    }
    hide Cut, NoRepeat, LinkOk, Ring;
    RingFromLinks(fwd', bwd', head, r);
  }

  lemma LinksInRange(fwd: seq<nat>, bwd: seq<nat>, head: nat, s: seq<nat>, i: nat)
    requires Ring(fwd, bwd, head, s) && i < |s|
    ensures s[i] < |fwd| == |bwd| && bwd[s[i]] < |fwd| && fwd[s[i]] < |fwd|
  {
    LinksAt(fwd, bwd, head, s, i);
  }

  /** In before the head: at the tail. */
  lemma Appended(fwd: seq<nat>, bwd: seq<nat>, head: nat, s: seq<nat>, x: nat)
    requires Ring(fwd, bwd, head, s) && x < |fwd| && x != head && x !in s
    ensures bwd[head] < |fwd|
    ensures var last := bwd[head];
            Ring(fwd[last := x][x := head], bwd[x := last][head := x], head, s + [x])
  {
    var last, r := bwd[head], s + [x];
    RingShape(fwd, bwd, head, s);
    var fwd', bwd' := fwd[last := x][x := head], bwd[x := last][head := x];
    forall k {:trigger LinkOk(fwd', bwd', head, r, k)} | -1 <= k < |r| ensures LinkOk(fwd', bwd', head, r, k) {
      AppendedNode(fwd, bwd, head, s, x, k);
    }
    assert NoRepeat(r) && head !in r;
    hide LinkOk, Ring, NoRepeat;
    RingFromLinks(fwd', bwd', head, r);
  }

  lemma AppendedNode(fwd: seq<nat>, bwd: seq<nat>, head: nat, s: seq<nat>, x: nat, k: int)
    requires Ring(fwd, bwd, head, s) && x < |fwd| == |bwd| && x != head && x !in s && -1 <= k <= |s|
    requires head < |fwd| && bwd[head] < |fwd|
    ensures LinkOk(fwd[bwd[head] := x][x := head], bwd[x := bwd[head]][head := x], head, s + [x], k)
  {
    hide Ring, Node;
    LinksAt(fwd, bwd, head, s, -1);
    NodeEnds(head, s);
    AppendNodes(head, s, x, k);
    AppendNodes(head, s, x, k+1);
    AppendNodes(head, s, x, if k == -1 then |s| else k-1);
    if k < |s| {
      LinksAt(fwd, bwd, head, s, k);
      NodesDiffer(fwd, bwd, head, s, k, |s|-1);
      NodesDiffer(fwd, bwd, head, s, k, -1);
    }
  }

  lemma AppendNodes(head: nat, s: seq<nat>, x: nat, k: int)
    requires x != head && x !in s && -1 <= k <= |s| + 1
    ensures Node(head, s + [x], k) == if k < |s| then Node(head, s, k) else if k == |s| then x else head
    ensures Node(head, s, k) != x
  {
  }

  lemma PushNodes(head: nat, s: seq<nat>, x: nat, k: int)
    requires x != head && x !in s && -1 <= k <= |s| + 1
    ensures Node(head, [x] + s, k) == if k == -1 then head else if k == 0 then x else Node(head, s, k-1)
    ensures Node(head, s, k) != x
  {
  }

  /** In after the head: at the front. */
  lemma Pushed(fwd: seq<nat>, bwd: seq<nat>, head: nat, s: seq<nat>, x: nat)
    requires Ring(fwd, bwd, head, s) && x < |fwd| && x != head && x !in s
    ensures fwd[head] < |bwd|
    ensures var first := fwd[head];
            Ring(fwd[x := first][head := x], bwd[x := head][first := x], head, [x] + s)
  {
    var first, r := fwd[head], [x] + s;
    RingShape(fwd, bwd, head, s);
    var fwd', bwd' := fwd[x := first][head := x], bwd[x := head][first := x];
    forall k {:trigger LinkOk(fwd', bwd', head, r, k)} | -1 <= k < |r| ensures LinkOk(fwd', bwd', head, r, k) {
      PushedNode(fwd, bwd, head, s, x, k);
    }
    assert NoRepeat(r) && head !in r;
    hide LinkOk, Ring, NoRepeat;
    RingFromLinks(fwd', bwd', head, r);
  }

  lemma PushedNode(fwd: seq<nat>, bwd: seq<nat>, head: nat, s: seq<nat>, x: nat, k: int)
    requires Ring(fwd, bwd, head, s) && x < |fwd| == |bwd| && x != head && x !in s && -1 <= k <= |s|
    requires head < |fwd| && fwd[head] < |fwd|
    ensures LinkOk(fwd[x := fwd[head]][head := x], bwd[x := head][fwd[head] := x], head, [x] + s, k)
  {
    hide Ring, Node;
    LinksAt(fwd, bwd, head, s, -1);
    NodeEnds(head, s);
    PushNodes(head, s, x, k);
    PushNodes(head, s, x, k+1);
    PushNodes(head, s, x, if k == -1 then |s| else k-1);
    if 0 < k {
      LinksAt(fwd, bwd, head, s, k-1);
      NodesDiffer(fwd, bwd, head, s, k-1, 0);
      NodesDiffer(fwd, bwd, head, s, k-1, -1);
    } else if s != [] {
      NodesDiffer(fwd, bwd, head, s, 0, -1);
    }
  }

  /** A ring is untouched by links of other nodes. */
  lemma RingFrame(fwd: seq<nat>, bwd: seq<nat>, fwd': seq<nat>, bwd': seq<nat>, head: nat, s: seq<nat>)
    requires Ring(fwd, bwd, head, s) && |fwd'| == |bwd'| == |fwd|
    requires fwd'[head] == fwd[head] && bwd'[head] == bwd[head]
    requires forall x :: x in s ==> fwd'[x] == fwd[x] && bwd'[x] == bwd[x]
    ensures Ring(fwd', bwd', head, s)
  {
    forall i | 0 <= i < |s| ensures fwd'[s[i]] == Node(head, s, i+1) && bwd'[s[i]] == Node(head, s, i-1) {
      assert s[i] in s;
    }
  }
}
