/** The character lists of the terminals: queues of bytes in linked blocks of
    eight, two for the link, cut from one pool. */
module Clists {
  import opened Common

  /** A block is at eight times its number, its bytes from there plus two; number 0
      is no block. */
  const SIZE := 8
  const INFO := 6

  function InfoOf(b: nat): nat { b * SIZE + 2 }

  /** Links run from `first` through the list and end. */
  ghost predicate Chain(next: seq<nat>, first: nat, list: seq<nat>) {
    && (forall i :: 0 <= i < |list| ==> 0 < list[i] < |next|)
    && first == (if list == [] then 0 else list[0])
    && (forall i :: 0 <= i < |list| - 1 ==> next[list[i]] == list[i+1])
    && (list != [] ==> next[list[|list|-1]] == 0)
  }

  /** The address of byte `x` of a queue's blocks. */
  function Address(blocks: seq<nat>, x: nat): nat
    requires x / INFO < |blocks|
  {
    InfoOf(blocks[x / INFO]) + x % INFO
  }

  /** A queue's head: count, first byte and the place after the last. */
  datatype Clist = Clist(cc: int, cf: nat, cl: nat)

  /** The queue holds `text`, from byte `at` of its blocks on. */
  ghost predicate Queue(q: Clist, mem: seq<Byte>, next: seq<nat>, blocks: seq<nat>, at: nat, text: seq<Byte>) {
    && q.cc == |text| && |mem| == |next| * SIZE
    && NoRepeat(blocks)
    && if text == [] then blocks == [] && q.cf == 0 && q.cl == 0
       else
         && at < INFO && (|blocks| - 1) * INFO < at + |text| <= |blocks| * INFO
         && Chain(next, blocks[0], blocks)
         && q.cf == Address(blocks, at)
         && q.cl == Address(blocks, at + |text| - 1) + 1
         && forall x {:trigger text[x]} :: 0 <= x < |text| ==> mem[Address(blocks, at + x)] == text[x]
  }

  /** Neither links nor bytes of the queue's blocks are touched. */
  lemma QueueFrame(q: Clist, mem: seq<Byte>, next: seq<nat>, mem': seq<Byte>, next': seq<nat>, blocks: seq<nat>,
                   at: nat, text: seq<Byte>)
    requires Queue(q, mem, next, blocks, at, text) && |mem'| == |mem| && |next'| == |next|
    requires forall b :: b in blocks && b < |next| ==> next'[b] == next[b]
    requires forall a :: 0 <= a < |mem| && a / SIZE in blocks ==> mem'[a] == mem[a]
    ensures Queue(q, mem', next', blocks, at, text)
  {
    if text != [] {
      forall i | 0 <= i < |blocks| ensures blocks[i] in blocks && next'[blocks[i]] == next[blocks[i]] {}
      forall x {:trigger text[x]} | 0 <= x < |text| ensures mem'[Address(blocks, at + x)] == text[x] {
        assert Address(blocks, at + x) / SIZE == blocks[(at + x) / INFO];
        assert blocks[(at + x) / INFO] in blocks;
      }
    }
  }

  // ----- taking from the front

  lemma TakenFirst(q: Clist, mem: seq<Byte>, next: seq<nat>, blocks: seq<nat>, at: nat, text: seq<Byte>)
    requires Queue(q, mem, next, blocks, at, text) && text != []
    ensures q.cf < |mem| && mem[q.cf] == text[0] && q.cf / SIZE == blocks[0] < |next|
    ensures (q.cf + 1) % SIZE == 0 <==> at + 1 == INFO
    ensures |text| == 1 ==> |blocks| == 1
    ensures |text| > 1 && at + 1 == INFO ==> |blocks| > 1 && next[blocks[0]] == blocks[1]
  {
    assert mem[Address(blocks, at + 0)] == text[0];
  }

  lemma Shorter(q: Clist, mem: seq<Byte>, next: seq<nat>, blocks: seq<nat>, at: nat, text: seq<Byte>)
    requires Queue(q, mem, next, blocks, at, text) && |text| > 1 && at + 1 < INFO
    ensures Queue(Clist(q.cc - 1, q.cf + 1, q.cl), mem, next, blocks, at + 1, text[1..])
  {
    var t := text[1..];
    forall x {:trigger t[x]} | 0 <= x < |t| ensures mem[Address(blocks, at + 1 + x)] == t[x] {
      assert t[x] == text[x+1];
    }
  }

  lemma NextBlock(q: Clist, mem: seq<Byte>, next: seq<nat>, blocks: seq<nat>, at: nat, text: seq<Byte>)
    requires Queue(q, mem, next, blocks, at, text) && |text| > 1 && at + 1 == INFO
    ensures |blocks| > 1 && Queue(Clist(q.cc - 1, InfoOf(blocks[1]), q.cl), mem, next, blocks[1..], 0, text[1..])
  {
    var t, r := text[1..], blocks[1..];
    forall x {:trigger t[x]} | 0 <= x < |t| ensures mem[Address(r, x)] == t[x] {
      assert t[x] == text[x+1] && Address(r, x) == Address(blocks, at + (x + 1));
    }
    assert Address(r, |t| - 1) == Address(blocks, at + |text| - 1);
  }

  // ----- putting at the end

  lemma PutFirst(mem: seq<Byte>, next: seq<nat>, b: nat, c: Byte)
    requires 0 < b < |next| && |mem| == |next| * SIZE
    ensures InfoOf(b) < |mem|
    ensures Queue(Clist(1, InfoOf(b), InfoOf(b) + 1), mem[InfoOf(b) := c], next[b := 0], [b], 0, [c])
  {
  }

  lemma PutSame(q: Clist, mem: seq<Byte>, next: seq<nat>, blocks: seq<nat>, at: nat, text: seq<Byte>, c: Byte)
    requires Queue(q, mem, next, blocks, at, text) && text != [] && q.cl % SIZE != 0
    ensures q.cl < |mem| && q.cl / SIZE == blocks[|blocks|-1]
    ensures Queue(Clist(q.cc + 1, q.cf, q.cl + 1), mem[q.cl := c], next, blocks, at, text + [c])
  {
    var t, n := text + [c], |text|;
    assert q.cl == Address(blocks, at + n);
    forall x {:trigger t[x]} | 0 <= x < n ensures mem[q.cl := c][Address(blocks, at + x)] == t[x] {
      assert t[x] == text[x];
      OtherPlaces(blocks, at + x, at + n);
    }
  }

  /** Different places of a queue have different addresses. */
  lemma OtherPlaces(blocks: seq<nat>, x: nat, y: nat)
    requires NoRepeat(blocks) && x < y && y / INFO < |blocks|
    ensures x / INFO < |blocks| && Address(blocks, x) != Address(blocks, y)
  {
    assert Address(blocks, x) / SIZE == blocks[x / INFO] && Address(blocks, y) / SIZE == blocks[y / INFO];
  }

  lemma PutNext(q: Clist, mem: seq<Byte>, next: seq<nat>, blocks: seq<nat>, at: nat, text: seq<Byte>, b: nat, c: Byte)
    requires Queue(q, mem, next, blocks, at, text) && text != [] && q.cl % SIZE == 0
    requires 0 < b < |next| && b !in blocks
    ensures q.cl >= SIZE && (q.cl - SIZE) / SIZE == blocks[|blocks|-1] < |next| && InfoOf(b) < |mem|
    ensures Queue(Clist(q.cc + 1, q.cf, InfoOf(b) + 1), mem[InfoOf(b) := c], next[blocks[|blocks|-1] := b][b := 0],
                  blocks + [b], at, text + [c])
  {
    var t, n, r := text + [c], |text|, blocks + [b];
    assert at + n == |blocks| * INFO;
    assert InfoOf(b) == Address(r, at + n);
    LongerChain(next, blocks, b);
    hide NoRepeat, Chain;
    forall x {:trigger t[x]} | 0 <= x < n ensures mem[InfoOf(b) := c][Address(r, at + x)] == t[x] {
      assert t[x] == text[x] && Address(r, at + x) == Address(blocks, at + x);
      OtherPlaces(r, at + x, at + n);
    }
  }

  lemma LongerChain(next: seq<nat>, blocks: seq<nat>, b: nat)
    requires blocks != [] && Chain(next, blocks[0], blocks) && NoRepeat(blocks) && 0 < b < |next| && b !in blocks
    ensures Chain(next[blocks[|blocks|-1] := b][b := 0], blocks[0], blocks + [b]) && NoRepeat(blocks + [b])
  {
    var r, next' := blocks + [b], next[blocks[|blocks|-1] := b][b := 0];
    forall i | 0 <= i < |r| - 1 ensures next'[r[i]] == r[i+1] {
      assert blocks[i] in blocks;
    }
  }

  // ----- the free list

  lemma ChainPop(next: seq<nat>, list: seq<nat>, value: nat)
    requires list != [] && Chain(next, list[0], list) && NoRepeat(list)
    ensures Chain(next[list[0] := value], next[list[0]], list[1..]) && NoRepeat(list[1..]) && list[0] !in list[1..]
  {
    var r := list[1..];
    forall i | 0 <= i < |r| ensures next[list[0] := value][r[i]] == next[r[i]] {
      assert r[i] == list[i+1];
    }
  }

  lemma ChainPush(next: seq<nat>, first: nat, list: seq<nat>, b: nat)
    requires Chain(next, first, list) && 0 < b < |next| && b !in list && NoRepeat(list)
    ensures Chain(next[b := first], b, [b] + list) && NoRepeat([b] + list)
  {
    var r := [b] + list;
    forall i | 0 <= i < |list| ensures next[b := first][list[i]] == next[list[i]] {
      assert list[i] in list;
    }
    forall i | 0 <= i < |r| - 1 ensures next[b := first][r[i]] == r[i+1] {
      if i > 0 { assert next[list[i-1]] == list[i]; }
    }
  }

  lemma ChainFrame(next: seq<nat>, next': seq<nat>, first: nat, list: seq<nat>)
    requires Chain(next, first, list) && |next'| == |next|
    requires forall b :: b in list && b < |next| ==> next'[b] == next[b]
    ensures Chain(next', first, list)
  {
    forall i | 0 <= i < |list| ensures next'[list[i]] == next[list[i]] { assert list[i] in list; }
  }

  /** Who has each block: a queue, or -1 for the free list. */
  ghost predicate Owned(owner: seq<int>, list: seq<nat>, who: int) {
    forall b: nat :: 0 < b < |owner| ==> (b in list <==> owner[b] == who)
  }

  class Pool {
    const mem: array<Byte>
    const next: array<nat>
    const heads: array<Clist>
    var cfreelist: nat
    ghost var free: seq<nat>
    ghost var owner: seq<int>
    ghost var blocks: seq<seq<nat>>
    ghost var at: seq<nat>
    ghost var text: seq<seq<Byte>>

    ghost predicate Shape()
      reads this
    {
      && mem.Length == next.Length * SIZE && |owner| == next.Length
      && |blocks| == |at| == |text| == heads.Length
    }

    /** Every block is free or in one queue. */
    ghost predicate Valid()
      reads this, mem, next, heads
    {
      && Shape()
      && Chain(next[..], cfreelist, free) && NoRepeat(free) && Owned(owner, free, -1)
      && (forall b :: 0 < b < |owner| ==> -1 <= owner[b] < heads.Length)
      && forall k :: 0 <= k < heads.Length ==> QueueOk(k)
    }

    ghost predicate QueueOk(k: nat)
      requires k < heads.Length && Shape()
      reads this, mem, next, heads
    {
      Queue(heads[k], mem[..], next[..], blocks[k], at[k], text[k]) && Owned(owner, blocks[k], k)
    }

    /** `cinit`: all the blocks free. */
    constructor (nclist: nat, queues: nat)
      ensures Valid() && text == seq(queues, _ => []) && heads.Length == queues && |free| == nclist
      ensures fresh(mem) && fresh(next) && fresh(heads)
    {
      mem := new Byte[(nclist + 1) * SIZE](_ => 0);
      next := new nat[nclist + 1](_ => 0);
      heads := new Clist[queues](_ => Clist(0, 0, 0));
      cfreelist, free := 0, [];
      owner := seq(nclist + 1, _ => -2);
      blocks, at, text := seq(queues, _ => []), seq(queues, _ => 0), seq(queues, _ => []);
      new;
      FreeAll();
      owner := seq(nclist + 1, i => if i == 0 then -2 else -1);
      forall k | 0 <= k < heads.Length ensures QueueOk(k) {
        assert text[k] == [] && blocks[k] == [];
      }
    }

    /** Every block onto the free list, from the first. */
    method FreeAll()
      requires cfreelist == 0 && free == [] && next.Length > 0
      modifies next, `cfreelist, `free
      ensures Chain(next[..], cfreelist, free) && NoRepeat(free) && |free| == next.Length - 1
      ensures forall x: nat :: x in free <==> 0 < x < next.Length
    {
      var b := 1;
      while b < next.Length
        invariant 1 <= b <= next.Length
        invariant Chain(next[..], cfreelist, free) && NoRepeat(free) && |free| == b - 1
        invariant forall x: nat :: x in free <==> 0 < x < b
      {
        hide Chain, NoRepeat;
        ChainPush(next[..], cfreelist, free, b);
        ghost var links := next[..];
        next[b] := cfreelist;
        assert next[..] == links[b := cfreelist];
        cfreelist := b;
        free := [b] + free;
        b := b + 1;
      }
    }

    /** The queues that are not touched stay as they are. */
    twostate lemma OtherQueues(k: nat)
      requires old(Valid()) && Shape() && k < heads.Length && |owner| == |old(owner)|
      requires forall j :: 0 <= j < heads.Length && j != k ==>
                 blocks[j] == old(blocks[j]) && at[j] == old(at[j]) && text[j] == old(text[j])
                     && heads[j] == old(heads[j])
      requires forall b: nat :: 0 < b < next.Length && old(owner[b]) != k && old(owner[b]) != -1 ==>
                 next[b] == old(next[b]) && owner[b] == old(owner[b])
      requires forall b: nat :: 0 < b < next.Length && (old(owner[b]) == k || old(owner[b]) == -1) ==>
                 owner[b] == k || owner[b] == -1
      requires forall a: nat ::
                 a < mem.Length && 0 < a / SIZE && old(owner[a / SIZE]) != k && old(owner[a / SIZE]) != -1 ==>
                   mem[a] == old(mem[a])
      ensures forall j :: 0 <= j < heads.Length && j != k ==> QueueOk(j)
    {
      forall j | 0 <= j < heads.Length && j != k ensures QueueOk(j) {
        assert old(QueueOk(j));
        BlocksReal(old(heads[j]), old(mem[..]), old(next[..]), blocks[j], at[j], text[j]);
        hide Queue;
        assert forall b :: b in blocks[j] && b < next.Length ==> next[..][b] == old(next[..])[b];
        assert forall a :: 0 <= a < mem.Length && a / SIZE in blocks[j] ==> mem[..][a] == old(mem[..])[a];
        QueueFrame(old(heads[j]), old(mem[..]), old(next[..]), mem[..], next[..], blocks[j], at[j], text[j]);
      }
    }

    /** The first byte of a queue, or -1. */
    method Getc(k: nat) returns (c: int)
      requires Valid() && k < heads.Length
      modifies this, next, heads
      ensures Valid()
      ensures old(text)[k] == [] ==> c == -1 && text == old(text) && free == old(free)
      ensures old(text)[k] != [] ==> c == old(text)[k][0] && text == old(text)[k := old(text)[k][1..]]
    {
      assert QueueOk(k);
      hide Queue, Chain, NoRepeat, Owned;
      var q := heads[k];
      HeadIs(q, mem[..], next[..], blocks[k], at[k], text[k]);
      if q.cf == 0 {
        heads[k] := q.(cl := 0);
        assert q.(cl := 0) == q;
        SameQueue(k);
        return -1;
      }
      c := TakeByte(k);
    }

    /** The first byte of a queue that has one. */
    method TakeByte(k: nat) returns (c: int)
      requires Valid() && k < heads.Length && text[k] != []
      modifies this, next, heads
      ensures Valid() && c == old(text)[k][0] && text == old(text)[k := old(text)[k][1..]]
    {
      assert QueueOk(k);
      hide Queue, Chain, NoRepeat, Owned;
      var q := heads[k];
      HeadIs(q, mem[..], next[..], blocks[k], at[k], text[k]);
      TakenFirst(q, mem[..], next[..], blocks[k], at[k], text[k]);
      c := mem[q.cf];
      var b := q.cf / SIZE;
      if q.cc - 1 == 0 {
        LastByte(q, mem[..], next[..], blocks[k], at[k], text[k]);
        Release(k, Clist(0, 0, 0), b, 0);
      } else if (q.cf + 1) % SIZE == 0 {
        NextBlock(q, mem[..], next[..], blocks[k], at[k], text[k]);
        Release(k, Clist(q.cc - 1, InfoOf(next[b]), q.cl), b, 0);
      } else {
        Shorter(q, mem[..], next[..], blocks[k], at[k], text[k]);
        StepOn(k, Clist(q.cc - 1, q.cf + 1, q.cl));
      }
    }

    /** The head moves on within its block. */
    method StepOn(k: nat, q: Clist)
      requires Valid() && k < heads.Length && text[k] != []
      requires Queue(q, mem[..], next[..], blocks[k], at[k] + 1, text[k][1..])
      modifies this, heads
      ensures Valid() && text == old(text)[k := old(text)[k][1..]]
    {
      assert QueueOk(k);
      hide Queue, Chain, NoRepeat, Owned;
      heads[k] := q;
      at, text := at[k := at[k] + 1], text[k := text[k][1..]];
      OtherQueues(k);
    }

    twostate lemma SameQueue(k: nat)
      requires old(Valid()) && k < heads.Length && heads[k] == old(heads[k])
      requires Shape() && owner == old(owner) && blocks == old(blocks) && at == old(at) && text == old(text)
      requires next[..] == old(next[..]) && mem[..] == old(mem[..]) && cfreelist == old(cfreelist) && free == old(free)
      requires forall j :: 0 <= j < heads.Length ==> heads[j] == old(heads[j])
      ensures Valid()
    {
      forall j | 0 <= j < heads.Length ensures QueueOk(j) { assert old(QueueOk(j)); }
    }

    /** The first block of a queue goes back on the free list; what the head is then. */
    method Release(k: nat, q: Clist, b: nat, ghost at': nat)
      requires Valid() && k < heads.Length && blocks[k] != [] && b == blocks[k][0] && text[k] != []
      requires Queue(q, mem[..], next[..], blocks[k][1..], at', text[k][1..])
      modifies this, next, heads
      ensures Valid() && text == old(text)[k := old(text)[k][1..]] && free == [b] + old(free)
    {
      assert QueueOk(k);
      FirstBlock(heads[k], mem[..], next[..], blocks[k], at[k], text[k], owner, k, free);
      ghost var links, was := next[..], blocks[k];
      ChainPush(next[..], cfreelist, free, b);
      hide Queue, Chain, NoRepeat, Owned;
      heads[k] := q;
      next[b] := cfreelist;
      assert next[..] == links[b := cfreelist];
      cfreelist := b;
      OwnedPush(owner, free, was, b, k);
      free, owner := [b] + free, owner[b := -1];
      blocks, at, text := blocks[k := was[1..]], at[k := at'], text[k := text[k][1..]];
      QueueFrame(q, mem[..], links, mem[..], next[..], was[1..], at', text[k]);
      OtherQueues(k);
    }

    /** The count in a queue's head is its length. */
    lemma CountIs(k: nat)
      requires Valid() && k < heads.Length
      ensures |text| == heads.Length && heads[k].cc == |text[k]|
    {
      assert QueueOk(k);
    }

    /** The next byte of the queue would need a block, and there is none. */
    ghost predicate Full(k: nat)
      requires k < heads.Length
      reads this, heads
    {
      free == [] && (heads[k].cl == 0 || heads[k].cl % SIZE == 0)
    }

    /** A byte at the end of a queue; -1 when there is no block for it. */
    method Putc(c: Byte, k: nat) returns (r: int)
      requires Valid() && k < heads.Length
      modifies this, next, heads, mem
      ensures Valid()
      ensures r == if old(Full(k)) then -1 else 0
      ensures text == if r == 0 then old(text)[k := old(text)[k] + [c]] else old(text)
      ensures r == -1 ==> Full(k)
    {
      assert QueueOk(k);
      hide Queue, Chain, NoRepeat, Owned;
      var q := heads[k];
      HeadIs(q, mem[..], next[..], blocks[k], at[k], text[k]);
      FreeIs(next[..], cfreelist, free);
      if q.cl == 0 || q.cl % SIZE == 0 {
        if cfreelist == 0 {
          return -1;
        }
        if q.cl == 0 {
          StartQueue(c, k);
        } else {
          ExtendQueue(c, k);
        }
        return 0;
      }
      PutSame(q, mem[..], next[..], blocks[k], at[k], text[k], c);
      BlocksReal(q, mem[..], next[..], blocks[k], at[k], text[k]);
      OwnerOf(owner, blocks[k], k, blocks[k][|blocks[k]|-1]);
      ghost var bytes := mem[..];
      mem[q.cl] := c;
      assert mem[..] == bytes[q.cl := c];
      heads[k] := Clist(q.cc + 1, q.cf, q.cl + 1);
      text := text[k := text[k] + [c]];
      OtherQueues(k);
      return 0;
    }

    /** The first byte of an empty queue, in a block from the free list. */
    method StartQueue(c: Byte, k: nat)
      requires Valid() && k < heads.Length && free != [] && heads[k].cl == 0
      modifies this, next, heads, mem
      ensures Valid() && text == old(text)[k := old(text)[k] + [c]] && free == old(free)[1..]
    {
      assert QueueOk(k);
      hide Queue, Chain, NoRepeat, Owned;
      var q, b := heads[k], cfreelist;
      ghost var links, bytes := next[..], mem[..];
      FreeIs(links, b, free);
      HeadIs(q, bytes, links, blocks[k], at[k], text[k]);
      OwnerOf(owner, free, -1, b);
      ChainPop(links, free, 0);
      PutFirst(bytes, links, b, c);
      OwnedPop(owner, free, blocks[k], b, k);
      cfreelist := next[b];
      next[b] := 0;
      q := q.(cl := InfoOf(b), cf := InfoOf(b));
      mem[q.cl] := c;
      heads[k] := q.(cl := q.cl + 1, cc := q.cc + 1);
      assert next[..] == links[b := 0] && mem[..] == bytes[InfoOf(b) := c];
      free, owner := free[1..], owner[b := k];
      assert blocks[k] + [b] == [b] && text[k] + [c] == [c];
      blocks, at, text := blocks[k := [b]], at[k := 0], text[k := [c]];
      OtherQueues(k);
    }

    /** A byte in a further block from the free list. */
    method ExtendQueue(c: Byte, k: nat)
      requires Valid() && k < heads.Length && free != [] && heads[k].cl != 0 && heads[k].cl % SIZE == 0
      modifies this, next, heads, mem
      ensures Valid() && text == old(text)[k := old(text)[k] + [c]] && free == old(free)[1..]
    {
      assert QueueOk(k);
      hide Queue, Chain, NoRepeat, Owned;
      var q, b := heads[k], cfreelist;
      ghost var links, bytes, rest := next[..], mem[..], free[1..];
      FreeIs(links, b, free);
      HeadIs(q, bytes, links, blocks[k], at[k], text[k]);
      ghost var last := blocks[k][|blocks[k]|-1];
      Extending(q, bytes, links, blocks[k], at[k], text[k], owner, free, b, c, k);
      cfreelist := next[b];
      Link((q.cl - SIZE) / SIZE, b, c, k);
      free, owner := rest, owner[b := k];
      blocks, text := blocks[k := blocks[k] + [b]], text[k := text[k] + [c]];
      OtherQueues(k);
    }

    /** Block `b` goes on after the last of a queue, and the byte goes in it. */
    method Link(last: nat, b: nat, c: Byte, k: nat)
      requires last < next.Length && b < next.Length && mem.Length == next.Length * SIZE && k < heads.Length
      modifies next, heads, mem
      ensures next[..] == old(next[..])[last := b][b := 0] && mem[..] == old(mem[..])[InfoOf(b) := c]
      ensures heads[..] == old(heads[..])[k := Clist(old(heads[k]).cc + 1, old(heads[k]).cf, InfoOf(b) + 1)]
    {
      next[last] := b;
      next[b] := 0;
      heads[k] := heads[k].(cl := InfoOf(b));
      mem[heads[k].cl] := c;
      heads[k] := heads[k].(cl := heads[k].cl + 1, cc := heads[k].cc + 1);
    }
  }

  /** What becomes of a queue that takes on a block from the free list, and of that. */
  lemma Extending(q: Clist, mem: seq<Byte>, next: seq<nat>, blocks: seq<nat>, at: nat, text: seq<Byte>,
                  owner: seq<int>, free: seq<nat>, b: nat, c: Byte, k: nat)
    requires Queue(q, mem, next, blocks, at, text) && Owned(owner, blocks, k) && |owner| == |next|
    requires Chain(next, b, free) && NoRepeat(free) && Owned(owner, free, -1) && free != []
    requires q.cl != 0 && q.cl % SIZE == 0
    ensures blocks != [] && 0 < b < |next| && owner[b] == -1 && InfoOf(b) < |mem|
    ensures var last := blocks[|blocks|-1]; var next' := next[last := b][b := 0];
            && q.cl >= SIZE && (q.cl - SIZE) / SIZE == last && owner[last] == k
            && Queue(Clist(q.cc + 1, q.cf, InfoOf(b) + 1), mem[InfoOf(b) := c], next', blocks + [b], at, text + [c])
            && Chain(next', next[b], free[1..]) && NoRepeat(free[1..])
            && Owned(owner[b := k], free[1..], -1) && Owned(owner[b := k], blocks + [b], k)
  {
    FreeIs(next, b, free);
    HeadIs(q, mem, next, blocks, at, text);
    BlocksReal(q, mem, next, blocks, at, text);
    ChainPop(next, free, 0);
    hide Queue, Chain, NoRepeat, Owned;
    var last := blocks[|blocks|-1];
    OwnerOf(owner, free, -1, b);
    OwnedNotIn(owner, blocks, k, b);
    PutNext(q, mem, next, blocks, at, text, b, c);
    OwnerOf(owner, blocks, k, last);
    OwnedNotIn(owner, free, -1, last);
    OwnedPop(owner, free, blocks, b, k);
    var rest := free[1..];
    assert forall x :: x in rest ==> x in free;
    ChainFrame(next[b := 0], next[last := b][b := 0], next[b], rest);
  }

  lemma HeadIs(q: Clist, mem: seq<Byte>, next: seq<nat>, blocks: seq<nat>, at: nat, text: seq<Byte>)
    requires Queue(q, mem, next, blocks, at, text)
    ensures q.cf == 0 <==> text == []
    ensures q.cl == 0 <==> text == []
    ensures text == [] ==> q == Clist(0, 0, 0) && blocks == []
    ensures text != [] ==> blocks != [] && q.cc == |text|
  {
  }

  lemma LastByte(q: Clist, mem: seq<Byte>, next: seq<nat>, blocks: seq<nat>, at: nat, text: seq<Byte>)
    requires Queue(q, mem, next, blocks, at, text) && |text| == 1
    ensures |blocks| == 1 && Queue(Clist(0, 0, 0), mem, next, blocks[1..], 0, text[1..])
  {
  }

  lemma FirstBlock(q: Clist, mem: seq<Byte>, next: seq<nat>, blocks: seq<nat>, at: nat, text: seq<Byte>,
                   owner: seq<int>, k: nat, free: seq<nat>)
    requires Queue(q, mem, next, blocks, at, text) && text != [] && |owner| == |next|
    requires Owned(owner, blocks, k) && Owned(owner, free, -1)
    ensures blocks != [] && 0 < blocks[0] < |next| && blocks[0] !in blocks[1..] && blocks[0] !in free
    ensures owner[blocks[0]] == k
  {
    assert blocks[0] in blocks;
  }

  lemma FreeIs(next: seq<nat>, first: nat, free: seq<nat>)
    requires Chain(next, first, free)
    ensures first == 0 <==> free == []
    ensures free != [] ==> first == free[0] && 0 < first < |next|
  {
  }

  lemma OwnerOf(owner: seq<int>, list: seq<nat>, who: int, b: nat)
    requires Owned(owner, list, who) && b in list && 0 < b < |owner|
    ensures owner[b] == who
  {
  }

  lemma OwnedNotIn(owner: seq<int>, list: seq<nat>, who: int, b: nat)
    requires Owned(owner, list, who) && 0 < b < |owner| && owner[b] != who
    ensures b !in list
  {
  }

  lemma OwnedPush(owner: seq<int>, free: seq<nat>, blocks: seq<nat>, b: nat, k: nat)
    requires Owned(owner, free, -1) && Owned(owner, blocks, k) && blocks != [] && b == blocks[0] && b !in blocks[1..]
    requires 0 < b < |owner|
    ensures Owned(owner[b := -1], [b] + free, -1) && Owned(owner[b := -1], blocks[1..], k)
  {
    assert forall x :: x in blocks <==> x == b || x in blocks[1..];
  }

  lemma OwnedPop(owner: seq<int>, free: seq<nat>, blocks: seq<nat>, b: nat, k: nat)
    requires Owned(owner, free, -1) && Owned(owner, blocks, k) && free != [] && b == free[0] && b !in free[1..]
    requires 0 < b < |owner|
    ensures Owned(owner[b := k], free[1..], -1) && Owned(owner[b := k], blocks + [b], k)
  {
    assert forall x :: x in free <==> x == b || x in free[1..];
  }

  lemma BlocksReal(q: Clist, mem: seq<Byte>, next: seq<nat>, blocks: seq<nat>, at: nat, text: seq<Byte>)
    requires Queue(q, mem, next, blocks, at, text)
    ensures forall b :: b in blocks ==> 0 < b < |next|
  {
  }
}
