/** The resource maps of core and swap: a list of free runs in an array, first fit
    and coalescing in place. */
module Rmap {

  const UNITS := 0x1_0000

  /** `uint` arithmetic. */
  function Wrap(x: int): (w: int)
    ensures 0 <= w < UNITS
  {
    x % UNITS
  }

  /** An entry of the array; a run of free units when its size is not zero. */
  datatype Entry = Entry(size: int, addr: int)

  predicate Holds(e: Entry, u: int) { e.addr <= u < e.addr + e.size }

  ghost predicate IsFree(runs: seq<Entry>, u: int) {
    exists i :: 0 <= i < |runs| && Holds(runs[i], u)
  }

  /** Sorted, apart, never touching, none empty; unit 0 is never free, for 0 is
      how `malloc` fails. */
  ghost predicate Canonical(runs: seq<Entry>) {
    && (forall i :: 0 <= i < |runs| ==> 0 < runs[i].addr && 0 < runs[i].size && runs[i].addr + runs[i].size <= UNITS)
    && (forall i, j :: 0 <= i < j < |runs| ==> runs[i].addr + runs[i].size < runs[j].addr)
  }

  // ----- the form is canonical

  lemma SameFirst(a: seq<Entry>, b: seq<Entry>)
    requires Canonical(a) && Canonical(b) && a != [] && (forall u :: IsFree(a, u) <==> IsFree(b, u))
    ensures b != [] && a[0].addr >= b[0].addr && (a[0].addr == b[0].addr ==> a[0].size <= b[0].size)
  {
    var u := a[0].addr;
    assert Holds(a[0], u);
    assert IsFree(a, u);
    assert IsFree(b, u);
    EndNotFree(b);
    var v := b[0].addr + b[0].size;
    assert Holds(a[0], v) ==> IsFree(a, v);
  }

  lemma EndNotFree(b: seq<Entry>)
    requires Canonical(b) && b != []
    ensures !IsFree(b, b[0].addr + b[0].size)
  {
  }

  lemma TailFree(a: seq<Entry>, u: int)
    requires Canonical(a) && a != []
    ensures IsFree(a[1..], u) <==> IsFree(a, u) && !Holds(a[0], u)
  {
    if IsFree(a[1..], u) {
      var i :| 0 <= i < |a| - 1 && Holds(a[1..][i], u);
      assert Holds(a[i+1], u);
    }
    if IsFree(a, u) && !Holds(a[0], u) {
      var i :| 0 <= i < |a| && Holds(a[i], u);
      assert Holds(a[1..][i-1], u);
    }
  }

  /** Two maps with the same units free are the same list. */
  lemma {:induction false} SameUnitsSameList(a: seq<Entry>, b: seq<Entry>)
    requires Canonical(a) && Canonical(b) && (forall u :: IsFree(a, u) <==> IsFree(b, u))
    ensures a == b
    decreases |a|
  {
    if a != [] {
      SameFirst(a, b);
      SameFirst(b, a);
      assert a[0] == b[0];
      forall u ensures IsFree(a[1..], u) <==> IsFree(b[1..], u) {
        TailFree(a, u);
        TailFree(b, u);
      }
      SameUnitsSameList(a[1..], b[1..]);
    } else if b != [] {
      SameFirst(b, a);
    }
  }

  // ----- what the two routines do, on the list

  /** The first run from `i` on with room for `size`. */
  function FirstFit(runs: seq<Entry>, size: int, i: nat): (k: nat)
    requires i <= |runs|
    ensures i <= k <= |runs| && (forall j :: i <= j < k ==> runs[j].size < size)
    ensures (k < |runs| ==> runs[k].size >= size)
    decreases |runs| - i
  {
    if i == |runs| || runs[i].size >= size then i else FirstFit(runs, size, i+1)
  }

  /** The list with `size` units taken off the front of run `k`. */
  function Taken(runs: seq<Entry>, k: nat, size: int): seq<Entry>
    requires k < |runs|
  {
    if runs[k].size == size then runs[..k] + runs[k+1..]
    else runs[k := Entry(runs[k].size - size, runs[k].addr + size)]
  }

  lemma FreeConcat(a: seq<Entry>, b: seq<Entry>, u: int)
    ensures IsFree(a + b, u) <==> IsFree(a, u) || IsFree(b, u)
  {
    hide Holds;
    if IsFree(a + b, u) {
      var i :| 0 <= i < |a + b| && Holds((a + b)[i], u);
      assert if i < |a| then Holds(a[i], u) else Holds(b[i - |a|], u);
    }
    if IsFree(a, u) {
      var i :| 0 <= i < |a| && Holds(a[i], u);
      assert Holds((a + b)[i], u);
    }
    if IsFree(b, u) {
      var i :| 0 <= i < |b| && Holds(b[i], u);
      assert Holds((a + b)[|a| + i], u);
    }
  }

  lemma FreeOne(e: Entry, u: int)
    ensures IsFree([e], u) <==> Holds(e, u)
  {
    if Holds(e, u) { assert Holds([e][0], u); }
  }

  /** What lies before place `i`, from `i` to `j`, and from `j` on. */
  lemma FreeParts(runs: seq<Entry>, i: nat, j: nat, u: int)
    requires i <= j <= |runs|
    ensures IsFree(runs, u) <==> IsFree(runs[..i], u) || IsFree(runs[i..j], u) || IsFree(runs[j..], u)
  {
    hide IsFree;
    assert runs == runs[..i] + (runs[i..j] + runs[j..]);
    FreeConcat(runs[..i], runs[i..j] + runs[j..], u);
    FreeConcat(runs[i..j], runs[j..], u);
  }

  /** Runs `i` to `j` replaced. */
  function Spliced(runs: seq<Entry>, i: nat, j: nat, mid: seq<Entry>): seq<Entry>
    requires i <= j <= |runs|
  {
    runs[..i] + mid + runs[j..]
  }

  lemma SplicedFree(runs: seq<Entry>, i: nat, j: nat, mid: seq<Entry>, u: int)
    requires i <= j <= |runs|
    ensures IsFree(Spliced(runs, i, j, mid), u) <==> IsFree(runs[..i], u) || IsFree(mid, u) || IsFree(runs[j..], u)
  {
    hide IsFree;
    FreeConcat(runs[..i] + mid, runs[j..], u);
    FreeConcat(runs[..i], mid, u);
  }

  predicate Good(e: Entry) { 0 < e.addr && 0 < e.size && e.addr + e.size <= UNITS }

  lemma SplicedCanonical(runs: seq<Entry>, i: nat, j: nat, e: Entry)
    requires Canonical(runs) && i <= j <= |runs| && Good(e)
    requires i > 0 ==> runs[i-1].addr + runs[i-1].size < e.addr
    requires j < |runs| ==> e.addr + e.size < runs[j].addr
    ensures Canonical(Spliced(runs, i, j, [e]))
  {
    var s := Spliced(runs, i, j, [e]);
    forall x | 0 <= x < |s| ensures Good(s[x]) {
      if x != i { assert s[x] == runs[if x < i then x else x - i - 1 + j]; }
    }
    forall x, y | 0 <= x < y < |s| ensures s[x].addr + s[x].size < s[y].addr {
      var x', y' := if x < i then x else x - i - 1 + j, if y < i then y else y - i - 1 + j;
      assert x != i ==> s[x] == runs[x'];
      assert y != i ==> s[y] == runs[y'];
    }
  }

  lemma SplicedAway(runs: seq<Entry>, k: nat)
    requires Canonical(runs) && k < |runs|
    ensures Canonical(Spliced(runs, k, k+1, []))
  {
    var s := Spliced(runs, k, k+1, []);
    assert forall x :: 0 <= x < |s| ==> s[x] == runs[if x < k then x else x + 1];
  }

  /** Only run `k` holds units within it. */
  lemma OnlyHere(runs: seq<Entry>, i: nat, j: nat, u: int)
    requires Canonical(runs) && i <= j <= |runs|
    requires i < j ==> runs[i].addr <= u < runs[j-1].addr + runs[j-1].size
    requires i < j
    ensures !IsFree(runs[..i], u) && !IsFree(runs[j..], u)
  {
  }

  lemma TakenIs(runs: seq<Entry>, k: nat, size: int)
    requires Canonical(runs) && k < |runs| && 0 <= size <= runs[k].size
    ensures Canonical(Taken(runs, k, size))
    ensures forall u ::
              IsFree(Taken(runs, k, size), u) <==> IsFree(runs, u) && !(runs[k].addr <= u < runs[k].addr + size)
  {
    TakenCanonical(runs, k, size);
    forall u
      ensures IsFree(Taken(runs, k, size), u) <==> IsFree(runs, u) && !(runs[k].addr <= u < runs[k].addr + size)
    {
      TakenAt(runs, k, size, u);
    }
  }

  /** What is left of run `k`. */
  function Rest(e: Entry, size: int): seq<Entry> {
    if e.size == size then [] else [Entry(e.size - size, e.addr + size)]
  }

  lemma TakenSplices(runs: seq<Entry>, k: nat, size: int)
    requires k < |runs|
    ensures Taken(runs, k, size) == Spliced(runs, k, k+1, Rest(runs[k], size))
  {
  }

  lemma TakenCanonical(runs: seq<Entry>, k: nat, size: int)
    requires Canonical(runs) && k < |runs| && 0 <= size <= runs[k].size
    ensures Canonical(Taken(runs, k, size))
  {
    TakenSplices(runs, k, size);
    hide Taken, Spliced;
    if runs[k].size == size { SplicedAway(runs, k); }
    else { SplicedCanonical(runs, k, k+1, Entry(runs[k].size - size, runs[k].addr + size)); }
  }

  lemma TakenAt(runs: seq<Entry>, k: nat, size: int, u: int)
    requires Canonical(runs) && k < |runs| && 0 <= size <= runs[k].size
    ensures IsFree(Taken(runs, k, size), u) <==> IsFree(runs, u) && !(runs[k].addr <= u < runs[k].addr + size)
  {
    if Holds(runs[k], u) { OnlyHere(runs, k, k+1, u); }
    assert runs[k..k+1] == [runs[k]];
    hide IsFree, Canonical, Taken, Spliced;
    TakenSplices(runs, k, size);
    SplicedFree(runs, k, k+1, Rest(runs[k], size), u);
    FreeParts(runs, k, k+1, u);
    FreeOne(runs[k], u);
    if runs[k].size == size { NothingFree(u); }
    else { FreeOne(Entry(runs[k].size - size, runs[k].addr + size), u); }
  }

  lemma NothingFree(u: int)
    ensures !IsFree([], u)
  {
  }

  /** The first run that starts after `a`. */
  function After(runs: seq<Entry>, a: int, i: nat): (k: nat)
    requires i <= |runs|
    ensures i <= k <= |runs| && (forall j :: i <= j < k ==> runs[j].addr <= a) && (k < |runs| ==> runs[k].addr > a)
    decreases |runs| - i
  {
    if i == |runs| || runs[i].addr > a then i else After(runs, a, i+1)
  }

  predicate Meets(e: Entry, a: int) { e.addr + e.size == a }

  /** The list with a run put in its place, joined to those it touches. */
  function Given(runs: seq<Entry>, a: int, size: int): seq<Entry> {
    var k := After(runs, a, 0);
    if k > 0 && Meets(runs[k-1], a) then
      if k < |runs| && a + size == runs[k].addr
      then runs[..k-1] + [Entry(runs[k-1].size + size + runs[k].size, runs[k-1].addr)] + runs[k+1..]
      else runs[k-1 := Entry(runs[k-1].size + size, runs[k-1].addr)]
    else if k < |runs| && a + size == runs[k].addr
    then runs[k := Entry(runs[k].size + size, runs[k].addr - size)]
    else if size == 0 then runs
    else runs[..k] + [Entry(size, a)] + runs[k..]
  }

  /** None of the units is free. */
  ghost predicate InUse(runs: seq<Entry>, a: int, size: int) {
    forall u :: a <= u < a + size ==> !IsFree(runs, u)
  }

  lemma Neighbours(runs: seq<Entry>, a: int, size: int)
    requires Canonical(runs) && 0 < a && 0 < size && InUse(runs, a, size)
    ensures var k := After(runs, a, 0);
            && (k > 0 ==> runs[k-1].addr + runs[k-1].size <= a)
            && (k < |runs| ==> a + size <= runs[k].addr)
  {
    var k := After(runs, a, 0);
    assert !IsFree(runs, a);
    assert k > 0 ==> !Holds(runs[k-1], a);
    if k < |runs| {
      assert Holds(runs[k], runs[k].addr);
      assert IsFree(runs, runs[k].addr);
    }
  }

  /** Whether the run before the place `k`, and the one at it, is joined on. */
  predicate Left(runs: seq<Entry>, a: int, k: nat)
    requires k <= |runs|
  {
    k > 0 && Meets(runs[k-1], a)
  }

  predicate Right(runs: seq<Entry>, a: int, size: int, k: nat)
    requires k <= |runs|
  {
    k < |runs| && a + size == runs[k].addr
  }

  /** The run that results. */
  function Joined(runs: seq<Entry>, a: int, size: int, k: nat): Entry
    requires k <= |runs|
  {
    var lo := if Left(runs, a, k) then runs[k-1].addr else a;
    var hi := if Right(runs, a, size, k) then runs[k].addr + runs[k].size else a + size;
    Entry(hi - lo, lo)
  }

  lemma GivenSplices(runs: seq<Entry>, a: int, size: int)
    requires size != 0
    ensures var k := After(runs, a, 0);
            Given(runs, a, size) ==
            Spliced(runs, if Left(runs, a, k) then k-1 else k, if Right(runs, a, size, k) then k+1 else k,
                    [Joined(runs, a, size, k)])
  {
    hide After;
    var k := After(runs, a, 0);
    if Left(runs, a, k) {
      if !Right(runs, a, size, k) {
        var e := Joined(runs, a, size, k);
        assert runs[k-1 := e] == Spliced(runs, k-1, k, [e]);
      }
    } else if Right(runs, a, size, k) {
      assert runs[k := Joined(runs, a, size, k)] == Spliced(runs, k, k+1, [Joined(runs, a, size, k)]);
    }
  }

  lemma JoinedFits(runs: seq<Entry>, a: int, size: int)
    requires Canonical(runs) && 0 < a && 0 < size && a + size <= UNITS && InUse(runs, a, size)
    ensures var k := After(runs, a, 0); var e := Joined(runs, a, size, k);
            var i, j := if Left(runs, a, k) then k-1 else k, if Right(runs, a, size, k) then k+1 else k;
            && Good(e)
            && (i > 0 ==> runs[i-1].addr + runs[i-1].size < e.addr)
            && (j < |runs| ==> e.addr + e.size < runs[j].addr)
  {
    Neighbours(runs, a, size);
    hide After, InUse;
  }

  lemma JoinedHolds(runs: seq<Entry>, a: int, size: int, k: nat, u: int)
    requires k <= |runs| && 0 <= size
    requires k > 0 ==> runs[k-1].addr + runs[k-1].size <= a && 0 <= runs[k-1].size
    requires k < |runs| ==> a + size <= runs[k].addr && 0 <= runs[k].size
    ensures var i, j := if Left(runs, a, k) then k-1 else k, if Right(runs, a, size, k) then k+1 else k;
            IsFree(runs[i..j], u) || a <= u < a + size <==> Holds(Joined(runs, a, size, k), u)
  {
    Between(runs, if Left(runs, a, k) then k-1 else k, k, if Right(runs, a, size, k) then k+1 else k, u);
    hide IsFree;
  }

  lemma Between(runs: seq<Entry>, i: nat, k: nat, j: nat, u: int)
    requires i <= k <= j <= |runs| && k <= i + 1 && j <= k + 1
    ensures IsFree(runs[i..j], u) <==> (i < k && Holds(runs[i], u)) || (k < j && Holds(runs[k], u))
  {
    var s := runs[i..j];
    if i < k && Holds(runs[i], u) { assert Holds(s[0], u); }
    if k < j && Holds(runs[k], u) { assert Holds(s[k-i], u); }
  }

  lemma GivenIs(runs: seq<Entry>, a: int, size: int)
    requires Canonical(runs) && 0 < a && 0 < size && a + size <= UNITS && InUse(runs, a, size)
    ensures Canonical(Given(runs, a, size))
    ensures forall u :: IsFree(Given(runs, a, size), u) <==> IsFree(runs, u) || a <= u < a + size
  {
    JoinedFits(runs, a, size);
    Neighbours(runs, a, size);
    GivenSplices(runs, a, size);
    var k := After(runs, a, 0);
    var e := Joined(runs, a, size, k);
    var i, j := if Left(runs, a, k) then k-1 else k, if Right(runs, a, size, k) then k+1 else k;
    assert forall x :: 0 <= x < |runs| ==> 0 <= runs[x].size;
    hide Canonical, IsFree, InUse, Given, Spliced, Joined, Left, Right, After;
    SplicedCanonical(runs, i, j, e);
    forall u ensures IsFree(Given(runs, a, size), u) <==> IsFree(runs, u) || a <= u < a + size {
      JoinedHolds(runs, a, size, k, u);
      SplicedFree(runs, i, j, [e], u);
      FreeParts(runs, i, j, u);
      FreeOne(e, u);
    }
  }

  // ----- laws

  /** What was just allocated, given back, leaves the very list there was. */
  lemma TakeGive(runs: seq<Entry>, k: nat, size: int)
    requires Canonical(runs) && k < |runs| && 0 < size <= runs[k].size
    ensures Given(Taken(runs, k, size), runs[k].addr, size) == runs
  {
    var t, a := Taken(runs, k, size), runs[k].addr;
    TakenIs(runs, k, size);
    GivenIs(t, a, size);
    forall u ensures IsFree(Given(t, a, size), u) <==> IsFree(runs, u) {
      if a <= u < a + size { assert Holds(runs[k], u); }
    }
    SameUnitsSameList(Given(t, a, size), runs);
  }

  /** The order in which things are given back does not matter. */
  lemma GiveInAnyOrder(runs: seq<Entry>, a: int, m: int, b: int, n: int)
    requires Canonical(runs) && 0 < a && 0 < m && a + m <= UNITS && 0 < b && 0 < n && b + n <= UNITS
    requires InUse(runs, a, m) && InUse(runs, b, n) && (a + m <= b || b + n <= a)
    ensures Given(Given(runs, a, m), b, n) == Given(Given(runs, b, n), a, m)
  {
    GivenIs(runs, a, m);
    GivenIs(runs, b, n);
    GivenIs(Given(runs, a, m), b, n);
    GivenIs(Given(runs, b, n), a, m);
    SameUnitsSameList(Given(Given(runs, a, m), b, n), Given(Given(runs, b, n), a, m));
  }

  // ----- the array

  /** The runs, and nothing but zero sizes after them. */
  ghost predicate Rep(m: seq<Entry>, runs: seq<Entry>) {
    && |runs| < |m|
    && (forall i :: 0 <= i < |runs| ==> m[i] == runs[i] && m[i].size != 0)
    && (forall i :: |runs| <= i < |m| ==> m[i].size == 0)
  }

  lemma Bounds(runs: seq<Entry>, k: nat)
    requires Canonical(runs) && k < |runs|
    ensures Good(runs[k])
  {
  }

  lemma GivenNothing(runs: seq<Entry>, a: int)
    ensures Given(runs, a, 0) == runs
  {
    var k := After(runs, a, 0);
    if k > 0 { assert runs[k-1 := Entry(runs[k-1].size, runs[k-1].addr)] == runs; }
  }

  lemma GivenRight(runs: seq<Entry>, a: int, size: int)
    requires var k := After(runs, a, 0); !(k > 0 && Meets(runs[k-1], a)) && k < |runs| && a + size == runs[k].addr
    ensures var k := After(runs, a, 0);
            Given(runs, a, size) == runs[k := Entry(runs[k].size + size, runs[k].addr - size)]
  {
  }

  lemma GivenNew(runs: seq<Entry>, a: int, size: int)
    requires var k := After(runs, a, 0); !(k > 0 && Meets(runs[k-1], a)) && !(k < |runs| && a + size == runs[k].addr)
    requires size != 0
    ensures var k, g := After(runs, a, 0), Given(runs, a, size);
            && |g| == |runs| + 1 && g[k] == Entry(size, a)
            && (forall i :: 0 <= i < k ==> g[i] == runs[i]) && (forall i :: k < i < |g| ==> g[i] == runs[i-1])
  {
    GivenSplices(runs, a, size);
    hide After, Given;
  }

  lemma GivenLeft(runs: seq<Entry>, a: int, size: int)
    requires var k := After(runs, a, 0); k > 0 && Meets(runs[k-1], a)
    ensures var k, g := After(runs, a, 0), Given(runs, a, size);
            if k < |runs| && a + size == runs[k].addr
            then && |g| == |runs| - 1 && g[k-1] == Entry(runs[k-1].size + size + runs[k].size, runs[k-1].addr)
                 && (forall i :: 0 <= i < k-1 ==> g[i] == runs[i]) && (forall i :: k <= i < |g| ==> g[i] == runs[i+1])
            else g == runs[k-1 := Entry(runs[k-1].size + size, runs[k-1].addr)]
  {
    hide After;
  }

  class Map {
    const m: array<Entry>
    ghost var runs: seq<Entry>

    ghost predicate Valid()
      reads this, m
    {
      Canonical(runs) && Rep(m[..], runs)
    }

    constructor (n: nat)
      requires n > 0
      ensures Valid() && runs == [] && fresh(m) && m.Length == n
    {
      m := new Entry[n](_ => Entry(0, 0));
      runs := [];
    }

    /** First fit: the base of `size` units, or 0. */
    method Malloc(size: int) returns (a: int)
      requires Valid() && 0 <= size < UNITS
      modifies this`runs, m
      ensures Valid()
      ensures var k := FirstFit(old(runs), size, 0);
              if k == |old(runs)| then a == 0 && runs == old(runs)
              else a == old(runs)[k].addr && a != 0 && runs == Taken(old(runs), k, size)
    {
      hide Canonical, FirstFit, Taken;
      var b := FindFit(size);
      if m[b].size != 0 {
        a := m[b].addr;
        Bounds(runs, b);
        TakenIs(runs, b, size);
        hide Rep;
        Cut(b, size);
        return;
      }
      a := 0;
    }

    /** The first run with room, or the end of the list. */
    method FindFit(size: int) returns (b: nat)
      requires Rep(m[..], runs)
      ensures b == FirstFit(runs, size, 0)
    {
      b := 0;
      while m[b].size != 0
        invariant b <= |runs| && FirstFit(runs, size, 0) == FirstFit(runs, size, b)
        decreases |runs| - b
      {
        if m[b].size >= size {
          return;
        }
        b := b + 1;
      }
    }

    /** `size` units come off the front of run `b`; the list closes up over it
        when nothing is left. */
    method Cut(b: nat, size: int)
      requires Rep(m[..], runs) && b < |runs| && 0 <= size <= runs[b].size && Good(runs[b])
      modifies this`runs, m
      ensures runs == Taken(old(runs), b, size) && Rep(m[..], runs)
    {
      m[b] := m[b].(addr := Wrap(m[b].addr + size));
      m[b] := m[b].(size := m[b].size - size);
      if m[b].size == 0 {
        CloseUp(b);
      }
      runs := Taken(runs, b, size);
    }

    /** Entries after `k` move down one, up to the first of size zero. */
    method CloseUp(k: nat)
      requires k < |runs| < m.Length
      requires (forall i :: k < i < |runs| ==> m[i] == runs[i] && runs[i].size != 0)
      requires forall i :: |runs| <= i < m.Length ==> m[i].size == 0
      modifies m
      ensures forall i :: 0 <= i < k ==> m[i] == old(m[i])
      ensures forall i :: k <= i < |runs| - 1 ==> m[i] == runs[i+1]
      ensures m[|runs|-1] == old(m[|runs|]) && forall i :: |runs| <= i < m.Length ==> m[i] == old(m[i])
    {
      var b := k;
      while true
        invariant k <= b < |runs|
        invariant forall i :: 0 <= i < k ==> m[i] == old(m[i])
        invariant forall i :: k <= i < b ==> m[i] == runs[i+1]
        invariant forall i :: b < i < m.Length ==> m[i] == old(m[i])
        decreases |runs| - b
      {
        b := b + 1;
        m[b-1] := m[b-1].(addr := m[b].addr);
        m[b-1] := m[b-1].(size := m[b].size);
        if m[b-1].size == 0 { break; }
      }
    }

    /** Units come back; the list must have a slot to spare if it grows. */
    method Mfree(size: int, a: int)
      requires Valid() && 0 <= size < UNITS && 0 < a && a + size <= UNITS && InUse(runs, a, size)
      requires |Given(runs, a, size)| < m.Length
      modifies this`runs, m
      ensures Valid() && runs == Given(old(runs), a, size)
    {
      if size == 0 { GivenNothing(runs, a); } else { GivenIs(runs, a, size); }
      hide Canonical, InUse, After, Given, IsFree;
      var b := FindPlace(a);
      if b > 0 { Bounds(runs, b-1); }
      if b < |runs| { Bounds(runs, b); }
      hide Rep;
      Put(b, size, a);
    }

    /** The first run after `a`, or the end of the list. */
    method FindPlace(a: int) returns (b: nat)
      requires Rep(m[..], runs)
      ensures b == After(runs, a, 0)
    {
      b := 0;
      while m[b].addr <= a && m[b].size != 0
        invariant b <= |runs| && After(runs, a, 0) == After(runs, a, b)
        decreases |runs| - b
      {
        b := b + 1;
      }
    }

    method Put(b: nat, size: int, a: int)
      requires Rep(m[..], runs) && b == After(runs, a, 0) <= |runs|
      requires 0 <= size && 0 < a && a + size <= UNITS && |Given(runs, a, size)| < m.Length
      requires (b > 0 ==> Good(runs[b-1])) && (b < |runs| ==> Good(runs[b]))
      modifies this`runs, m
      ensures runs == Given(old(runs), a, size) && Rep(m[..], runs)
    {
      hide After, Given;
      if b > 0 && Wrap(m[b-1].addr + m[b-1].size) == a {
        JoinLeft(b, size, a);
      } else if Wrap(a + size) == m[b].addr && m[b].size != 0 {
        GivenRight(runs, a, size);
        m[b] := m[b].(addr := m[b].addr - size);
        m[b] := m[b].(size := m[b].size + size);
        runs := Given(runs, a, size);
      } else if size != 0 {
        GivenNew(runs, a, size);
        Insert(b, Entry(size, a));
        runs := Given(runs, a, size);
      } else {
        GivenNothing(runs, a);
      }
    }

    /** The run goes on the end of the one before, and that of the one after too
        when they meet. */
    method JoinLeft(b: nat, size: int, a: int)
      requires Rep(m[..], runs) && b == After(runs, a, 0) <= |runs|
      requires 0 <= size && 0 < a && a + size <= UNITS
      requires b > 0 && Good(runs[b-1]) && runs[b-1].addr + runs[b-1].size == a
      requires b < |runs| ==> Good(runs[b])
      modifies this`runs, m
      ensures runs == Given(old(runs), a, size) && Rep(m[..], runs)
    {
      GivenLeft(runs, a, size);
      hide After, Given;
      m[b-1] := m[b-1].(size := m[b-1].size + size);
      if Wrap(a + size) == m[b].addr {
        m[b-1] := m[b-1].(size := m[b-1].size + m[b].size);
        if m[b].size != 0 {
          CloseUp(b);
        }
      }
      runs := Given(runs, a, size);
    }

    /** An entry goes in and those from it on move up, until one of size zero is
        overwritten. */
    method Insert(k: nat, e: Entry)
      requires k <= |runs| && |runs| + 1 < m.Length && e.size != 0
      requires forall i :: k <= i < |runs| ==> m[i] == runs[i] && runs[i].size != 0
      requires m[|runs|].size == 0
      modifies m
      ensures forall i :: 0 <= i < k ==> m[i] == old(m[i])
      ensures m[k] == e && (forall i :: k < i <= |runs| ==> m[i] == runs[i-1])
      ensures forall i :: |runs| < i < m.Length ==> m[i] == old(m[i])
    {
      var b, held := k, e;
      while held.size != 0
        invariant k <= b <= |runs| + 1
        invariant held == if b == k then e else if b <= |runs| then runs[b-1] else old(m[|runs|])
        invariant forall i :: 0 <= i < k ==> m[i] == old(m[i])
        invariant b > k ==> m[k] == e && forall i :: k < i < b ==> m[i] == runs[i-1]
        invariant forall i :: b <= i < m.Length ==> m[i] == old(m[i])
        decreases |runs| + 1 - b
      {
        var t := m[b];
        m[b] := held;
        held := t;
        b := b + 1;
      }
    }
  }
}
