/** The linker's second pass: code goes through a small window on its way to the
    output file, and fixups are made while their word is still in the window. */
module Binder {
  import opened Common
  import opened Relax
  import opened Stability
  import opened Segment
  import opened Runs
  import opened Machine
  import opened Linked

  const SLACK: nat := 138
  const MAXRUN: nat := 127

  /** One segment's window: `codebuf`/`ocode` with size 512, or `databuf`/`odata`
      with size 4096. */
  class Window {
    const size: nat
    const buf: array<Byte>
    const total: nat
    var fill: nat
    var file: seq<Byte>
    var fixat: int

    /** The window never empties once something has been written out: it keeps
        at least the two bytes the next fixup can ask for. */
    ghost predicate Valid()
      reads this
    {
      && size >= SLACK && buf.Length == size + SLACK
      && fill <= size + 1
      && (file != [] ==> fill >= 2)
      && |file| + fill <= total
    }

    /** Everything linked so far, written or not. */
    ghost function Image(): (bs: seq<Byte>)
      reads this, buf
      requires Valid()
      ensures |bs| == |file| + fill
    {
      file + buf[..fill]
    }

    constructor (size: nat, total: nat)
      requires size >= SLACK
      ensures Valid() && fresh(buf) && Image() == []
      ensures this.size == size && this.total == total
    {
      this.size, this.total := size, total;
      buf := new Byte[size + SLACK](_ => 0);
      fill, file, fixat := 0, [], -2;
    }

    /** Write out the first `size` bytes and move the rest down, unless that was
        the last of the segment. */
    method WriteOut()
      requires buf.Length == size + SLACK && size + 2 <= fill <= 2 * size && fill <= buf.Length
      requires |file| + fill <= total
      modifies this`fill, this`file, buf
      ensures fill == old(fill) - size && file == old(file) + old(buf[..size])
      ensures buf[..fill] == old(buf[size..fill])
    {
      file := file + buf[..size];
      if |file| < total {
        var num := fill - size;
        fill := num;
        while num > 0
          invariant 0 <= num <= fill == old(fill) - size && file == old(file) + old(buf[..size])
          invariant forall i :: num <= i < fill ==> buf[i] == old(buf[i + size])
          invariant forall i :: (0 <= i < num || fill <= i < buf.Length) ==> buf[i] == old(buf[i])
        {
          num := num - 1;
          buf[num] := buf[num + size];
        }
      }
    }

    method Copy(run: seq<Byte>)
      requires Valid() && |run| <= MAXRUN
      modifies this`fill, buf
      ensures fill == old(fill) + |run| && buf[..fill] == old(buf[..fill]) + run
    {
      ghost var was := buf[..fill];
      var k := 0;
      while k < |run|
        invariant k <= |run| && fill == |was| + k && buf[..fill] == was + run[..k]
      {
        buf[fill] := run[k];
        fill, k := fill + 1, k + 1;
      }
      assert run[..k] == run;
    }

    /** A record of bytes.  Pass 1 has measured the segment, so it fits. */
    method Place(run: seq<Byte>)
      requires Valid() && 0 < |run| <= MAXRUN && |file| + fill + |run| <= total
      modifies this`fill, this`file, this`fixat, buf
      ensures Valid() && Image() == old(Image()) + run
      ensures fixat == fill - 2
    {
      ghost var before := buf[..fill];
      Copy(run);
      Regroup(file, before, run, size);
      if fill > size + 1 {
        WriteOut();
      }
      fixat := fill - 2;
    }

    /** Add to the word the last record ended with: it is in the window. */
    method Fix(x: int)
      requires Valid() && fixat == fill - 2 && |file| + fill >= 2
      modifies buf
      ensures Valid() && Image() == Patch(old(Image()), x)
    {
      hide Word, Patch;
      ghost var before := buf[..fill];
      PatchTail(file, before, x);
      var w := Wrap(Word(buf[fixat], buf[fixat+1]) + x);
      buf[fixat], buf[fixat+1] := w % 256, w / 256;
      TailChanged(before, buf[..fill]);
    }
  }

  lemma TailChanged(before: seq<Byte>, now: seq<Byte>)
    requires |now| == |before| >= 2 && forall i :: 0 <= i < |now| - 2 ==> now[i] == before[i]
    ensures now == before[..|before|-2] + [now[|now|-2], now[|now|-1]]
  {
  }

  lemma Regroup(a: seq<Byte>, b: seq<Byte>, c: seq<Byte>, n: nat)
    ensures a + (b + c) == (a + b) + c
    ensures n <= |b + c| ==> (a + (b + c)[..n]) + (b + c)[n..] == (a + b) + c
  {
  }

  lemma PatchTail(a: seq<Byte>, b: seq<Byte>, x: int)
    requires |b| >= 2
    ensures var w := Wrap(Word(b[|b|-2], b[|b|-1]) + x);
            Patch(a + b, x) == a + (b[..|b|-2] + [w % 256, w / 256])
  {
    assert (a + b)[..|a+b|-2] == a + b[..|b|-2];
  }

  // ----- a module's object code

  /** A record of the module's object code.  Names are numbered by what is in them,
      labels by the compiler, module by module. */
  datatype Obj =
    | Public(lab: int, name: int)
    | Label(lab: int, off: int)
    | Run(bytes: seq<Byte>)
    | NameRel(lab: int)
    | JumpRel(lab: int)
    | Other(num: int)
  {
    predicate Declares() { Public? || Label? }

    predicate Fixes() { NameRel? || JumpRel? }
  }

  function ItemsOf(o: Obj): (items: seq<Item>) {
    match o
    case Run(bytes) => Relax.Bytes(bytes)
    case NameRel(lab) => [Mark(ONAMEREL, lab)]
    case JumpRel(lab) => [Mark(OJUMPREL, lab)]
    case Other(num) => [Mark(OLINE, num)]
    case _ => []
  }

  function Flat(objs: seq<Obj>, k: nat): (items: seq<Item>)
    requires k <= |objs|
  {
    if k == 0 then [] else Flat(objs, k-1) + ItemsOf(objs[k-1])
  }

  function Bulk(objs: seq<Obj>, k: nat): (n: nat)
    requires k <= |objs|
  {
    if k == 0 then 0 else Bulk(objs, k-1) + if objs[k-1].Run? then |objs[k-1].bytes| else 0
  }

  /** Runs have at least one byte and at most 127, every fixup has a word of its own
      module to adjust, and what is declared is declared once, before the code:
      names first, then labels. */
  ghost predicate WellFormed(objs: seq<Obj>) {
    && (forall k {:trigger objs[k]} :: 0 <= k < |objs| ==>
          (objs[k].Run? ==> 0 < |objs[k].bytes| <= MAXRUN) && (objs[k].Fixes() ==> Bulk(objs, k) >= 2))
    && Declared(objs)
  }

  ghost predicate Declared(objs: seq<Obj>) {
    && (forall i, j :: 0 <= i < j < |objs| && objs[j].Declares() ==> !objs[i].Run? && !objs[i].Fixes())
    && (forall i, j :: 0 <= i < j < |objs| && objs[i].Label? && objs[j].Declares() ==> objs[i].lab != objs[j].lab)
  }

  // ----- what the labels of a module stand for

  /** `labis` and `labat`: the name a label is declared for, or its address. */
  datatype Syms = Syms(pubs: map<int, int>, labat: map<int, int>)

  type Defs = map<int, int>
  type Labels = int -> int

  /** A label goes in at its offset from where the segment has got to, unless it has
      been declared a name. */
  function Noted(t: Syms, o: Obj, offs: int): Syms {
    match o
    case Public(lab, name) => t.(pubs := t.pubs[lab := name])
    case Label(lab, off) => if lab in t.pubs then t else t.(labat := t.labat[lab := Wrap(off + offs)])
    case _ => t
  }

  function SymsAt(objs: seq<Obj>, k: nat, base: int): Syms
    requires k <= |objs|
  {
    if k == 0 then Syms(map[], map[])
    else Noted(SymsAt(objs, k-1, base), objs[k-1], base + Bulk(objs, k-1))
  }

  /** What a fixup adds for a label; `other` is what the tables happen to hold for
      one that the code does not declare, or a name nobody defines. */
  function Value(t: Syms, defs: Defs, other: Labels, lab: int): int {
    if lab in t.pubs then (if t.pubs[lab] in defs then defs[t.pubs[lab]] else other(lab))
    else if lab in t.labat then t.labat[lab]
    else other(lab)
  }

  function ModuleAddr(objs: seq<Obj>, base: int, defs: Defs, other: Labels): Labels {
    lab => Value(SymsAt(objs, |objs|, base), defs, other, lab)
  }

  /** Once there is code nothing more is declared. */
  lemma {:induction false} SymsDone(objs: seq<Obj>, k: nat, n: nat, base: int)
    requires k <= n <= |objs| && Declared(objs)
    requires exists i :: 0 <= i <= k && i < |objs| && (objs[i].Run? || objs[i].Fixes())
    ensures SymsAt(objs, n, base) == SymsAt(objs, k, base)
  {
    if k < n {
      SymsDone(objs, k, n-1, base);
      var i :| 0 <= i <= k && i < |objs| && (objs[i].Run? || objs[i].Fixes());
      assert i < n-1 ==> !objs[n-1].Declares();
    }
  }

  /** And labels are noted before there is any. */
  lemma {:induction false} NoBulkYet(objs: seq<Obj>, j: nat)
    requires j < |objs| && Declared(objs) && objs[j].Declares()
    ensures Bulk(objs, j) == 0
  {
    NoRunsNoBulk(objs, j);
  }

  lemma {:induction false} NoRunsNoBulk(objs: seq<Obj>, n: nat)
    requires n <= |objs| && forall i :: 0 <= i < n ==> !objs[i].Run?
    ensures Bulk(objs, n) == 0
  {
    if n > 0 { NoRunsNoBulk(objs, n-1); }
  }

  /** A label stays as it was noted. */
  lemma {:induction false} LabelNoted(objs: seq<Obj>, j: nat, n: nat, base: int)
    requires j < n <= |objs| && Declared(objs) && objs[j].Label?
    ensures var lab := objs[j].lab; var t := SymsAt(objs, n, base);
            && (lab in t.pubs <==> lab in SymsAt(objs, j, base).pubs)
            && (lab in t.pubs ==> t.pubs[lab] == SymsAt(objs, j, base).pubs[lab])
            && (lab !in t.pubs ==> lab in t.labat && t.labat[lab] == Wrap(base + objs[j].off))
    decreases n
  {
    NoBulkYet(objs, j);
    if n > j + 1 {
      LabelNoted(objs, j, n-1, base);
      assert objs[n-1].Declares() ==> objs[j].lab != objs[n-1].lab;
    }
  }

  // ----- names, as pass 1 defines them

  /** A name takes the address of its label the first time. */
  function Defined(d: Defs, t: Syms, o: Obj, offs: int): Defs {
    if o.Label? && o.lab in t.pubs && t.pubs[o.lab] !in d then d[t.pubs[o.lab] := Wrap(o.off + offs)] else d
  }

  function DefsIn(objs: seq<Obj>, k: nat, base: int, d: Defs): Defs
    requires k <= |objs|
  {
    if k == 0 then d
    else Defined(DefsIn(objs, k-1, base, d), SymsAt(objs, k-1, base), objs[k-1], base + Bulk(objs, k-1))
  }

  lemma {:induction false} DefsInGrow(objs: seq<Obj>, k: nat, n: nat, base: int, d: Defs, x: int)
    requires k <= n <= |objs| && x in DefsIn(objs, k, base, d)
    ensures x in DefsIn(objs, n, base, d) && DefsIn(objs, n, base, d)[x] == DefsIn(objs, k, base, d)[x]
  {
    if k < n { DefsInGrow(objs, k, n-1, base, d, x); }
  }

  /** Where module `k` begins: after the wanted modules before it. */
  function Base(mods: seq<seq<Obj>>, want: seq<bool>, k: nat): (n: nat)
    requires k <= |mods| == |want|
  {
    if k == 0 then 0
    else Base(mods, want, k-1) + if want[k-1] then Bulk(mods[k-1], |mods[k-1]|) else 0
  }

  /** The names the wanted modules before `k` define. */
  function DefsTo(mods: seq<seq<Obj>>, want: seq<bool>, k: nat): Defs
    requires k <= |mods| == |want|
  {
    if k == 0 then map[]
    else if want[k-1] then DefsIn(mods[k-1], |mods[k-1]|, Base(mods, want, k-1), DefsTo(mods, want, k-1))
    else DefsTo(mods, want, k-1)
  }

  lemma {:induction false} DefsGrow(mods: seq<seq<Obj>>, want: seq<bool>, k: nat, n: nat, x: int)
    requires k <= n <= |mods| == |want| && x in DefsTo(mods, want, k)
    ensures x in DefsTo(mods, want, n) && DefsTo(mods, want, n)[x] == DefsTo(mods, want, k)[x]
  {
    if k < n {
      DefsGrow(mods, want, k, n-1, x);
      if want[n-1] {
        DefsInGrow(mods[n-1], 0, |mods[n-1]|, Base(mods, want, n-1), DefsTo(mods, want, n-1), x);
      }
    }
  }

  /** No name is defined by two labels of wanted modules. */
  ghost predicate DefinedOnce(mods: seq<seq<Obj>>, want: seq<bool>)
    requires |mods| == |want|
  {
    forall k, j {:trigger mods[k][j]} :: 0 <= k < |mods| && want[k] && 0 <= j < |mods[k]| && mods[k][j].Label? ==>
      var t := SymsAt(mods[k], j, Base(mods, want, k));
      mods[k][j].lab in t.pubs ==>
        t.pubs[mods[k][j].lab] !in DefsIn(mods[k], j, Base(mods, want, k), DefsTo(mods, want, k))
  }

  /** The address of a label: its module's base and its offset, through the name if
      it has one, in its own module and, by that name, in every other. */
  lemma OwnLabel(mods: seq<seq<Obj>>, want: seq<bool>, k: nat, j: nat, other: Labels)
    requires k < |mods| == |want| && want[k] && j < |mods[k]| && mods[k][j].Label?
    requires Declared(mods[k]) && DefinedOnce(mods, want)
    ensures var base, defs := Base(mods, want, k), DefsTo(mods, want, |mods|);
            var lab, at := mods[k][j].lab, Wrap(base + mods[k][j].off);
            && ModuleAddr(mods[k], base, defs, other)(lab) == at
            && var pubs := SymsAt(mods[k], |mods[k]|, base).pubs;
               lab in pubs ==> pubs[lab] in defs && defs[pubs[lab]] == at
  {
    var objs, base := mods[k], Base(mods, want, k);
    var lab, t := objs[j].lab, SymsAt(objs, j, base);
    LabelNoted(objs, j, |objs|, base);
    if lab in t.pubs {
      var x, d := t.pubs[lab], DefsTo(mods, want, k);
      assert mods[k][j].Label?;
      assert x !in DefsIn(objs, j, base, d);
      NoBulkYet(objs, j);
      assert DefsIn(objs, j+1, base, d)[x] == Wrap(base + objs[j].off);
      DefsInGrow(objs, j+1, |objs|, base, d, x);
      DefsGrow(mods, want, k+1, |mods|, x);
    }
  }

  /** A name one module uses and another defines: the label the one uses has the
      address of the other's. */
  lemma AcrossModules(mods: seq<seq<Obj>>, want: seq<bool>, k: nat, lab: int, d: nat, j: nat, other: Labels)
    requires k < |mods| == |want| && d < |mods| && want[d] && j < |mods[d]| && mods[d][j].Label?
    requires Declared(mods[d]) && DefinedOnce(mods, want)
    requires var used := SymsAt(mods[k], |mods[k]|, Base(mods, want, k)).pubs;
             var own := SymsAt(mods[d], |mods[d]|, Base(mods, want, d)).pubs;
             lab in used && mods[d][j].lab in own && used[lab] == own[mods[d][j].lab]
    ensures ModuleAddr(mods[k], Base(mods, want, k), DefsTo(mods, want, |mods|), other)(lab) ==
            Wrap(Base(mods, want, d) + mods[d][j].off)
  {
    hide SymsAt, Declared, DefinedOnce, DefsTo, Base;
    OwnLabel(mods, want, d, j, other);
  }

  // ----- a module's code through the window

  /** Pass 2 over the object code of one module: what is in the window and the
      file together is what linking its items on a flat memory gives, with the labels
      where the tables have them in the end. */
  method LinkModule(w: Window, objs: seq<Obj>, defs: Defs, other: Labels)
    requires w.Valid() && WellFormed(objs)
    requires |w.file| + w.fill + Bulk(objs, |objs|) <= w.total
    modifies w, w.buf
    ensures w.Valid()
    ensures w.Image() == Link(old(w.Image()), Flat(objs, |objs|), 0, ModuleAddr(objs, |old(w.Image())|, defs, other))
    ensures |w.Image()| == old(|w.Image()|) + Bulk(objs, |objs|)
  {
    hide Link, Wrap, Patch, ItemsOf, Flat, Bulk, WellFormed, Declared, Value, Noted, SymsAt, ModuleAddr;
    ghost var was := w.Image();
    var base := |w.file| + w.fill;
    ghost var addr := ModuleAddr(objs, base, defs, other);
    var offs, t := base, Syms(map[], map[]);
    FlatNone(objs);
    SymsNone(objs, base);
    LinkNothing(was, 0, addr);
    var k := 0;
    while k < |objs|
      invariant k <= |objs| && w.Valid() && offs == |w.file| + w.fill == base + Bulk(objs, k)
      invariant t == SymsAt(objs, k, base) && base == |was|
      invariant w.Image() == Link(was, Flat(objs, k), 0, addr)
      invariant Bulk(objs, k) > 0 ==> w.fixat == w.fill - 2
    {
      FlatStep(objs, k);
      SymsStep(objs, k, base);
      EnoughBefore(objs, k);
      BulkGrows(objs, k+1);
      LinkConcat(was, Flat(objs, k), ItemsOf(objs[k]), 0, addr);
      if objs[k].Fixes() { FixKnown(objs, k, base, defs, other); }
      offs, t := LinkOne(w, objs[k], offs, t, defs, other, addr);
      k := k + 1;
    }
  }

  lemma SymsNone(objs: seq<Obj>, base: int)
    ensures SymsAt(objs, 0, base) == Syms(map[], map[])
  {
  }

  lemma SymsStep(objs: seq<Obj>, k: nat, base: int)
    requires k < |objs|
    ensures SymsAt(objs, k+1, base) == Noted(SymsAt(objs, k, base), objs[k], base + Bulk(objs, k))
  {
  }

  lemma FixKnown(objs: seq<Obj>, k: nat, base: int, defs: Defs, other: Labels)
    requires k < |objs| && Declared(objs) && objs[k].Fixes()
    ensures ModuleAddr(objs, base, defs, other)(objs[k].lab) == Value(SymsAt(objs, k, base), defs, other, objs[k].lab)
  {
    SymsDone(objs, k, |objs|, base);
  }

  /** One object record; `offs` is the segment offset reached, `t` the labels. */
  method LinkOne(w: Window, o: Obj, offs: nat, t: Syms, defs: Defs, other: Labels, ghost addr: Labels)
    returns (offs': nat, t': Syms)
    requires w.Valid() && offs == |w.file| + w.fill
    requires o.Run? ==> 0 < |o.bytes| <= MAXRUN && offs + |o.bytes| <= w.total
    requires o.Fixes() ==> w.fixat == w.fill - 2 && offs >= 2 && addr(o.lab) == Value(t, defs, other, o.lab)
    modifies w, w.buf
    ensures w.Valid() && w.Image() == Link(old(w.Image()), ItemsOf(o), 0, addr)
    ensures offs' == |w.file| + w.fill == offs + if o.Run? then |o.bytes| else 0
    ensures t' == Noted(t, o, offs)
    ensures if o.Run? then w.fixat == w.fill - 2 else w.fixat == old(w.fixat) && w.fill == old(w.fill)
  {
    hide Link, Wrap, Patch, ItemsOf, Noted;
    offs', t' := offs, Noted(t, o, offs);
    LinkObj(w.Image(), o, addr);
    match o {
      case Run(bytes) =>
        w.Place(bytes);
        offs' := offs + |bytes|;
      case NameRel(lab) => w.Fix(Value(t, defs, other, lab));
      case JumpRel(lab) => w.Fix(Value(t, defs, other, lab) - offs);
      case _ =>
    }
  }

  lemma {:induction false} BulkGrows(objs: seq<Obj>, k: nat)
    requires k <= |objs|
    ensures Bulk(objs, k) <= Bulk(objs, |objs|)
    decreases |objs| - k
  {
    if k < |objs| {
      BulkGrows(objs, k+1);
    }
  }

  lemma LinkObj(bs: seq<Byte>, o: Obj, addr: Labels)
    requires o.Fixes() ==> |bs| >= 2
    ensures o.Run? ==> Link(bs, ItemsOf(o), 0, addr) == bs + o.bytes
    ensures o.NameRel? ==> Link(bs, ItemsOf(o), 0, addr) == Patch(bs, addr(o.lab))
    ensures o.JumpRel? ==> Link(bs, ItemsOf(o), 0, addr) == Patch(bs, addr(o.lab) - |bs|)
    ensures o.Other? || o.Declares() ==> Link(bs, ItemsOf(o), 0, addr) == bs
  {
    hide Patch, Wrap, Link, Link1;
    if o.Run? {
      LinkBytes(bs, o.bytes, 0, addr);
    } else if o.Declares() {
      LinkNothing(bs, 0, addr);
    } else {
      LinkSingle(bs, ItemsOf(o)[0], 0, addr);
      MarkMeans(bs, o, addr);
    }
  }

  lemma MarkMeans(bs: seq<Byte>, o: Obj, addr: Labels)
    requires (o.Fixes() && |bs| >= 2) || o.Other?
    ensures o.NameRel? ==> Link1(bs, ItemsOf(o)[0], 0, addr) == Patch(bs, addr(o.lab))
    ensures o.JumpRel? ==> Link1(bs, ItemsOf(o)[0], 0, addr) == Patch(bs, addr(o.lab) - |bs|)
    ensures o.Other? ==> Link1(bs, ItemsOf(o)[0], 0, addr) == bs
  {
    hide Patch;
  }

  // ----- both passes over a program

  /** Pass 1: run through every module, backing out of those not wanted, and
      note the offset each began at and the names it defines. */
  method Pass1(mods: seq<seq<Obj>>, want: seq<bool>) returns (bases: seq<nat>, offs: nat, defs: Defs)
    requires |mods| == |want|
    ensures |bases| == |mods| && forall k :: 0 <= k < |mods| ==> bases[k] == Base(mods, want, k)
    ensures offs == Base(mods, want, |mods|) && defs == DefsTo(mods, want, |mods|)
  {
    bases, offs, defs := [], 0, map[];
    for k := 0 to |mods|
      invariant |bases| == k && forall i :: 0 <= i < k ==> bases[i] == Base(mods, want, i)
      invariant offs == Base(mods, want, k) && defs == DefsTo(mods, want, k)
    {
      var oldoffs, olddefs := offs, defs;
      bases := bases + [offs];
      var objs, t := mods[k], Syms(map[], map[]);
      for i := 0 to |objs|
        invariant offs == oldoffs + Bulk(objs, i)
        invariant t == SymsAt(objs, i, oldoffs) && defs == DefsIn(objs, i, oldoffs, olddefs)
      {
        hide Noted, Defined;
        defs := Defined(defs, t, objs[i], offs);
        t := Noted(t, objs[i], offs);
        if objs[i].Run? { offs := offs + |objs[i].bytes|; }
      }
      if !want[k] { offs, defs := oldoffs, olddefs; }
    }
  }

  /** How pass 2 resolves the labels of each module. */
  ghost function Addrs(mods: seq<seq<Obj>>, want: seq<bool>, other: seq<Labels>): (addr: seq<Labels>)
    requires |mods| == |want| == |other|
    ensures |addr| == |mods|
    ensures forall k :: 0 <= k < |mods| ==>
              addr[k] == ModuleAddr(mods[k], Base(mods, want, k), DefsTo(mods, want, |mods|), other[k])
  {
    seq(|mods|, k requires 0 <= k < |mods| =>
      ModuleAddr(mods[k], Base(mods, want, k), DefsTo(mods, want, |mods|), other[k]))
  }

  /** The linked program: each wanted module linked by itself, at its base. */
  ghost function Program(mods: seq<seq<Obj>>, want: seq<bool>, addr: seq<Labels>, k: nat): (bs: seq<Byte>)
    requires k <= |mods| == |want| == |addr|
  {
    if k == 0 then []
    else
      Program(mods, want, addr, k-1) +
      if want[k-1] then Link([], Flat(mods[k-1], |mods[k-1]|), Base(mods, want, k-1), addr[k-1]) else []
  }

  /** Pass 2 links each wanted module at the base pass 1 found for it. */
  method Pass2(mods: seq<seq<Obj>>, want: seq<bool>, other: seq<Labels>, defs: Defs, w: Window)
    requires |mods| == |want| == |other| && defs == DefsTo(mods, want, |mods|)
    requires forall k :: 0 <= k < |mods| ==> WellFormed(mods[k])
    requires w.Valid() && w.file == [] && w.fill == 0 && Base(mods, want, |mods|) <= w.total
    modifies w, w.buf
    ensures w.Valid() && w.Image() == Program(mods, want, Addrs(mods, want, other), |mods|)
  {
    hide WellFormed, Link, Flat, Bulk, Base, Program, Addrs, ModuleAddr, DefsTo;
    ghost var addr := Addrs(mods, want, other);
    ProgramNone(mods, want, addr);
    var k := 0;
    while k < |mods|
      invariant k <= |mods| && w.Valid() && |w.Image()| == Base(mods, want, k)
      invariant w.Image() == Program(mods, want, addr, k)
    {
      BaseGrows(mods, want, k+1);
      ProgramNext(mods, want, addr, k);
      if want[k] {
        LinkLocal(w.Image(), mods[k], |mods[k]|, addr[k]);
        LinkModule(w, mods[k], defs, other[k]);
      }
      k := k + 1;
    }
  }

  /** The linker, one pass after the other. */
  method LinkProgram(mods: seq<seq<Obj>>, want: seq<bool>, other: seq<Labels>, size: nat) returns (image: seq<Byte>)
    requires |mods| == |want| == |other| && size >= SLACK
    requires forall k :: 0 <= k < |mods| ==> WellFormed(mods[k])
    ensures image == Program(mods, want, Addrs(mods, want, other), |mods|)
  {
    var _, total, defs := Pass1(mods, want);
    var w := new Window(size, total);
    EmptyWindow(w);
    Pass2(mods, want, other, defs, w);
    image := w.file + w.buf[..w.fill];
  }

  lemma EmptyWindow(w: Window)
    requires w.Valid() && w.Image() == []
    ensures w.file == [] && w.fill == 0
  {
  }

  lemma ProgramNone(mods: seq<seq<Obj>>, want: seq<bool>, addr: seq<Labels>)
    requires |mods| == |want| == |addr|
    ensures Program(mods, want, addr, 0) == [] && Base(mods, want, 0) == 0
  {
  }

  lemma {:induction false} BaseGrows(mods: seq<seq<Obj>>, want: seq<bool>, k: nat)
    requires k <= |mods| == |want|
    ensures Base(mods, want, k) <= Base(mods, want, |mods|)
    decreases |mods| - k
  {
    if k < |mods| {
      BaseGrows(mods, want, k+1);
    }
  }

  /** Linking a module after others is linking it alone, shifted: no fixup of
      its reaches back before it. */
  lemma {:induction false} LinkLocal(bs: seq<Byte>, objs: seq<Obj>, k: nat, addr: Labels)
    requires WellFormed(objs) && k <= |objs|
    ensures Link(bs, Flat(objs, k), 0, addr) == bs + Link([], Flat(objs, k), |bs|, addr)
    ensures |Link([], Flat(objs, k), |bs|, addr)| == Bulk(objs, k)
  {
    hide Link, ItemsOf, Flat, Bulk, WellFormed;
    if k == 0 {
      FlatNone(objs);
      LinkNothing(bs, 0, addr);
      LinkNothing([], |bs|, addr);
    } else {
      LinkLocal(bs, objs, k-1, addr);
      FlatStep(objs, k-1);
      EnoughBefore(objs, k-1);
      LinkLocalStep(bs, Flat(objs, k-1), objs[k-1], addr);
    }
  }

  lemma LinkLocalStep(bs: seq<Byte>, items: seq<Item>, o: Obj, addr: Labels)
    requires Link(bs, items, 0, addr) == bs + Link([], items, |bs|, addr)
    requires o.Fixes() ==> |Link([], items, |bs|, addr)| >= 2
    ensures Link(bs, items + ItemsOf(o), 0, addr) == bs + Link([], items + ItemsOf(o), |bs|, addr)
    ensures |Link([], items + ItemsOf(o), |bs|, addr)| ==
            |Link([], items, |bs|, addr)| + if o.Run? then |o.bytes| else 0
  {
    hide Link, ItemsOf;
    LinkConcat(bs, items, ItemsOf(o), 0, addr);
    LinkConcat([], items, ItemsOf(o), |bs|, addr);
    LinkObjLocal(bs, Link([], items, |bs|, addr), o, addr);
  }

  lemma FlatNone(objs: seq<Obj>)
    ensures Flat(objs, 0) == [] && Bulk(objs, 0) == 0
  {
  }

  lemma FlatStep(objs: seq<Obj>, k: nat)
    requires k < |objs|
    ensures Flat(objs, k+1) == Flat(objs, k) + ItemsOf(objs[k])
    ensures Bulk(objs, k+1) == Bulk(objs, k) + if objs[k].Run? then |objs[k].bytes| else 0
  {
  }

  lemma EnoughBefore(objs: seq<Obj>, k: nat)
    requires k < |objs| && WellFormed(objs)
    ensures objs[k].Run? ==> 0 < |objs[k].bytes| <= MAXRUN
    ensures objs[k].Fixes() ==> Bulk(objs, k) >= 2
    ensures Declared(objs)
  {
  }

  lemma LinkObjLocal(bs: seq<Byte>, m: seq<Byte>, o: Obj, addr: Labels)
    requires o.Fixes() ==> |m| >= 2
    ensures Link(bs + m, ItemsOf(o), 0, addr) == bs + Link(m, ItemsOf(o), |bs|, addr)
    ensures |Link(m, ItemsOf(o), |bs|, addr)| == |m| + if o.Run? then |o.bytes| else 0
  {
    hide Patch, Wrap, Link, Link1;
    if o.Run? {
      LinkBytes(bs + m, o.bytes, 0, addr);
      LinkBytes(m, o.bytes, |bs|, addr);
      assert bs + m + o.bytes == bs + (m + o.bytes);
    } else if o.Declares() {
      LinkNothing(bs + m, 0, addr);
      LinkNothing(m, |bs|, addr);
    } else {
      var it := ItemsOf(o)[0];
      LinkSingle(bs + m, it, 0, addr);
      LinkSingle(m, it, |bs|, addr);
      MarkAfter(bs, m, it, 0, addr);
    }
  }

  /** A fixup is the same whatever is in front of the code it is in. */
  lemma MarkAfter(bs: seq<Byte>, m: seq<Byte>, it: Item, org: int, addr: Labels)
    requires it.Mark? && (it.kind == OJUMPREL || it.kind == ONAMEREL ==> |m| >= 2)
    ensures Link1(bs + m, it, org, addr) == bs + Link1(m, it, org + |bs|, addr)
    ensures |Link1(m, it, org + |bs|, addr)| == |m|
  {
    hide Patch;
    if |m| >= 2 {
      PatchAfter(bs, m, addr(it.num) - (org + |bs| + |m|));
      PatchAfter(bs, m, addr(it.num));
    }
  }

  lemma PatchAfter(a: seq<Byte>, b: seq<Byte>, x: int)
    requires |b| >= 2
    ensures Patch(a + b, x) == a + Patch(b, x)
  {
    PatchTail(a, b, x);
  }

  lemma {:induction false} ProgramSize(mods: seq<seq<Obj>>, want: seq<bool>, addr: seq<Labels>, k: nat)
    requires k <= |mods| == |want| == |addr|
    requires forall i :: 0 <= i < |mods| ==> WellFormed(mods[i])
    ensures |Program(mods, want, addr, k)| == Base(mods, want, k)
  {
    if k > 0 {
      ProgramSize(mods, want, addr, k-1);
      if want[k-1] {
        var before := seq(Base(mods, want, k-1), _ => 0);
        LinkLocal(before, mods[k-1], |mods[k-1]|, addr[k-1]);
      }
    }
  }

  lemma {:induction false} ProgramPrefix(mods: seq<seq<Obj>>, want: seq<bool>, addr: seq<Labels>, k: nat, n: nat)
    requires k <= n <= |mods| == |want| == |addr|
    ensures Program(mods, want, addr, k) <= Program(mods, want, addr, n)
  {
    if k < n {
      ProgramPrefix(mods, want, addr, k, n-1);
    }
  }

  /** A wanted module's code, in memory: what `JumpArrives` asks to be loaded. */
  lemma ModuleLoaded(mods: seq<seq<Obj>>, want: seq<bool>, addr: seq<Labels>, k: nat, mem: int -> Byte)
    requires k < |mods| == |want| == |addr| && want[k]
    requires forall i :: 0 <= i < |mods| ==> WellFormed(mods[i])
    requires Loaded(mem, Program(mods, want, addr, |mods|), 0)
    ensures Loaded(mem, Link([], Flat(mods[k], |mods[k]|), Base(mods, want, k), addr[k]), Base(mods, want, k))
  {
    hide Link, Flat, WellFormed, Program, Base, Bulk, Loaded;
    var b := Base(mods, want, k);
    var before, code := Program(mods, want, addr, k), Link([], Flat(mods[k], |mods[k]|), b, addr[k]);
    ProgramSize(mods, want, addr, k);
    ProgramPrefix(mods, want, addr, k+1, |mods|);
    ProgramNext(mods, want, addr, k);
    LoadedPart(mem, before, code, Program(mods, want, addr, |mods|));
  }

  lemma ProgramNext(mods: seq<seq<Obj>>, want: seq<bool>, addr: seq<Labels>, k: nat)
    requires k < |mods| == |want| == |addr|
    ensures Base(mods, want, k+1) == Base(mods, want, k) + if want[k] then Bulk(mods[k], |mods[k]|) else 0
    ensures Program(mods, want, addr, k+1) ==
            Program(mods, want, addr, k) +
            if want[k] then Link([], Flat(mods[k], |mods[k]|), Base(mods, want, k), addr[k]) else []
  {
  }

  lemma LoadedPart(mem: int -> Byte, before: seq<Byte>, code: seq<Byte>, all: seq<Byte>)
    requires before + code <= all && Loaded(mem, all, 0)
    ensures Loaded(mem, code, |before|)
  {
    forall i {:trigger code[i]} | 0 <= i < |code| ensures mem(Wrap(|before| + i)) == code[i] {
      assert (before + code)[|before| + i] == code[i];
      assert mem(Wrap(0 + (|before| + i))) == all[|before| + i];
    }
  }
}
