/** The whole chain: records cut into any calls of `flush`, the object code made of
    what they write, both passes of the linker, and the program in memory. */
module Chain {
  import opened Common
  import opened Relax
  import opened Stability
  import opened Segment
  import opened Runs
  import opened Machine
  import opened Linked
  import opened Binder

  // ----- fixups have a word to adjust

  /** How many bytes the items place. */
  function Placed(items: seq<Item>): (n: nat) {
    if items == [] then 0
    else Placed(items[..|items|-1]) + if items[|items|-1].B? then 1 else 0
  }

  predicate IsFix(it: Item) { it.Mark? && (it.kind == OJUMPREL || it.kind == ONAMEREL) }

  ghost predicate MarksOk(items: seq<Item>) {
    forall j {:trigger items[j]} :: 0 <= j < |items| && IsFix(items[j]) ==> Placed(items[..j]) >= 2
  }

  lemma {:induction false} PlacedConcat(a: seq<Item>, b: seq<Item>)
    ensures Placed(a + b) == Placed(a) + Placed(b)
    decreases |b|
  {
    if b == [] {
      assert a + b == a;
    } else {
      PlacedConcat(a, b[..|b|-1]);
      assert (a + b)[..|a+b|-1] == a + b[..|b|-1];
    }
  }

  lemma {:induction false} PlacedBytes(s: seq<Byte>)
    ensures Placed(Relax.Bytes(s)) == |s|
    decreases |s|
  {
    if s != [] {
      PlacedBytes(s[..|s|-1]);
      assert Relax.Bytes(s)[..|s|-1] == Relax.Bytes(s[..|s|-1]);
    }
  }

  lemma MarksConcat(a: seq<Item>, b: seq<Item>)
    requires MarksOk(a) && forall j :: 0 <= j < |b| && IsFix(b[j]) ==> Placed(a) + Placed(b[..j]) >= 2
    ensures MarksOk(a + b)
  {
    var c := a + b;
    forall j {:trigger c[j]} | 0 <= j < |c| && IsFix(c[j]) ensures Placed(c[..j]) >= 2 {
      if j < |a| {
        assert c[..j] == a[..j];
        assert IsFix(a[j]);
      } else {
        assert c[..j] == a + b[..j-|a|];
        PlacedConcat(a, b[..j-|a|]);
      }
    }
  }

  lemma {:induction false} BulkIsPlaced(objs: seq<Obj>, k: nat)
    requires k <= |objs|
    ensures Bulk(objs, k) == Placed(Flat(objs, k))
  {
    hide Flat, Bulk, ItemsOf;
    if k == 0 {
      FlatNone(objs);
    } else {
      BulkIsPlaced(objs, k-1);
      FlatStep(objs, k-1);
      PlacedConcat(Flat(objs, k-1), ItemsOf(objs[k-1]));
      PlacedItems(objs[k-1]);
    }
  }

  lemma PlacedItems(o: Obj)
    ensures Placed(ItemsOf(o)) == if o.Run? then |o.bytes| else 0
  {
    if o.Run? {
      PlacedBytes(o.bytes);
    } else if !o.Declares() {
      assert ItemsOf(o)[..0] == [];
    }
  }

  lemma {:induction false} FlatPrefix(objs: seq<Obj>, k: nat, n: nat)
    requires k <= n <= |objs|
    ensures Flat(objs, k) <= Flat(objs, n)
  {
    if k < n { FlatPrefix(objs, k, n-1); }
  }

  /** Object code, in whatever runs, of items whose fixups have their word. */
  lemma ObjectWellFormed(objs: seq<Obj>)
    requires Declared(objs) && MarksOk(Flat(objs, |objs|))
    requires forall k :: 0 <= k < |objs| && objs[k].Run? ==> 0 < |objs[k].bytes| <= MAXRUN
    ensures WellFormed(objs)
  {
    var items := Flat(objs, |objs|);
    forall k {:trigger objs[k]} | 0 <= k < |objs| && objs[k].Fixes() ensures Bulk(objs, k) >= 2 {
      var j := |Flat(objs, k)|;
      FlatPrefix(objs, k+1, |objs|);
      FlatPrefix(objs, k, |objs|);
      assert Flat(objs, k+1)[j] == ItemsOf(objs[k])[0];
      assert IsFix(items[j]) && items[..j] == Flat(objs, k);
      BulkIsPlaced(objs, k);
    }
  }

  /** The code of a segment has a word before every fixup. */
  lemma {:induction false} CodeMarks(g: seq<Rec>, n: nat)
    requires n <= |g| && MarksFollowCode(g)
    ensures MarksOk(CodeOf(g, n))
  {
    hide MarksFollowCode, Code1;
    if n > 0 {
      CodeMarks(g, n-1);
      RecordMarks(g, n-1);
      MarksConcat(CodeOf(g, n-1), Code1(g, n-1));
    }
  }

  lemma RecordMarks(g: seq<Rec>, n: nat)
    requires n < |g| && MarksFollowCode(g)
    ensures var b := Code1(g, n); forall j :: 0 <= j < |b| && IsFix(b[j]) ==> Placed(CodeOf(g, n)) + Placed(b[..j]) >= 2
  {
    match g[n]
    case Jump(jt, far, want) =>
      if far || jt > LAST_SHORT { FarMarks(jt, want); }
    case Fix(_, _) =>
      PlacedConcat(CodeOf(g, n-1), Code1(g, n-1));
      PlacedBytes(g[n-1].bytes);
    case _ =>
  }

  lemma FarMarks(jt: nat, want: int)
    ensures var b := FarItems(jt, want); forall j :: 0 <= j < |b| && IsFix(b[j]) ==> Placed(b[..j]) >= 2
  {
    var b := FarItems(jt, want);
    var n := |b| - 1;
    assert b[..n] == b[..n-2] + [B(0), B(0)];
    PlacedConcat(b[..n-2], [B(0), B(0)]);
    assert [B(0), B(0)][..1] == [B(0)] && [B(0)][..0] == [];
    assert Placed([B(0), B(0)]) == 2;
  }

  // ----- linking code where it stands

  lemma {:induction false} LinkLocalItems(bs: seq<Byte>, items: seq<Item>, org: int, addr: Labels)
    requires MarksOk(items)
    ensures Link(bs, items, org, addr) == bs + Link([], items, org + |bs|, addr)
    ensures |Link([], items, org + |bs|, addr)| == Placed(items)
    decreases |items|
  {
    if items != [] {
      var n := |items| - 1;
      var front, it := items[..n], items[n];
      forall j {:trigger front[j]} | 0 <= j < n && IsFix(front[j]) ensures Placed(front[..j]) >= 2 {
        assert items[j] == front[j] && items[..j] == front[..j];
      }
      LinkLocalItems(bs, front, org, addr);
      var m := Link([], front, org + |bs|, addr);
      hide Patch, Wrap;
      match it
      case B(b) => assert bs + m + [b] == bs + (m + [b]);
      case Mark(_, _) => if IsFix(it) { assert items[n] == it; } MarkAfter(bs, m, it, org, addr);
    }
  }

  /** One stretch of a module's code, linked where it stands in the module. */
  lemma LinkStretch(pre: seq<Item>, out: seq<Item>, post: seq<Item>, org: int, addr: Labels)
    requires MarksOk(pre) && MarksOk(out) && MarksOk(post)
    ensures var a, b := Link([], pre, org, addr), Link([], out, org + Placed(pre), addr);
            |a| == Placed(pre) && a + b <= Link([], pre + out + post, org, addr)
  {
    hide Link, MarksOk;
    var a, b := Link([], pre, org, addr), Link([], out, org + Placed(pre), addr);
    LinkLocalItems([], pre, org, addr);
    LinkConcat([], pre, out, org, addr);
    LinkLocalItems(a, out, org, addr);
    LinkConcat([], pre + out, post, org, addr);
    LinkLocalItems(a + b, post, org, addr);
  }

  lemma LoadedMiddle(mem: int -> Byte, a: seq<Byte>, b: seq<Byte>, all: seq<Byte>, org: int)
    requires a + b <= all && Loaded(mem, all, org)
    ensures Loaded(mem, b, org + |a|)
  {
    forall i {:trigger b[i]} | 0 <= i < |b| ensures mem(Wrap(org + |a| + i)) == b[i] {
      assert (a + b)[|a| + i] == b[i];
      assert mem(Wrap(org + (|a| + i))) == all[|a| + i];
    }
  }

  // ----- a stretch of code assembled and put in a module

  /** The module's object code has the stretch after `pre` and before `post`, in any
      grouping of its bytes, and declares its labels. */
  ghost predicate HasStretch(objs: seq<Obj>, s: State, pre: seq<Item>, post: seq<Item>) {
    && Flat(objs, |objs|) == pre + s.out + post
    && forall i {:trigger s.locs[i]} :: 0 <= i < |s.locs| ==> HasLabel(objs, s.locs[i])
  }

  ghost predicate HasLabel(objs: seq<Obj>, e: Entry) {
    exists j :: 0 <= j < |objs| && objs[j] == Label(e.lab, e.off)
  }

  lemma StretchResolves(mods: seq<seq<Obj>>, want: seq<bool>, k: nat, other: Labels, locs: Table)
    requires k < |mods| == |want| && want[k] && Declared(mods[k]) && DefinedOnce(mods, want)
    requires forall i {:trigger locs[i]} :: 0 <= i < |locs| ==> HasLabel(mods[k], locs[i])
    ensures Resolves(ModuleAddr(mods[k], Base(mods, want, k), DefsTo(mods, want, |mods|), other), locs,
                     Base(mods, want, k))
  {
    hide Declared, DefinedOnce, ModuleAddr, DefsTo, Base;
    var addr := ModuleAddr(mods[k], Base(mods, want, k), DefsTo(mods, want, |mods|), other);
    forall i {:trigger locs[i]} | 0 <= i < |locs|
      ensures addr(locs[i].lab) == Wrap(Base(mods, want, k) + locs[i].off)
    {
      assert HasLabel(mods[k], locs[i]);
      var j :| 0 <= j < |mods[k]| && mods[k][j] == Label(locs[i].lab, locs[i].off);
      OwnLabel(mods, want, k, j, other);
    }
  }

  lemma AlikeMarks(g: seq<Rec>, stream: seq<Rec>)
    requires AlikeAll(g, stream) && MarksFollowCode(stream)
    ensures MarksFollowCode(g)
  {
    forall i | 0 <= i < |g| && g[i].Fix?
      ensures g[i].kind == ONAMEREL && i > 0 && g[i-1].Code? && |g[i-1].bytes| >= 2
    {
      assert Alike(g[i], stream[i]);
      assert Alike(g[i-1], stream[i-1]);
    }
  }

  /** Every object file of the program: what `ObjectWellFormed` asks. */
  ghost predicate ObjectFile(objs: seq<Obj>) {
    && Declared(objs) && MarksOk(Flat(objs, |objs|))
    && forall k :: 0 <= k < |objs| && objs[k].Run? ==> 0 < |objs[k].bytes| <= MAXRUN
  }

  lemma AllWellFormed(mods: seq<seq<Obj>>)
    requires forall i :: 0 <= i < |mods| ==> ObjectFile(mods[i])
    ensures forall i :: 0 <= i < |mods| ==> WellFormed(mods[i])
  {
    hide WellFormed, Declared, MarksOk, Flat;
    forall i | 0 <= i < |mods| ensures WellFormed(mods[i]) { ObjectWellFormed(mods[i]); }
  }

  /** A stretch of a wanted module, in memory. */
  lemma StretchLoaded(mods: seq<seq<Obj>>, want: seq<bool>, other: seq<Labels>, k: nat,
                      pre: seq<Item>, out: seq<Item>, post: seq<Item>, mem: int -> Byte)
    requires k < |mods| == |want| == |other| && want[k]
    requires forall i :: 0 <= i < |mods| ==> ObjectFile(mods[i])
    requires Flat(mods[k], |mods[k]|) == pre + out + post && MarksOk(pre) && MarksOk(out) && MarksOk(post)
    requires Loaded(mem, Program(mods, want, Addrs(mods, want, other), |mods|), 0)
    ensures var base, addr := Base(mods, want, k), Addrs(mods, want, other)[k];
            Loaded(mem, Link([], out, base + Placed(pre), addr), base + Placed(pre))
  {
    hide Link, Flat, WellFormed, Program, Base, Loaded, MarksOk, ModuleAddr, Addrs, ObjectFile;
    AllWellFormed(mods);
    var base, addr := Base(mods, want, k), Addrs(mods, want, other);
    ModuleLoaded(mods, want, addr, k, mem);
    LinkStretch(pre, out, post, base, addr[k]);
    LoadedMiddle(mem, Link([], pre, base, addr[k]), Link([], out, base + Placed(pre), addr[k]),
                 Link([], Flat(mods[k], |mods[k]|), base, addr[k]), base);
  }

  /** End to end.  Records go into the pipe in any chunks, each followed by a call of
      `flush`; what is written stands in a module's object file, in any runs, among
      whatever else the module has; both passes of the linker put the wanted modules
      together; the program is loaded.  Then every jump of the stretch, executed
      where it stands, goes to its label's record, or to the address its label has
      in the module that defines it, or on to the next record. */
  lemma RunningProgram(chunks: seq<seq<Rec>>, start: nat, mods: seq<seq<Obj>>, want: seq<bool>, other: seq<Labels>,
                       k: nat, pre: seq<Item>, post: seq<Item>, mem: int -> Byte) returns (g: seq<Rec>)
    requires chunks != [] && AllFresh(Concat(chunks)) && Distinct(Concat(chunks)) && MarksFollowCode(Concat(chunks))
    requires k < |mods| == |want| == |other| && want[k] && DefinedOnce(mods, want)
    requires forall i :: 0 <= i < |mods| ==> ObjectFile(mods[i])
    requires HasStretch(mods[k], Runs.Run(Begin(start), chunks), pre, post)
    requires MarksOk(pre) && MarksOk(post) && Placed(pre) == start
    requires Loaded(mem, Program(mods, want, Addrs(mods, want, other), |mods|), 0)
    ensures Assembled(g, Concat(chunks), Runs.Run(Begin(start), chunks), start)
    ensures var org, addr := Base(mods, want, k) + start, Addrs(mods, want, other)[k];
            forall i: nat, m: Cpu {:trigger Perform(mem, m, g[i])} ::
              i < |g| && g[i].Jump? && Expressible(g[i]) && m.Valid() && m.ip == Linked.At(g, i, org)
              ==> Perform(mem, m, g[i]).ip == Goal(g, i, m, org, addr)
  {
    hide Link, Flat, Program, Base, Loaded, MarksOk, ModuleAddr, MarksFollowCode, Distinct, AllFresh, Settled;
    hide CodeOf, EmitLocals, Resolves, Goal, Perform, Expressible;
    hide Size, Runs.Run, Addrs, DefinedOnce, AlikeAll, Declared;
    var s, base, addr := Runs.Run(Begin(start), chunks), Base(mods, want, k), Addrs(mods, want, other)[k];
    g := RunAssembles(start, chunks);
    AlikeMarks(g, Concat(chunks));
    CodeMarks(g, |g|);
    StretchLoaded(mods, want, other, k, pre, s.out, post, mem);
    assert ObjectFile(mods[k]);
    StretchResolves(mods, want, k, other[k], s.locs);
    forall i: nat, m: Cpu {:trigger Perform(mem, m, g[i])} |
      i < |g| && g[i].Jump? && Expressible(g[i]) && m.Valid() && m.ip == Linked.At(g, i, base + start)
      ensures Perform(mem, m, g[i]).ip == Goal(g, i, m, base + start, addr)
    {
      JumpArrives(g, Concat(chunks), s, start, base, addr, mem, m, i);
    }
  }
}
