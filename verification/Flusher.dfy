/** `flush` in its own form: three scans over the pipe and the two label arrays. */
module Flusher {
  import opened Relax
  import opened Stability

  const MAXLAB: nat := 227
  const MAXINT: int := 0x7FFF
  const PIPESIZE: nat := 2048

  function Entries(labels: seq<int>, laboff: seq<int>, n: nat): (t: Table)
    requires n <= |labels| && n <= |laboff|
    ensures |t| == n && forall i :: 0 <= i < n ==> t[i] == Entry(labels[i], laboff[i])
  {
    seq(n, i requires 0 <= i < n => Entry(labels[i], laboff[i]))
  }

  ghost predicate Sorted(t: Table) {
    forall i, j :: 0 <= i < j < |t| ==> t[i].off <= t[j].off
  }

  ghost predicate SortedTo(t: Table, top: int) {
    Sorted(t) && forall i :: 0 <= i < |t| ==> t[i].off <= top
  }

  /** What each scan adds for one record. */
  lemma TabStep(s: seq<Rec>, k: nat, exact: bool)
    requires k < |s|
    ensures Worst(s[..k+1]) == Worst(s[..k]) + Worst1(s[k])
    ensures Size(s[..k+1]) == Size(s[..k]) + Size1(s[k])
    ensures Labels(s[..k+1]) == Labels(s[..k]) + if s[k].Local? then 1 else 0
    ensures LabTab(s[..k+1], exact) ==
            LabTab(s[..k], exact) + if s[k].Local? then [Entry(s[k].lab, Off(s[..k], exact))] else []
  {
    assert s[..k+1][..k] == s[..k];
  }

  class Flusher {
    var pipe: seq<Rec>
    var labels: array<int>
    var laboff: array<int>
    var pipelab: nat
    var offs: int
    var out: seq<Item>
    var locs: Table

    /** The label arrays hold the carried labels, in order, none past the cut. */
    ghost predicate Valid()
      reads this, labels, laboff
    {
      && labels.Length == laboff.Length == MAXLAB && labels != laboff
      && pipelab <= MAXLAB
      && -MAXINT - 1 <= offs <= MAXINT
      && SortedTo(Tab(), 0)
    }

    ghost function Tab(): Table
      reads this, labels, laboff
      requires pipelab <= labels.Length && pipelab <= laboff.Length
    {
      Entries(labels[..], laboff[..], pipelab)
    }

    ghost function Abs(): State
      reads this, labels, laboff
      requires Valid()
    {
      State(Tab(), pipe, offs, out, locs)
    }

    constructor ()
      ensures Valid() && fresh(labels) && fresh(laboff)
      ensures Abs() == State([], [], 0, [], [])
    {
      labels, laboff, pipelab := new int[MAXLAB], new int[MAXLAB], 0;
      pipe, offs, out, locs := [], 0, [], [];
    }

    /** Records enter the pipe at its end. */
    method Put(r: Rec)
      requires Valid()
      modifies this`pipe
      ensures Valid() && Abs() == old(Abs()).(pipe := old(pipe) + [r])
    {
      pipe := pipe + [r];
    }

    method AddLabel(lab: int, off: int)
      requires labels.Length == laboff.Length == MAXLAB && labels != laboff && pipelab < MAXLAB
      modifies this`pipelab, labels, laboff
      ensures pipelab == old(pipelab) + 1
      ensures Tab() == old(Tab()) + [Entry(lab, off)]
    {
      labels[pipelab], laboff[pipelab] := lab, off;
      pipelab := pipelab + 1;
      assert forall i :: 0 <= i < old(pipelab) ==> Tab()[i] == old(Tab())[i];
    }

    /** First scan: labels at worst-case offsets. */
    method Scan1()
      requires labels.Length == laboff.Length == MAXLAB && labels != laboff
      requires pipelab + Labels(pipe) <= MAXLAB
      modifies this`pipelab, labels, laboff
      ensures pipelab == old(pipelab) + Labels(pipe)
      ensures Tab() == old(Tab()) + LabTab(pipe, false)
    {
      var k, offsett := 0, 0;
      assert pipe[..0] == [];
      while k < |pipe|
        invariant k <= |pipe| && offsett == Worst(pipe[..k])
        invariant pipelab == old(pipelab) + Labels(pipe[..k]) <= MAXLAB
        invariant Tab() == old(Tab()) + LabTab(pipe[..k], false)
      {
        hide LabTab, Labels, Worst, Entries;
        TabStep(pipe, k, false);
        LabelsOfPrefix(pipe, k+1);
        match pipe[k] {
          case Local(lab) => AddLabel(lab, offsett);
          case Jump(_, _, _) => offsett := offsett + 5;
          case Code(bytes) => offsett := offsett + |bytes|;
          case _ =>
        }
        k := k + 1;
      }
      assert pipe[..k] == pipe;
    }

    method FindLabel(want: int) returns (i: nat)
      requires pipelab <= labels.Length && pipelab <= laboff.Length
      ensures i == Find(Tab(), want)
    {
      i := 0;
      while i < pipelab && labels[i] != want
        invariant i <= pipelab && FindFrom(Tab(), want, i) == Find(Tab(), want)
      {
        i := i + 1;
      }
    }

    method SetOffset(i: nat, off: int)
      requires pipelab <= labels.Length && pipelab <= laboff.Length && labels != laboff && i < pipelab
      modifies laboff
      ensures Tab() == old(Tab())[i := Entry(old(Tab())[i].lab, off)]
    {
      laboff[i] := off;
    }

    method IsShort(r: Rec, offsett: int, saved: int) returns (short: bool)
      requires pipelab <= labels.Length && pipelab <= laboff.Length && r.Jump?
      ensures Decide(r, Tab(), offsett, saved) == if short then r else r.(far := true)
      ensures short ==> !r.far
    {
      short := false;
      if !r.far && r.jt <= LAST_SHORT {
        var i := FindLabel(r.want);
        if i < pipelab {
          var dif := if laboff[i] <= offsett then offsett - laboff[i] + 3 else laboff[i] - offsett - saved;
          short := dif <= REACH;
        }
      }
    }

    /** One record of the second scan. */
    method Decide2(k: nat, mlab: nat, offsett: nat, saved: int)
      returns (mlab': nat, offsett': nat, saved': int)
      requires labels.Length == laboff.Length == MAXLAB && labels != laboff && pipelab <= MAXLAB
      requires k < |pipe| && (pipe[k].Local? ==> mlab < pipelab && labels[mlab] == pipe[k].lab)
      modifies this`pipe, laboff
      ensures var r, t := old(pipe[k]), old(Tab());
              var r' := Decide(r, t, offsett, saved);
              && pipe == old(pipe)[k := r']
              && Tab() == (if r.Local? then t[mlab := Entry(r.lab, offsett)] else t)
              && mlab' == mlab + (if r.Local? then 1 else 0)
              && offsett' == offsett + Size1(r') && saved' == saved + Worst1(r) - Size1(r')
    {
      mlab', offsett', saved' := mlab, offsett, saved;
      match pipe[k] {
        case Local(lab) =>
          SetOffset(mlab, offsett);
          mlab' := mlab + 1;
        case Jump(jt, far, want) =>
          var short := IsShort(pipe[k], offsett, saved);
          if short {
            offsett', saved' := offsett + 2, saved + 3;
          } else {
            pipe := pipe[k := Jump(jt, true, want)];
            if jt < LAST_SHORT {
              offsett' := offsett + 5;
            } else {
              offsett', saved' := offsett + 3, saved + 2;
            }
          }
        case Code(bytes) => offsett' := offsett + |bytes|;
        case _ =>
      }
    }

    /** Second scan: sizes for the jumps, exact offsets for the labels passed. */
    method Scan2(slab: nat)
      requires labels.Length == laboff.Length == MAXLAB && labels != laboff
      requires slab + Labels(pipe) == pipelab <= MAXLAB
      requires Tab()[slab..] == LabTab(pipe, false)
      modifies this`pipe, laboff
      ensures var carried := old(Tab())[..slab];
              var q := Resolve(carried, old(pipe), |old(pipe)|);
              pipe == q && Tab() == carried + LabTab(q, true)
    {
      hide LabTab, Labels, Worst, Size, Entries, Resolve, MixTab, Decision, Decide, Same, Size1, Worst1;
      ghost var p, carried := pipe, Tab()[..slab];
      var k, mlab, saved, offsett := 0, slab, 0, 0;
      ScanStart(carried, p);
      while k < |pipe|
        invariant k <= |p| && |pipe| == |p|
        invariant pipe == Resolve(carried, p, k) + p[k..]
        invariant Tab() == MixTab(carried, p, Resolve(carried, p, k))
        invariant mlab == slab + Labels(Resolve(carried, p, k)) <= pipelab
        invariant offsett == Size(Resolve(carried, p, k))
        invariant saved == Worst(p[..k]) - offsett
      {
        ghost var q := Resolve(carried, p, k);
        ScanStep(carried, p, k);
        DecisionIs(carried, p, k);
        Replaced(q, p, k, Decision(carried, p, q));
        mlab, offsett, saved := Decide2(k, mlab, offsett, saved);
        k := k + 1;
      }
      ScanEnd(carried, p);
    }

    /** One record of the third scan; `bad` is the internal-error test. */
    method Write3(k: nat, mlab: nat, offsett: nat) returns (mlab': nat, offsett': nat, bad: bool)
      requires labels.Length == laboff.Length == MAXLAB && labels != laboff && pipelab <= MAXLAB
      requires k < |pipe| && Emittable1(pipe[k], Tab()) && (pipe[k].Local? ==> mlab < pipelab)
      modifies this`out, this`locs
      ensures out == old(out) + Emit1(pipe[k], Tab(), offsett)
      ensures locs == old(locs) + if pipe[k].Local? then [Entry(pipe[k].lab, offsett + offs)] else []
      ensures mlab' == mlab + (if pipe[k].Local? then 1 else 0) && offsett' == offsett + Size1(pipe[k])
      ensures bad <==> pipe[k].Local? && Tab()[mlab].off != offsett
    {
      mlab', offsett', bad := mlab, offsett, false;
      match pipe[k] {
        case Fix(kind, num) => out := out + [Mark(kind, num)];
        case Local(lab) =>
          bad := laboff[mlab] != offsett;
          mlab' := mlab + 1;
          locs := locs + [Entry(lab, offsett + offs)];
        case Jump(jt, far, want) =>
          if !far {
            var i := FindLabel(want);
            offsett' := offsett + 2;
            out := out + [B(ShortOp(jt)), B((laboff[i] - offsett') % 256)];
          } else {
            if jt < LAST_SHORT {
              out := out + [B(ShortOp(if jt < 18 then Invert(jt) else jt)), B(3)];
              offsett' := offsett + 2;
            }
            out := out + [B(if jt <= LAST_SHORT then 0xE9 else 0xE8)];
            offsett' := offsett' + 3;
            out := out + [B(0), B(0), Mark(OJUMPREL, want)];
          }
        case Line(num) => out := out + [Mark(OLINE, num)];
        case Code(bytes) =>
          offsett' := offsett + |bytes|;
          out := out + Bytes(bytes);
      }
    }

    /** Third scan: write the records up to the cut.  The scan arrives at every
        label with the offset the table gives it. */
    method Scan3(slab: nat, eoseg: bool) returns (c: nat, offsett: nat, bad: bool)
      requires labels.Length == laboff.Length == MAXLAB && labels != laboff
      requires slab + Labels(pipe) == pipelab <= MAXLAB
      requires Tab()[slab..] == LabTab(pipe, true) && Emittable(pipe, Tab())
      modifies this`out, this`locs
      ensures c == Cut(pipe, eoseg) && offsett == Size(pipe[..c]) && !bad
      ensures Emittable(pipe[..c], Tab()) && out == old(out) + Emit(pipe[..c], Tab())
      ensures locs == old(locs) + EmitLocals(pipe[..c], offs) && offs == old(offs)
    {
      hide LabTab, Labels, Size, Entries, Emit1, Emit, EmitLocals, Width, Cut, Emittable1, Emittable;
      var t, stop := Tab(), Width(pipe) - (if eoseg then 0 else KEEP);
      var at, mlab := 0, slab;
      c, offsett, bad := 0, 0, false;
      EmitStart(pipe, t, offs);
      CutStart(pipe, eoseg);
      while at < stop
        invariant c <= |pipe| && at == Width(pipe[..c]) && mlab == slab + Labels(pipe[..c])
        invariant offsett == Size(pipe[..c]) && !bad
        invariant CutFurther(pipe, eoseg, c)
        invariant Emittable(pipe[..c], t) && out == old(out) + Emit(pipe[..c], t)
        invariant locs == old(locs) + EmitLocals(pipe[..c], offs)
        decreases |pipe| - c
      {
        CutStep(pipe, eoseg, c);
        TabStep(pipe, c, true);
        EmitStep(pipe, t, c, offs);
        if pipe[c].Local? { LabelHere(pipe, t, slab, c); }
        at := at + Width1(pipe[c]);
        mlab, offsett, bad := Write3(c, mlab, offsett);
        c := c + 1;
      }
      CutEnd(pipe, eoseg, c);
    }

    method KeepLabel(i: nat, offsett: int)
      requires labels.Length == laboff.Length == MAXLAB && labels != laboff && pipelab <= i < MAXLAB
      modifies this`pipelab, labels, laboff
      ensures pipelab == old(pipelab) + 1
      ensures Tab() == old(Tab()) + [Entry(old(labels[i]), old(laboff[i]) - offsett)]
      ensures forall j :: i < j < MAXLAB ==> labels[j] == old(labels[j]) && laboff[j] == old(laboff[j])
    {
      labels[pipelab], laboff[pipelab] := labels[i], laboff[i] - offsett;
      pipelab := pipelab + 1;
      assert forall j :: 0 <= j < old(pipelab) ==> Tab()[j] == old(Tab())[j];
    }

    /** Keep the labels the next call may need: those in the last 128 bytes. */
    method CarryOver(eoseg: bool, offsett: int)
      requires labels.Length == laboff.Length == MAXLAB && labels != laboff && pipelab <= MAXLAB
      requires Sorted(Tab())
      modifies this`pipelab, labels, laboff
      ensures offs == old(offs) && out == old(out) && locs == old(locs) && pipe == old(pipe)
      ensures pipelab <= MAXLAB && Tab() == if eoseg then [] else Carry(old(Tab()), offsett)
    {
      hide Carry, Entries, Sorted;
      ghost var t := Tab();
      var mlab := pipelab;
      pipelab := 0;
      EntriesMean(labels[..], laboff[..], mlab);
      EntriesMean(labels[..], laboff[..], 0);
      if eoseg { return; }
      var lastoff, i := offsett - 128, 0;
      CarryNone(t, offsett);
      while i < mlab
        invariant pipelab <= i <= mlab == |t| && mlab <= MAXLAB
        invariant Tab() == Carry(t[..i], offsett)
        invariant forall j :: i <= j < mlab ==> labels[j] == t[j].lab && laboff[j] == t[j].off
      {
        CarryStep(t, offsett, i);
        if laboff[i] > lastoff {
          if laboff[i] > offsett {
            CarryStops(t, offsett, i);
            return;
          }
          KeepLabel(i, offsett);
        }
        i := i + 1;
      }
      assert t[..i] == t;
    }

    /** The first two scans. */
    method ScanTwice()
      requires Valid() && pipelab + Labels(pipe) <= MAXLAB
      modifies this`pipe, this`pipelab, labels, laboff
      ensures var q := Resolve(old(Tab()), old(pipe), |old(pipe)|);
              && pipe == q && pipelab == old(pipelab) + Labels(old(pipe)) <= MAXLAB
              && Tab() == old(Tab()) + LabTab(q, true)
      ensures offs == old(offs) && out == old(out) && locs == old(locs)
    {
      hide Resolve, LabTab, Labels, Entries, SortedTo;
      ghost var tab := Tab();
      var slab := pipelab;
      Scan1();
      Joined(tab, LabTab(pipe, false));
      Scan2(slab);
    }

    /** The scans and the carrying over, for a pipe with something in it. */
    method Scans(eoseg: bool) returns (c: nat, offsett: nat, bad: bool)
      requires Valid() && pipelab + Labels(pipe) <= MAXLAB && Width(pipe) <= PIPESIZE && pipe != []
      modifies this`pipe, this`pipelab, this`out, this`locs, labels, laboff
      ensures !bad && pipelab <= MAXLAB && SortedTo(Tab(), 0) && offsett <= 2 * PIPESIZE && c <= |pipe|
      ensures State(Tab(), pipe[c..], offs + offsett, out, locs) == Step(old(Abs()), eoseg)
    {
      hide Step, Resolve, LabTab, Labels, Size, Worst, Width;
      hide Cut, Entries, Emit, EmitLocals, Carry, Emittable, SortedTo;
      ghost var s := Abs();
      ghost var q := Resolve(s.tab, pipe, |pipe|);
      var slab := pipelab;
      StepParts(s, eoseg);
      ScanTwice();
      Joined(s.tab, LabTab(q, true));
      c, offsett, bad := Scan3(slab, eoseg);
      CarryOver(eoseg, offsett);
      SortedNothing();
    }

    /** The whole of `flush`.  `over` is its "segment over 64K" test, made on
        signed 16-bit integers; when it fires the segment offset stays. */
    method Flush(eoseg: bool) returns (over: bool, bad: bool)
      requires Valid() && pipelab + Labels(pipe) <= MAXLAB && Width(pipe) <= PIPESIZE
      modifies this, labels, laboff
      ensures Valid() && labels == old(labels) && laboff == old(laboff)
      ensures !bad
      ensures over <==> Step(old(Abs()), eoseg).base > MAXINT
      ensures Abs() == if over then Step(old(Abs()), eoseg).(base := old(offs)) else Step(old(Abs()), eoseg)
    {
      hide Step, Labels, Width, Entries, SortedTo;
      over, bad := false, false;
      if pipe == [] {
        StepEmpty(Abs(), eoseg);
        return;
      }
      var c, offsett;
      c, offsett, bad := Scans(eoseg);
      var sum := offs + offsett;
      if sum > MAXINT { sum := sum - 2 * (MAXINT + 1); }
      if sum < offs {
        over := true;
      } else {
        offs := sum;
      }
      pipe := pipe[c..];
    }
  }

  lemma StepEmpty(s: State, eoseg: bool)
    requires s.pipe == []
    ensures Step(s, eoseg) == s
  {
  }

  lemma SortedNothing()
    ensures SortedTo([], 0)
  {
  }

  /** What the second scan does at record `k`, in terms of its tables. */
  lemma ScanStep(carried: Table, pipe: seq<Rec>, k: nat)
    requires k < |pipe|
    ensures var q := Resolve(carried, pipe, k); var r := Decision(carried, pipe, q);
            var q' := Resolve(carried, pipe, k+1); var mix := MixTab(carried, pipe, q);
            && q' == q + [r]
            && Worst(pipe[..k+1]) == Worst(pipe[..k]) + Worst1(pipe[k])
            && Size(q') == Size(q) + Size1(r)
            && Labels(q') == Labels(q) + (if pipe[k].Local? then 1 else 0)
            && |carried| + Labels(q') <= |mix|
            && MixTab(carried, pipe, q') ==
               (if pipe[k].Local? then mix[|carried| + Labels(q) := Entry(pipe[k].lab, Size(q))] else mix)
            && (pipe[k].Local? ==> mix[|carried| + Labels(q)].lab == pipe[k].lab)
  {
    var q := Resolve(carried, pipe, k);
    ResolveStep(carried, pipe, k);
    var q' := Resolve(carried, pipe, k+1);
    hide Resolve, Decision, LabTab, Labels, Size, Worst;
    assert q'[..k] == q && q'[..k+1] == q';
    TabStep(pipe, k, false);
    TabStep(q', k, true);
    TabPrefix(pipe, k+1, false);
    MixStep(carried, LabTab(q, true), LabTab(pipe, false), LabTab(pipe[..k+1], false),
            if pipe[k].Local? then [Entry(pipe[k].lab, Size(q))] else []);
  }

  lemma Replaced(q: seq<Rec>, p: seq<Rec>, k: nat, r: Rec)
    requires |q| == k < |p|
    ensures (q + p[k..])[k] == p[k]
    ensures (q + p[k..])[k := r] == q + [r] + p[k+1..]
    ensures p[k] == r ==> q + p[k..] == q + [r] + p[k+1..]
  {
  }

  lemma MixStep(a: Table, b: Table, w: Table, w': Table, e: Table)
    requires |e| <= 1 && |w'| == |b| + |e| <= |w| && w' == w[..|w'|]
    requires |e| == 1 ==> w'[|b|].lab == e[0].lab
    ensures var mix := a + b + w[|b|..];
            && a + (b + e) + w[|b|+|e|..] == (if |e| == 1 then mix[|a|+|b| := e[0]] else mix)
            && (|e| == 1 ==> mix[|a|+|b|].lab == e[0].lab)
  {
  }

  lemma DecisionIs(carried: Table, pipe: seq<Rec>, k: nat)
    requires k < |pipe|
    ensures var q := Resolve(carried, pipe, k);
            Decision(carried, pipe, q) == Decide(pipe[k], MixTab(carried, pipe, q), Size(q), Worst(pipe[..k]) - Size(q))
  {
  }

  lemma ScanStart(carried: Table, pipe: seq<Rec>)
    ensures Resolve(carried, pipe, 0) == [] && pipe[0..] == pipe && pipe[..0] == []
    ensures Labels([]) == Size([]) == Worst([]) == 0
    ensures MixTab(carried, pipe, []) == carried + LabTab(pipe, false)
  {
  }

  lemma ScanEnd(carried: Table, pipe: seq<Rec>)
    ensures var q := Resolve(carried, pipe, |pipe|);
            q + pipe[|pipe|..] == q && MixTab(carried, pipe, q) == carried + LabTab(q, true)
  {
    assert pipe[..|pipe|] == pipe;
  }

  // ----- the third scan's loop

  lemma EmitStart(q: seq<Rec>, t: Table, base: int)
    ensures Emittable(q[..0], t) && Emit(q[..0], t) == [] && EmitLocals(q[..0], base) == []
    ensures Size(q[..0]) == Labels(q[..0]) == Width(q[..0]) == 0
  {
  }

  lemma EmitStep(q: seq<Rec>, t: Table, k: nat, base: int)
    requires k < |q| && Emittable(q, t)
    ensures Emittable(q[..k], t) && Emittable(q[..k+1], t) && Emittable1(q[k], t)
    ensures Emit(q[..k+1], t) == Emit(q[..k], t) + Emit1(q[k], t, Size(q[..k]))
    ensures EmitLocals(q[..k+1], base) ==
            EmitLocals(q[..k], base) + if q[k].Local? then [Entry(q[k].lab, Size(q[..k]) + base)] else []
    ensures Width(q[..k+1]) == Width(q[..k]) + Width1(q[k])
  {
    assert q[..k+1][..k] == q[..k];
    assert Emittable1(q[k], t);
    assert forall i :: 0 <= i < k ==> Emittable1(q[i], t);
  }

  /** The table entry the third scan compares with its own offset. */
  lemma LabelHere(q: seq<Rec>, t: Table, slab: nat, k: nat)
    requires k < |q| && q[k].Local? && slab + Labels(q) == |t| && t[slab..] == LabTab(q, true)
    ensures Labels(q[..k]) < Labels(q) && t[slab + Labels(q[..k])] == Entry(q[k].lab, Size(q[..k]))
  {
    RecordEntry(q, true, k);
    assert t[slab..][Labels(q[..k])] == t[slab + Labels(q[..k])];
  }

  /** The cut has not been passed. */
  ghost predicate CutFurther(q: seq<Rec>, eoseg: bool, k: nat)
    requires k <= |q|
  {
    !eoseg ==> CutFrom(q, k) == Cut(q, eoseg)
  }

  lemma CutStart(q: seq<Rec>, eoseg: bool)
    ensures CutFurther(q, eoseg, 0)
  {
  }

  lemma {:induction false} WidthGrows(q: seq<Rec>, k: nat)
    requires k <= |q|
    ensures Width(q[..k]) + (|q| - k) <= Width(q)
    decreases |q| - k
  {
    if k < |q| {
      WidthGrows(q, k+1);
      assert q[..k+1][..k] == q[..k];
    } else {
      assert q[..k] == q;
    }
  }

  lemma CutStep(q: seq<Rec>, eoseg: bool, k: nat)
    requires k <= |q| && CutFurther(q, eoseg, k)
    requires Width(q[..k]) < Width(q) - (if eoseg then 0 else KEEP)
    ensures k < |q| && CutFurther(q, eoseg, k+1)
  {
    assert q[..|q|] == q;
  }

  lemma CutEnd(q: seq<Rec>, eoseg: bool, k: nat)
    requires k <= |q| && CutFurther(q, eoseg, k)
    requires Width(q[..k]) >= Width(q) - (if eoseg then 0 else KEEP)
    ensures k == Cut(q, eoseg)
  {
    WidthGrows(q, k);
  }

  // ----- the parts of a step

  lemma EntriesMean(labels: seq<int>, laboff: seq<int>, n: nat)
    requires n <= |labels| && n <= |laboff|
    ensures n == 0 ==> Entries(labels, laboff, n) == []
  {
  }

  lemma CarryNone(t: Table, off: int)
    ensures Carry(t[..0], off) == []
  {
  }

  lemma CarryStep(t: Table, off: int, i: nat)
    requires i < |t|
    ensures Carry(t[..i+1], off) ==
            Carry(t[..i], off) + if off - 128 < t[i].off <= off then [Entry(t[i].lab, t[i].off - off)] else []
  {
    assert t[..i+1][..i] == t[..i];
  }

  lemma {:induction false} CarryStops(t: Table, off: int, i: nat)
    requires i < |t| && Sorted(t) && t[i].off > off
    ensures Carry(t, off) == Carry(t[..i], off)
  {
    var k := |t|-1;
    if i < k {
      CarryStops(t[..k], off, i);
      assert t[..k][..i] == t[..i];
    }
  }

  lemma {:induction false} TabSorted(q: seq<Rec>)
    ensures SortedTo(LabTab(q, true), Size(q))
    ensures forall i :: 0 <= i < Labels(q) ==> LabTab(q, true)[i].off >= 0
  {
    if q != [] {
      TabSorted(q[..|q|-1]);
    }
  }

  lemma FullSorted(tab: Table, q: seq<Rec>)
    requires SortedTo(tab, 0)
    ensures Sorted(tab + LabTab(q, true))
  {
    TabSorted(q);
  }

  lemma {:induction false} CarrySorted(t: Table, off: int)
    requires Sorted(t)
    ensures SortedTo(Carry(t, off), 0)
    ensures forall i :: 0 <= i < |Carry(t, off)| ==> Carry(t, off)[i].off <= t[|t|-1].off - off
  {
    if t != [] {
      var k := |t|-1;
      assert Sorted(t[..k]);
      CarrySorted(t[..k], off);
    }
  }

  lemma Joined(a: Table, b: Table)
    ensures (a + b)[..|a|] == a && (a + b)[|a|..] == b
  {
  }

  lemma {:induction false} SameWidth(q: seq<Rec>, p: seq<Rec>)
    requires |q| == |p| && forall i :: 0 <= i < |q| ==> Same(q[i], p[i])
    ensures Width(q) == Width(p)
  {
    if q != [] {
      SameWidth(q[..|q|-1], p[..|p|-1]);
    }
  }

  lemma {:induction false} SameCut(q: seq<Rec>, p: seq<Rec>, k: nat)
    requires |q| == |p| && forall i :: 0 <= i < |q| ==> Same(q[i], p[i])
    requires k <= |q|
    ensures CutFrom(q, k) == CutFrom(p, k)
    decreases |q| - k
  {
    SameWidth(q[..k], p[..k]);
    SameWidth(q, p);
    if k < |q| {
      SameCut(q, p, k+1);
    }
  }

  lemma {:induction false} SizeByWidth(q: seq<Rec>)
    ensures 4 * Size(q) <= 5 * Width(q)
  {
    if q != [] {
      SizeByWidth(q[..|q|-1]);
    }
  }

  /** What the methods establish, assembled into the step. */
  lemma StepParts(s: State, eoseg: bool)
    requires s.pipe != [] && SortedTo(s.tab, 0) && Width(s.pipe) <= PIPESIZE
    ensures var q := Resolve(s.tab, s.pipe, |s.pipe|); var t := s.tab + LabTab(q, true);
            var c := Cut(q, eoseg); var off := Size(q[..c]);
            && Labels(q) == Labels(s.pipe) && Emittable(q, t) && Emittable(q[..c], t)
            && Sorted(t) && SortedTo(Carry(t, off), 0)
            && off <= 2 * PIPESIZE
            && Step(s, eoseg) == State(if eoseg then [] else Carry(t, off), q[c..], s.base + off,
                                       s.out + Emit(q[..c], t), s.locs + EmitLocals(q[..c], s.base))
  {
    hide Resolve, LabTab, Labels, Size, Width, Cut, Emit, EmitLocals, Carry, Emittable1, Sorted, Step, Same;
    var q := Resolve(s.tab, s.pipe, |s.pipe|);
    var t, c := s.tab + LabTab(q, true), Cut(q, eoseg);
    SameLabels(q, s.pipe);
    ResolvedIsEmittable(s.tab, s.pipe);
    FullSorted(s.tab, q);
    CarrySorted(t, Size(q[..c]));
    SameWidth(q, s.pipe);
    SizeByWidth(q[..c]);
    WidthGrows(q, c);
    StepIs(s, eoseg);
  }

  lemma StepIs(s: State, eoseg: bool)
    requires s.pipe != []
    ensures var q := Resolve(s.tab, s.pipe, |s.pipe|); var t := s.tab + LabTab(q, true);
            var c := Cut(q, eoseg); var off := Size(q[..c]);
            && Emittable(q[..c], t)
            && Step(s, eoseg) == State(if eoseg then [] else Carry(t, off), q[c..], s.base + off,
                                       s.out + Emit(q[..c], t), s.locs + EmitLocals(q[..c], s.base))
  {
    hide Resolve, LabTab, Labels, Size, Width, CutFrom, Emit, EmitLocals, Carry, Emittable1, Same;
    var q := Resolve(s.tab, s.pipe, |s.pipe|);
    SameCut(q, s.pipe, 0);
    ResolvedIsEmittable(s.tab, s.pipe);
    assert forall i :: 0 <= i < Cut(q, eoseg) ==> Emittable1(q[i], s.tab + LabTab(q, true));
  }
}
