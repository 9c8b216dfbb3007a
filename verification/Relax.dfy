/** The jump-size relaxation of the code generator's `flush`, as functions on
    records: what its three scans compute, and the step one call takes. */
module Relax {
  import opened Common

  /** A record of the pipe.  `jt` is the jump type (0-15 conditional, 16-19 the
      LOOP family, 20 JMP, 21 CALL); `far` is the 0x80 bit that the second scan
      sets in the type byte of a jump it cannot make short. */
  datatype Rec =
    | Code(bytes: seq<Byte>)
    | Local(lab: int)
    | Jump(jt: nat, far: bool, want: int)
    | Fix(kind: int, num: int)
    | Line(num: int)

  /** One slot of the parallel arrays `labels` and `laboff`. */
  datatype Entry = Entry(lab: int, off: int)
  type Table = seq<Entry>

  const LAST_SHORT: nat := 20
  const REACH: int := 129
  const KEEP: int := 256

  // ----- sizes of records and of runs of records

  function Worst1(r: Rec): (n: nat) {
    match r
    case Code(bytes) => |bytes|
    case Jump(_, _, _) => 5
    case _ => 0
  }

  function Size1(r: Rec): (n: nat) {
    match r
    case Code(bytes) => |bytes|
    case Jump(jt, far, _) => if !far then 2 else if jt < LAST_SHORT then 5 else 3
    case _ => 0
  }

  /** Bytes the record occupies in the pipe buffer. */
  function Width1(r: Rec): (n: nat) {
    match r
    case Code(bytes) => 1 + |bytes|
    case Jump(_, _, _) => 4
    case _ => 3
  }

  function Worst(s: seq<Rec>): (n: nat) {
    if s == [] then 0 else Worst(s[..|s|-1]) + Worst1(s[|s|-1])
  }

  function Size(s: seq<Rec>): (n: nat) {
    if s == [] then 0 else Size(s[..|s|-1]) + Size1(s[|s|-1])
  }

  function Width(s: seq<Rec>): (n: nat) {
    if s == [] then 0 else Width(s[..|s|-1]) + Width1(s[|s|-1])
  }

  // ----- the label table

  function Off(s: seq<Rec>, exact: bool): (n: nat) {
    if exact then Size(s) else Worst(s)
  }

  /** The labels of a run: at worst-case offsets as the first scan records them,
      or at the exact offsets to which the second scan moves them. */
  function LabTab(s: seq<Rec>, exact: bool): (t: Table) {
    if s == [] then [] else
      var k := |s|-1;
      LabTab(s[..k], exact) + if s[k].Local? then [Entry(s[k].lab, Off(s[..k], exact))] else []
  }

  function Labels(s: seq<Rec>): (n: nat)
    ensures |LabTab(s, true)| == |LabTab(s, false)| == n
  {
    if s == [] then 0 else Labels(s[..|s|-1]) + if s[|s|-1].Local? then 1 else 0
  }

  /** The table in the middle of the second scan: carried labels, labels already
      passed (exact), labels still ahead (worst case). */
  function MixTab(carried: Table, pipe: seq<Rec>, done: seq<Rec>): (t: Table)
    requires Labels(done) <= Labels(pipe)
  {
    carried + LabTab(done, true) + LabTab(pipe, false)[Labels(done)..]
  }

  /** Index of the first entry for a label, or the length of the table. */
  function Find(t: Table, want: int): (i: nat)
    ensures i <= |t|
    ensures i < |t| ==> t[i].lab == want
    ensures forall j :: 0 <= j < i ==> t[j].lab != want
  {
    FindFrom(t, want, 0)
  }

  function FindFrom(t: Table, want: int, k: nat): (i: nat)
    requires k <= |t|
    ensures k <= i <= |t|
    ensures i < |t| ==> t[i].lab == want
    ensures forall j :: k <= j < i ==> t[j].lab != want
    decreases |t| - k
  {
    if k == |t| || t[k].lab == want then k else FindFrom(t, want, k+1)
  }

  // ----- the second scan

  function Dif(lo: int, off: int, saved: int): int {
    if lo <= off then off - lo + 3 else lo - off - saved
  }

  predicate Near(t: Table, want: int, off: int, saved: int) {
    var i := Find(t, want);
    i < |t| && Dif(t[i].off, off, saved) <= REACH
  }

  function Decide(r: Rec, t: Table, off: int, saved: int): Rec {
    if r.Jump? && (r.far || r.jt > LAST_SHORT || !Near(t, r.want, off, saved))
    then r.(far := true) else r
  }

  /** The first `k` records of the pipe as the second scan leaves them. */
  function Resolve(carried: Table, pipe: seq<Rec>, k: nat): (q: seq<Rec>)
    requires k <= |pipe|
    ensures |q| == k && Labels(q) == Labels(pipe[..k]) <= Labels(pipe)
    ensures forall i :: 0 <= i < k ==> Same(q[i], pipe[i])
  {
    LabelsOfPrefix(pipe, k);
    if k == 0 then [] else
      var q := Resolve(carried, pipe, k-1);
      assert pipe[..k][..k-1] == pipe[..k-1];
      var r := Decision(carried, pipe, q);
      assert (q + [r])[..k-1] == q;
      q + [r]
  }

  /** What the second scan makes of the record after those in `q`. */
  function Decision(carried: Table, pipe: seq<Rec>, q: seq<Rec>): (r: Rec)
    requires |q| < |pipe| && Labels(q) <= Labels(pipe)
    ensures Same(r, pipe[|q|])
  {
    Decide(pipe[|q|], MixTab(carried, pipe, q), Size(q), Worst(pipe[..|q|]) - Size(q))
  }

  lemma ResolveStep(carried: Table, pipe: seq<Rec>, k: nat)
    requires k < |pipe|
    ensures var q := Resolve(carried, pipe, k);
            Resolve(carried, pipe, k+1) == q + [Decision(carried, pipe, q)]
  {
  }

  /** The same record up to the far bit, which is only ever set. */
  predicate Same(r: Rec, was: Rec) {
    r == was || (was.Jump? && r == was.(far := true))
  }

  lemma {:induction false} LabelsOfPrefix(s: seq<Rec>, k: nat)
    requires k <= |s|
    ensures Labels(s[..k]) <= Labels(s)
    decreases |s| - k
  {
    if k < |s| {
      LabelsOfPrefix(s, k+1);
      assert s[..k+1][..k] == s[..k];
    } else {
      assert s[..k] == s;
    }
  }

  // ----- the third scan

  /** What reaches the object file: bytes, and marks that follow them. */
  datatype Item = B(b: Byte) | Mark(kind: int, num: int)

  const OJUMPREL: int := 7
  const OLINE: int := 16

  function ShortOp(jt: nat): (b: Byte)
    requires jt <= LAST_SHORT
  {
    if jt < 16 then 0x70 + jt
    else if jt < LAST_SHORT then 0xE0 + (jt - 16)
    else 0xEB
  }

  function Invert(jt: nat): nat { if jt % 2 == 0 then jt + 1 else jt - 1 }

  function Bytes(s: seq<Byte>): (items: seq<Item>)
    ensures |items| == |s| && forall i :: 0 <= i < |s| ==> items[i] == B(s[i])
  {
    seq(|s|, i requires 0 <= i < |s| => B(s[i]))
  }

  /** The long form: an inverted short jump over a near jump or call.  LOOP and
      JCXZ (18, 19) are diagnosed but still emitted, uninverted. */
  function FarItems(jt: nat, want: int): (items: seq<Item>) {
    (if jt < LAST_SHORT
     then [B(ShortOp(if jt < 18 then Invert(jt) else jt)), B(3)] else []) +
    [B(if jt <= LAST_SHORT then 0xE9 else 0xE8), B(0), B(0), Mark(OJUMPREL, want)]
  }

  function ShortItems(jt: nat, disp: int): (items: seq<Item>)
    requires jt <= LAST_SHORT
  {
    [B(ShortOp(jt)), B(disp % 256)]
  }

  predicate Emittable1(r: Rec, t: Table) {
    r.Jump? && !r.far ==> r.jt <= LAST_SHORT && Find(t, r.want) < |t|
  }

  ghost predicate Emittable(q: seq<Rec>, t: Table) {
    forall i {:trigger Emittable1(q[i], t)} :: 0 <= i < |q| ==> Emittable1(q[i], t)
  }

  /** What the third scan writes for one record found at offset `off`. */
  function Emit1(r: Rec, t: Table, off: int): (items: seq<Item>)
    requires Emittable1(r, t)
  {
    match r
    case Code(bytes) => Bytes(bytes)
    case Local(_) => []
    case Jump(jt, far, want) =>
      if far then FarItems(jt, want)
      else ShortItems(jt, t[Find(t, want)].off - (off + 2))
    case Fix(kind, num) => [Mark(kind, num)]
    case Line(num) => [Mark(OLINE, num)]
  }


  function Emit(q: seq<Rec>, t: Table): (items: seq<Item>)
    requires Emittable(q, t)
  {
    if q == [] then [] else
      var k := |q|-1;
      assert Emittable1(q[k], t);
      assert forall i :: 0 <= i < k ==> Emittable1(q[i], t);
      Emit(q[..k], t) + Emit1(q[k], t, Size(q[..k]))
  }

  /** The label definitions the third scan writes: label and segment offset. */
  function EmitLocals(q: seq<Rec>, base: int): (ls: Table) {
    if q == [] then [] else
      var k := |q|-1;
      EmitLocals(q[..k], base) + if q[k].Local? then [Entry(q[k].lab, Size(q[..k]) + base)] else []
  }

  // ----- what is carried to the next call

  /** Labels in the 128 bytes before the cut, relative to the cut. */
  function Carry(t: Table, off: int): (c: Table) {
    if t == [] then [] else
      var k := |t|-1;
      Carry(t[..k], off) +
      if off - 128 < t[k].off <= off then [Entry(t[k].lab, t[k].off - off)] else []
  }

  /** Records written by this call: all of them, or, when not at the end of the
      segment, the shortest run leaving at most 256 bytes of pipe. */
  function Cut(pipe: seq<Rec>, eoseg: bool): (c: nat)
    ensures c <= |pipe|
  {
    if eoseg then |pipe| else CutFrom(pipe, 0)
  }

  function CutFrom(pipe: seq<Rec>, k: nat): (c: nat)
    requires k <= |pipe|
    ensures k <= c <= |pipe|
    ensures c < |pipe| ==> Width(pipe[..c]) >= Width(pipe) - KEEP
    decreases |pipe| - k
  {
    if k < |pipe| && Width(pipe[..k]) < Width(pipe) - KEEP then CutFrom(pipe, k+1) else k
  }

  /** The state between calls: carried labels, records still in the pipe, where
      the segment has got to, and what has been written. */
  datatype State = State(tab: Table, pipe: seq<Rec>, base: int, out: seq<Item>, locs: Table)

  /** The table the third scan reads. */
  function Full(s: State): (t: Table) {
    s.tab + LabTab(Resolve(s.tab, s.pipe, |s.pipe|), true)
  }

  function Step(s: State, eoseg: bool): (s': State) {
    if s.pipe == [] then s else
      var q := Resolve(s.tab, s.pipe, |s.pipe|);
      var t := Full(s);
      var c := Cut(s.pipe, eoseg);
      var off := Size(q[..c]);
      ResolvedIsEmittable(s.tab, s.pipe);
      assert forall i :: 0 <= i < c ==> Emittable1(q[i], t);
      State(if eoseg then [] else Carry(t, off),
            q[c..],
            s.base + off,
            s.out + Emit(q[..c], t),
            s.locs + EmitLocals(q[..c], s.base))
  }

  /** Every jump left short names a label of the table, so the third scan's
      search for it ends. */
  lemma ResolvedIsEmittable(carried: Table, pipe: seq<Rec>)
    ensures var q := Resolve(carried, pipe, |pipe|);
            Emittable(q, carried + LabTab(q, true))
  {
    hide LabTab, Labels, Resolve, MixTab, Size, Worst;
    var q := Resolve(carried, pipe, |pipe|);
    var t := carried + LabTab(q, true);
    forall k | 0 <= k < |q| ensures Emittable1(q[k], t) {
      ShortIsNear(carried, pipe, k);
      MixHasFullLabels(carried, pipe, k);
      if q[k].Jump? && !q[k].far {
        assert t[Find(MixTab(carried, pipe, Resolve(carried, pipe, k)), q[k].want)].lab == q[k].want;
      }
    }
  }

  /** A jump left short was near when the second scan reached it. */
  lemma ShortIsNear(carried: Table, pipe: seq<Rec>, k: nat)
    requires k < |pipe|
    ensures var q := Resolve(carried, pipe, |pipe|); var r := Resolve(carried, pipe, k);
            q[k] == Decision(carried, pipe, r)
  {
    hide Decision;
    ResolvePrefix(carried, pipe, k+1, |pipe|);
    ResolveStep(carried, pipe, k);
  }

  lemma MixHasFullLabels(carried: Table, pipe: seq<Rec>, k: nat)
    requires k <= |pipe|
    ensures var full := carried + LabTab(Resolve(carried, pipe, |pipe|), true);
            var mix := MixTab(carried, pipe, Resolve(carried, pipe, k));
            |mix| == |full| && forall i :: 0 <= i < |mix| ==> mix[i].lab == full[i].lab
  {
    hide LabTab, Labels, Resolve;
    var q := Resolve(carried, pipe, |pipe|);
    var r := Resolve(carried, pipe, k);
    ResolvePrefix(carried, pipe, k, |pipe|);
    SameLabels(q, pipe);
    TabPrefix(q, k, true);
    assert q[..k] == r;
    assert LabTab(r, true) == LabTab(q, true)[..Labels(r)];
  }

  lemma {:induction false} ResolvePrefix(carried: Table, pipe: seq<Rec>, k: nat, n: nat)
    requires k <= n <= |pipe|
    ensures Resolve(carried, pipe, k) == Resolve(carried, pipe, n)[..k]
    decreases n
  {
    if k < n {
      ResolvePrefix(carried, pipe, k, n-1);
      assert Resolve(carried, pipe, n)[..n-1] == Resolve(carried, pipe, n-1);
    }
  }

  /** Runs alike up to far bits define the same labels in the same order. */
  lemma {:induction false} SameLabels(q: seq<Rec>, p: seq<Rec>)
    requires |q| == |p| && forall i :: 0 <= i < |q| ==> Same(q[i], p[i])
    ensures Labels(q) == Labels(p)
    ensures forall i :: 0 <= i < Labels(q) ==> LabTab(q, true)[i].lab == LabTab(p, false)[i].lab
  {
    if q != [] {
      SameLabels(q[..|q|-1], p[..|p|-1]);
    }
  }

  lemma {:induction false} TabPrefix(s: seq<Rec>, k: nat, exact: bool)
    requires k <= |s|
    ensures Labels(s[..k]) <= Labels(s)
    ensures LabTab(s[..k], exact) == LabTab(s, exact)[..Labels(s[..k])]
    decreases |s| - k
  {
    if k < |s| {
      TabPrefix(s, k+1, exact);
      assert s[..k+1][..k] == s[..k];
    } else {
      assert s[..k] == s;
    }
  }
}
