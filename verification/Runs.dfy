/** Whole runs of flush: what is written for a segment does not depend on
    where the calls cut it. */
module Runs {
  import opened Relax
  import opened Stability
  import opened Segment

  // ----- the code a settled segment stands for

  /** Distance from the end of jump `i` to its label. */
  function Disp(g: seq<Rec>, i: nat): int
    requires i < |g| && g[i].Jump?
  {
    Size(g[..Pos(g, g[i].want)]) - Size(g[..i+1])
  }

  function Code1(g: seq<Rec>, i: nat): (items: seq<Item>)
    requires i < |g|
  {
    match g[i]
    case Code(bytes) => Bytes(bytes)
    case Local(_) => []
    case Jump(jt, far, want) =>
      if far || jt > LAST_SHORT then FarItems(jt, want) else ShortItems(jt, Disp(g, i))
    case Fix(kind, num) => [Mark(kind, num)]
    case Line(num) => [Mark(OLINE, num)]
  }

  function CodeOf(g: seq<Rec>, n: nat): (items: seq<Item>)
    requires n <= |g|
  {
    if n == 0 then [] else CodeOf(g, n-1) + Code1(g, n-1)
  }

  lemma Code1Stable(g: seq<Rec>, h: seq<Rec>, i: nat)
    requires i < |g| <= |h| && h[..|g|] == g && SettledAt(g, i)
    ensures Code1(g, i) == Code1(h, i)
  {
    assert h[i] == h[..|g|][i];
    if g[i].Jump? && !g[i].far {
      var p := Pos(g, g[i].want);
      PosConcat(g, h[|g|..], g[i].want);
      assert g + h[|g|..] == h;
      assert h[..p] == g[..p] && h[..i+1] == g[..i+1];
    }
  }

  lemma {:induction false} CodeStable(g: seq<Rec>, h: seq<Rec>, n: nat)
    requires n <= |g| <= |h| && h[..|g|] == g && Settled(g)
    ensures CodeOf(g, n) == CodeOf(h, n)
  {
    if n > 0 {
      assert SettledAt(g, n-1);
      CodeStable(g, h, n-1);
      Code1Stable(g, h, n-1);
    }
  }

  // ----- the third scan writes that code

  lemma EntryGivesDisp(done: seq<Rec>, q: seq<Rec>, k: nat, e: Entry)
    requires k < |q| && q[k].Jump? && !q[k].far && q[k].want == e.lab
    requires ExactEntry(done, q, e)
    ensures e.off - (Size(q[..k]) + 2) == Disp(done + q, |done| + k)
  {
    var g := done + q;
    PosConcat(done, q, e.lab);
    hide Pos, Size;
    assert g[..|done|+k+1] == done + q[..k+1];
    SumConcat(done, q[..k+1]);
    SizeStep(q, k);
    var p, j := Pos(done, e.lab), Pos(q, e.lab);
    if p < |done| {
      assert g[..p] == done[..p];
      Split(done, p);
    } else {
      assert g[..|done|+j] == done + q[..j];
      SumConcat(done, q[..j]);
    }
  }

  lemma SizeStep(s: seq<Rec>, k: nat)
    requires k < |s|
    ensures Size(s[..k+1]) == Size(s[..k]) + Size1(s[k])
  {
    assert s[..k+1][..k] == s[..k];
  }

  lemma EmitIsCode1(done: seq<Rec>, pipe: seq<Rec>, carried: Table, q: seq<Rec>, k: nat)
    requires Scanned(done, pipe, carried, q) && k < |q|
    requires SettledAt(done + q, |done| + k)
    requires Emittable1(q[k], carried + LabTab(q, true))
    ensures Emit1(q[k], carried + LabTab(q, true), Size(q[..k])) == Code1(done + q, |done| + k)
  {
    hide Scanned, SettledAt, ExactEntry, LabTab, Size, Disp, FarItems, Bytes;
    if q[k].Jump? && !q[k].far {
      var t := carried + LabTab(q, true);
      var i := Find(t, q[k].want);
      FullEntryExact(done, pipe, carried, q, i);
      EntryGivesDisp(done, q, k, t[i]);
    }
  }

  ghost predicate Agrees(done: seq<Rec>, q: seq<Rec>, t: Table, k: nat)
    requires k < |q|
  {
    Emittable1(q[k], t) && Emit1(q[k], t, Size(q[..k])) == Code1(done + q, |done| + k)
  }

  lemma {:induction false} EmitIsCode(done: seq<Rec>, q: seq<Rec>, t: Table, c: nat)
    requires c <= |q| && forall k {:trigger Agrees(done, q, t, k)} :: 0 <= k < c ==> Agrees(done, q, t, k)
    requires Emittable(q[..c], t)
    ensures CodeOf(done + q, |done|) + Emit(q[..c], t) == CodeOf(done + q, |done| + c)
  {
    hide Emit1, Code1, Emittable1, Size;
    if c > 0 {
      assert q[..c][..c-1] == q[..c-1];
      assert forall i :: 0 <= i < c-1 ==> Emittable1(q[..c][i], t);
      EmitIsCode(done, q, t, c-1);
      assert Agrees(done, q, t, c-1);
    }
  }

  /** Whatever the cut, the third scan writes the segment's code. */
  lemma EmitAgrees(done: seq<Rec>, s: State, c: nat)
    requires TableOK(done, s.pipe, s.tab) && Distinct(done + s.pipe)
    requires c <= |s.pipe| && Settled(done + Resolve(s.tab, s.pipe, |s.pipe|))
    ensures var q := Resolve(s.tab, s.pipe, |s.pipe|); var g := done + q;
            Emittable(q[..c], Full(s)) && CodeOf(g, |done|) + Emit(q[..c], Full(s)) == CodeOf(g, |done| + c)
  {
    hide TableOK, Distinct, SettledAt, Emit1, Code1, Size, CodeOf, Emit, LabTab, Scanned;
    var q, t := Resolve(s.tab, s.pipe, |s.pipe|), Full(s);
    ScannedAfterScan(done, s);
    ResolvedIsEmittable(s.tab, s.pipe);
    forall k {:trigger Agrees(done, q, t, k)} | 0 <= k < c ensures Agrees(done, q, t, k) {
      assert SettledAt(done + q, |done| + k);
      assert Emittable1(q[k], t);
      EmitIsCode1(done, s.pipe, s.tab, q, k);
    }
    assert forall i :: 0 <= i < c ==> Emittable1(q[i], t);
    EmitIsCode(done, q, t, c);
  }

  lemma {:induction false} LocalsConcat(a: seq<Rec>, b: seq<Rec>, base: int)
    ensures EmitLocals(a + b, base) == EmitLocals(a, base) + EmitLocals(b, base + Size(a))
    decreases |b|
  {
    if b == [] {
      assert a + b == a;
    } else {
      var k := |b|-1;
      LocalsConcat(a, b[..k], base);
      assert (a + b)[..|a+b|-1] == a + b[..k];
      SumConcat(a, b[..k]);
    }
  }

  // ----- the invariant between calls

  /** `done` is the segment written so far, from segment offset `start`; the
      first `h` records of the pipe have been through a scan. */
  ghost predicate Inv(done: seq<Rec>, s: State, h: nat, start: int) {
    && h <= |s.pipe|
    && TableOK(done, s.pipe, s.tab)
    && Settled(done + s.pipe[..h])
    && s.base == start + Size(done)
    && s.out == CodeOf(done + s.pipe[..h], |done|)
    && s.locs == EmitLocals(done, start)
  }

  /** One call, whatever it cuts: what it writes is a further stretch of the
      one settled segment ... */
  lemma StepWrites(done: seq<Rec>, s: State, h: nat, start: int, eoseg: bool)
    requires Inv(done, s, h, start) && Distinct(done + s.pipe) && s.pipe != []
    requires forall k :: h <= k < |s.pipe| ==> Fresh(s.pipe[k])
    ensures var q := Resolve(s.tab, s.pipe, |s.pipe|); var c := Cut(s.pipe, eoseg);
            var s' := Step(s, eoseg);
            && Settled(done + q)
            && s'.base == start + Size(done + q[..c])
            && s'.out == CodeOf(done + q, |done| + c)
            && s'.locs == EmitLocals(done + q[..c], start)
  {
    hide Emit, CodeOf, EmitLocals, Settled, Size, Resolve, TableOK, LabTab, Carry, Cut, Distinct;
    var q, c := Resolve(s.tab, s.pipe, |s.pipe|), Cut(s.pipe, eoseg);
    ScanKeeps(done, s.pipe, s.tab, h);
    ScanSettles(done, s.pipe, s.tab, h);
    assert (done + q)[..|done + s.pipe[..h]|] == done + s.pipe[..h];
    CodeStable(done + s.pipe[..h], done + q, |done|);
    EmitAgrees(done, s, c);
    LocalsConcat(done, q[..c], start);
    SumConcat(done, q[..c]);
  }

  /** ... and the next call starts from the same invariant. */
  lemma StepKeepsInv(done: seq<Rec>, s: State, h: nat, start: int)
    requires Inv(done, s, h, start) && Distinct(done + s.pipe) && s.pipe != []
    requires forall k :: h <= k < |s.pipe| ==> Fresh(s.pipe[k])
    ensures var q := Resolve(s.tab, s.pipe, |s.pipe|); var c := Cut(s.pipe, false);
            Inv(done + q[..c], Step(s, false), |q| - c, start)
  {
    hide Emit, CodeOf, EmitLocals, Settled, Size, Resolve, LabTab, Carry, Cut, Distinct, Scanned, Sound, Covers;
    var q, c := Resolve(s.tab, s.pipe, |s.pipe|), Cut(s.pipe, false);
    StepWrites(done, s, h, start, false);
    ScannedAfterScan(done, s);
    CarrySound(done, s.pipe, s.tab, q, c);
    CarryCovers(done, s.pipe, s.tab, q, c);
    assert (done + q[..c]) + q[c..] == done + q;
    assert q[c..][..|q[c..]|] == q[c..];
  }

  lemma ScannedAfterScan(done: seq<Rec>, s: State)
    requires TableOK(done, s.pipe, s.tab) && Distinct(done + s.pipe)
    ensures Scanned(done, s.pipe, s.tab, Resolve(s.tab, s.pipe, |s.pipe|))
  {
    assert s.pipe[..|s.pipe|] == s.pipe;
  }

  // ----- whole runs

  function Concat(chunks: seq<seq<Rec>>): seq<Rec> {
    if chunks == [] then [] else chunks[0] + Concat(chunks[1..])
  }

  /** A segment assembled by a run of calls: each chunk of records goes into the
      pipe and is followed by flush(0), the last one by flush(1). */
  function Run(s: State, chunks: seq<seq<Rec>>): (s': State)
    decreases |chunks|
  {
    if chunks == [] then s
    else Run(Step(s.(pipe := s.pipe + chunks[0]), |chunks| == 1), chunks[1..])
  }

  function Begin(start: int): State { State([], [], start, [], []) }

  ghost predicate AllFresh(s: seq<Rec>) {
    forall k :: 0 <= k < |s| ==> Fresh(s[k])
  }

  /** The result of assembling `stream` from segment offset `start`: `g` is the
      stream with every jump given one size for good. */
  ghost predicate Assembled(g: seq<Rec>, stream: seq<Rec>, s: State, start: int) {
    && AlikeAll(g, stream) && Settled(g)
    && s.pipe == []
    && s.base == start + Size(g)
    && s.out == CodeOf(g, |g|)
    && s.locs == EmitLocals(g, start)
  }

  lemma DistinctPrefix(g: seq<Rec>, stream: seq<Rec>)
    requires |g| <= |stream| && AlikeAll(g, stream[..|g|]) && Distinct(stream)
    ensures Distinct(g)
  {
    forall i {:trigger Pos(g, g[i].lab)} | 0 <= i < |g| && g[i].Local? ensures Pos(g, g[i].lab) == i {
      var l := g[i].lab;
      assert Alike(g[i], stream[..|g|][i]);
      assert stream[i] == g[i];
      assert Pos(stream, stream[i].lab) == i;
      PosConcat(stream[..|g|], stream[|g|..], l);
      assert stream[..|g|] + stream[|g|..] == stream;
      AlikePos(g, stream[..|g|], l);
    }
  }

  /** Putting records into the pipe keeps the invariant. */
  lemma AppendKeepsInv(done: seq<Rec>, s: State, start: int, more: seq<Rec>)
    requires Inv(done, s, |s.pipe|, start)
    ensures Inv(done, s.(pipe := s.pipe + more), |s.pipe|, start)
  {
    TableGrows(done, s.pipe, more, s.tab);
    assert (s.pipe + more)[..|s.pipe|] == s.pipe[..|s.pipe|];
  }

  /** The main step of the induction: one chunk and its flush(0). */
  lemma ChunkKeepsInv(done: seq<Rec>, s: State, start: int, more: seq<Rec>, stream: seq<Rec>)
    returns (done': seq<Rec>)
    requires Inv(done, s, |s.pipe|, start) && AllFresh(more)
    requires |done + s.pipe + more| <= |stream| && Distinct(stream)
    requires AlikeAll(done + s.pipe + more, stream[..|done + s.pipe + more|])
    ensures var s' := Step(s.(pipe := s.pipe + more), false);
            && Inv(done', s', |s'.pipe|, start)
            && |done' + s'.pipe| == |done + s.pipe + more|
            && AlikeAll(done' + s'.pipe, done + s.pipe + more)
  {
    hide TableOK, Settled, CodeOf, EmitLocals, Size, Distinct, Resolve;
    hide Cut, Step, Alike, AlikeAll, Fresh, Inv, AllFresh;
    var t := s.(pipe := s.pipe + more);
    AppendKeepsInv(done, s, start, more);
    assert done + t.pipe == done + s.pipe + more;
    DistinctPrefix(done + t.pipe, stream);
    if t.pipe == [] {
      StepOnEmpty(t, false);
      AlikeRefl(done + t.pipe);
      done' := done;
    } else {
      NewAreFresh(s.pipe, more);
      StepKeepsInv(done, t, |s.pipe|, start);
      var q := Resolve(t.tab, t.pipe, |t.pipe|);
      var c := Cut(t.pipe, false);
      done' := done + q[..c];
      StepPipe(t, false);
      CutApart(done, q, c);
      AlikeAppend(done, q, t.pipe);
    }
  }

  lemma NewAreFresh(p: seq<Rec>, more: seq<Rec>)
    requires AllFresh(more)
    ensures forall k :: |p| <= k < |p + more| ==> Fresh((p + more)[k])
  {
  }

  lemma CutApart(done: seq<Rec>, q: seq<Rec>, c: nat)
    requires c <= |q|
    ensures (done + q[..c]) + q[c..] == done + q && |q[c..]| == |q| - c
  {
  }

  lemma StepOnEmpty(s: State, eoseg: bool)
    requires s.pipe == []
    ensures Step(s, eoseg) == s
  {
  }

  lemma StepPipe(s: State, eoseg: bool)
    requires s.pipe != []
    ensures var q := Resolve(s.tab, s.pipe, |s.pipe|);
            Step(s, eoseg).pipe == q[Cut(s.pipe, eoseg)..] && AlikeAll(q, s.pipe) && |q| == |s.pipe|
  {
  }

  lemma AlikeAppend(done: seq<Rec>, q: seq<Rec>, p: seq<Rec>)
    requires AlikeAll(q, p)
    ensures AlikeAll(done + q, done + p)
  {
  }

  lemma AlikeRefl(a: seq<Rec>)
    ensures AlikeAll(a, a)
  {
  }

  lemma AlikeTrans(a: seq<Rec>, b: seq<Rec>, c: seq<Rec>)
    requires AlikeAll(a, b) && AlikeAll(b, c)
    ensures AlikeAll(a, c)
  {
    forall i | 0 <= i < |a| ensures Alike(a[i], c[i]) {
      assert Alike(a[i], b[i]) && Alike(b[i], c[i]);
    }
  }

  /** The last chunk and its flush(1). */
  lemma LastChunk(done: seq<Rec>, s: State, start: int, more: seq<Rec>, stream: seq<Rec>)
    returns (g: seq<Rec>)
    requires Inv(done, s, |s.pipe|, start) && AllFresh(more)
    requires Distinct(stream) && AlikeAll(done + s.pipe + more, stream)
    ensures Assembled(g, stream, Step(s.(pipe := s.pipe + more), true), start)
  {
    hide TableOK, Settled, CodeOf, EmitLocals, Size, Distinct, Resolve, Step, AlikeAll, Fresh;
    var t := s.(pipe := s.pipe + more);
    AppendKeepsInv(done, s, start, more);
    assert done + t.pipe == done + s.pipe + more;
    AlikeWhole(done + t.pipe, stream);
    DistinctPrefix(done + t.pipe, stream);
    if t.pipe == [] {
      StepOnEmpty(t, true);
      assert done + t.pipe[..0] == done + t.pipe == done;
      g := done;
    } else {
      StepWrites(done, t, |s.pipe|, start, true);
      StepPipe(t, true);
      var q := Resolve(t.tab, t.pipe, |t.pipe|);
      assert q[..|q|] == q;
      g := done + q;
      AlikeAppend(done, q, t.pipe);
      AlikeTrans(g, done + t.pipe, stream);
      AlikeWhole(q, t.pipe);
    }
  }

  lemma AlikeWhole(g: seq<Rec>, h: seq<Rec>)
    requires AlikeAll(g, h)
    ensures |g| == |h| && AlikeAll(g, h[..|g|])
  {
    assert h[..|g|] == h;
  }

  lemma {:induction false} RunFrom(done: seq<Rec>, s: State, start: int, chunks: seq<seq<Rec>>, stream: seq<Rec>)
    returns (g: seq<Rec>)
    requires chunks != [] && Inv(done, s, |s.pipe|, start) && AllFresh(Concat(chunks))
    requires Distinct(stream) && AlikeAll(done + s.pipe + Concat(chunks), stream)
    ensures Assembled(g, stream, Run(s, chunks), start)
    decreases |chunks|
  {
    hide Inv, Distinct, Alike, Fresh, Step, Assembled;
    var more, rest := chunks[0], Concat(chunks[1..]);
    ConcatParts(chunks);
    assert done + s.pipe + Concat(chunks) == done + s.pipe + more + rest;
    if |chunks| == 1 {
      assert done + s.pipe + more == done + s.pipe + Concat(chunks);
      g := LastChunk(done, s, start, more, stream);
    } else {
      AlikePrefix(done + s.pipe + more, rest, stream);
      var done' := ChunkKeepsInv(done, s, start, more, stream);
      var s' := Step(s.(pipe := s.pipe + more), false);
      AlikeConcat(done' + s'.pipe, done + s.pipe + more, rest);
      AlikeTrans(done' + s'.pipe + rest, done + s.pipe + more + rest, stream);
      g := RunFrom(done', s', start, chunks[1..], stream);
    }
  }

  lemma ConcatParts(chunks: seq<seq<Rec>>)
    requires chunks != []
    ensures Concat(chunks) == chunks[0] + Concat(chunks[1..])
    ensures AllFresh(Concat(chunks)) ==> AllFresh(chunks[0]) && AllFresh(Concat(chunks[1..]))
    ensures |chunks| == 1 ==> Concat(chunks) == chunks[0]
  {
    hide Fresh;
    var more, rest := chunks[0], Concat(chunks[1..]);
    if AllFresh(Concat(chunks)) {
      forall k | 0 <= k < |more| ensures Fresh(more[k]) { assert Concat(chunks)[k] == more[k]; }
      forall k | 0 <= k < |rest| ensures Fresh(rest[k]) { assert Concat(chunks)[|more|+k] == rest[k]; }
    }
  }

  lemma AlikePrefix(a: seq<Rec>, b: seq<Rec>, c: seq<Rec>)
    requires AlikeAll(a + b, c)
    ensures AlikeAll(a, c[..|a|])
  {
    forall i | 0 <= i < |a| ensures Alike(a[i], c[..|a|][i]) {
      assert Alike((a + b)[i], c[i]);
    }
  }

  lemma AlikeConcat(a: seq<Rec>, b: seq<Rec>, c: seq<Rec>)
    requires AlikeAll(a, b)
    ensures AlikeAll(a + c, b + c)
  {
  }

  /** However a segment is cut into calls, it is assembled as one: every jump gets
      a single size, the short ones reach, and the code and label definitions
      written are those of the whole. */
  lemma RunAssembles(start: int, chunks: seq<seq<Rec>>) returns (g: seq<Rec>)
    requires chunks != [] && AllFresh(Concat(chunks)) && Distinct(Concat(chunks))
    ensures Assembled(g, Concat(chunks), Run(Begin(start), chunks), start)
  {
    var stream := Concat(chunks);
    assert [] + [] + stream == stream;
    assert AlikeAll(stream, stream);
    g := RunFrom([], Begin(start), start, chunks, stream);
  }
}
