/** Why decisions survive a cut: nearness, which one call reads off its tables,
    is a property of the whole segment so far. */
module Stability {
  import opened Relax

  // ----- sizes over concatenation

  lemma {:induction false} SumConcat(a: seq<Rec>, b: seq<Rec>)
    ensures Size(a + b) == Size(a) + Size(b)
    ensures Worst(a + b) == Worst(a) + Worst(b)
    decreases |b|
  {
    if b == [] {
      assert a + b == a;
    } else {
      SumConcat(a, b[..|b|-1]);
      assert (a + b)[..|a+b|-1] == a + b[..|b|-1];
    }
  }

  lemma Split(s: seq<Rec>, i: nat)
    requires i <= |s|
    ensures Size(s) == Size(s[..i]) + Size(s[i..])
    ensures Worst(s) == Worst(s[..i]) + Worst(s[i..])
  {
    SumConcat(s[..i], s[i..]);
    assert s[..i] + s[i..] == s;
  }

  lemma {:induction false} SizeWithinWorst(s: seq<Rec>)
    ensures Size(s) <= Worst(s)
    ensures Size(s) == 0 ==> Worst(s) == 0
  {
    if s != [] {
      SizeWithinWorst(s[..|s|-1]);
    }
  }

  predicate Alike(r: Rec, s: Rec) {
    r == s || (r.Jump? && s.Jump? && r.jt == s.jt && r.want == s.want)
  }

  /** The same records up to far bits. */
  ghost predicate AlikeAll(a: seq<Rec>, b: seq<Rec>) {
    |a| == |b| && forall i :: 0 <= i < |a| ==> Alike(a[i], b[i])
  }

  lemma {:induction false} AlikeWorst(a: seq<Rec>, b: seq<Rec>)
    requires AlikeAll(a, b)
    ensures Worst(a) == Worst(b)
  {
    if a != [] {
      AlikeWorst(a[..|a|-1], b[..|b|-1]);
    }
  }

  // ----- where a label stands

  /** Index of the record defining a label, or the length of the run. */
  function Pos(s: seq<Rec>, l: int): (p: nat)
    ensures p <= |s|
    ensures p < |s| ==> s[p] == Local(l)
    ensures forall i :: 0 <= i < p ==> s[i] != Local(l)
  {
    if s == [] then 0 else
      var p := Pos(s[..|s|-1], l);
      if p < |s|-1 then p
      else if s[|s|-1] == Local(l) then p
      else |s|
  }

  /** No label is defined twice. */
  ghost predicate Distinct(s: seq<Rec>) {
    forall i {:trigger Pos(s, s[i].lab)} :: 0 <= i < |s| && s[i].Local? ==> Pos(s, s[i].lab) == i
  }

  lemma PosConcat(a: seq<Rec>, b: seq<Rec>, l: int)
    ensures Pos(a + b, l) == if Pos(a, l) < |a| then Pos(a, l) else |a| + Pos(b, l)
  {
    var g := a + b;
    var p := if Pos(a, l) < |a| then Pos(a, l) else |a| + Pos(b, l);
    assert p < |g| ==> g[p] == Local(l);
    assert forall i :: 0 <= i < p ==> g[i] != Local(l) by {
      forall i | 0 <= i < p ensures g[i] != Local(l) {
        assert g[i] == if i < |a| then a[i] else b[i-|a|];
      }
    }
  }

  lemma AlikePos(a: seq<Rec>, b: seq<Rec>, l: int)
    requires AlikeAll(a, b)
    ensures Pos(a, l) == Pos(b, l)
  {
  }

  // ----- what "near" means for the segment

  /** The label of jump `k` is close enough for a short jump however the records
      ahead turn out: behind by exact sizes, or ahead by worst-case ones. */
  ghost predicate Reach(g: seq<Rec>, k: nat)
    requires k < |g| && g[k].Jump?
  {
    var p := Pos(g, g[k].want);
    p < |g| &&
    if p <= k then Size(g[p..k]) + 3 <= REACH else Worst(g[k..p]) <= REACH
  }

  /** Short with its label in reach; or far, and then no label behind is in reach. */
  ghost predicate SettledAt(g: seq<Rec>, k: nat)
    requires k < |g|
  {
    g[k].Jump? ==>
      if !g[k].far then g[k].jt <= LAST_SHORT && Reach(g, k)
      else g[k].jt <= LAST_SHORT && Pos(g, g[k].want) < k ==> !Reach(g, k)
  }

  ghost predicate Settled(g: seq<Rec>) {
    forall k {:trigger SettledAt(g, k)} :: 0 <= k < |g| ==> SettledAt(g, k)
  }

  /** Reach looks at far bits only behind the jump, so more records after it,
      and other far bits ahead of it, leave it as it is. */
  lemma ReachTransfer(g: seq<Rec>, h: seq<Rec>, k: nat)
    requires k < |g| <= |h| && g[..k] == h[..k] && AlikeAll(g, h[..|g|])
    requires g[k].Jump? && Reach(g, k)
    ensures h[k].Jump? && Reach(h, k)
  {
    hide Size, Worst, Pos;
    var p := Pos(g, g[k].want);
    AlikePos(g, h[..|g|], g[k].want);
    PosConcat(h[..|g|], h[|g|..], g[k].want);
    assert h[..|g|] + h[|g|..] == h;
    assert Alike(g[k], h[k]);
    if p <= k {
      assert g[p..k] == g[..k][p..];
      assert h[p..k] == h[..k][p..];
    } else {
      assert forall i :: 0 <= i < p-k ==> g[k..p][i] == g[k+i] && h[k..p][i] == h[..|g|][k+i];
      AlikeWorst(g[k..p], h[k..p]);
    }
  }

  // ----- what the carried table says about the segment

  /** Bytes from a written record to the cut. */
  function Behind(done: seq<Rec>, p: nat): nat
    requires p <= |done|
  {
    Size(done[p..])
  }

  /** A carried entry is a label already written, within 128 bytes; or one that
      stands right at the cut and is still in the pipe as well. */
  ghost predicate SoundEntry(done: seq<Rec>, pipe: seq<Rec>, e: Entry) {
    && -128 < e.off <= 0
    && var p := Pos(done, e.lab);
       if p < |done| then e.off == 0 - Behind(done, p)
       else var j := Pos(pipe, e.lab); j < |pipe| && e.off == 0 && Worst(pipe[..j]) == 0
  }

  ghost predicate Sound(done: seq<Rec>, pipe: seq<Rec>, t: Table) {
    forall i {:trigger SoundEntry(done, pipe, t[i])} :: 0 <= i < |t| ==> SoundEntry(done, pipe, t[i])
  }

  /** No label a short jump could still want has been dropped. */
  ghost predicate Covers(done: seq<Rec>, t: Table) {
    forall p {:trigger Behind(done, p)} :: 0 <= p < |done| && done[p].Local? && Behind(done, p) < 128
      ==> Entry(done[p].lab, 0 - Behind(done, p)) in t
  }

  ghost predicate TableOK(done: seq<Rec>, pipe: seq<Rec>, t: Table) {
    Sound(done, pipe, t) && Covers(done, t)
  }

  // ----- entries of a label table

  /** Index of the record behind entry `i`. */
  lemma {:induction false} EntryRecord(s: seq<Rec>, exact: bool, i: nat) returns (j: nat)
    requires i < Labels(s)
    ensures j < |s| && s[j].Local? && Labels(s[..j]) == i
    ensures LabTab(s, exact)[i] == Entry(s[j].lab, Off(s[..j], exact))
  {
    var k := |s|-1;
    if i < Labels(s[..k]) {
      j := EntryRecord(s[..k], exact, i);
      assert s[..k][..j] == s[..j];
    } else {
      j := k;
    }
  }

  lemma RecordEntry(s: seq<Rec>, exact: bool, j: nat)
    requires j < |s| && s[j].Local?
    ensures Labels(s[..j]) < Labels(s)
    ensures LabTab(s, exact)[Labels(s[..j])] == Entry(s[j].lab, Off(s[..j], exact))
  {
    assert s[..j+1][..j] == s[..j];
    TabPrefix(s, j+1, exact);
  }

  lemma LabelsMonotone(s: seq<Rec>, i: nat, j: nat)
    requires i <= j <= |s|
    ensures Labels(s[..i]) <= Labels(s[..j])
  {
    TabPrefix(s[..j], i, true);
    assert s[..j][..i] == s[..i];
  }

  lemma LabelsGrow(s: seq<Rec>, i: nat, j: nat)
    requires i < j <= |s| && s[i].Local?
    ensures Labels(s[..i]) < Labels(s[..j])
  {
    LabelsMonotone(s, i+1, j);
    assert s[..i+1][..i] == s[..i];
  }

  // ----- the table in the middle of the second scan

  /** Where the scan stands: `done` is written, `q` decided, the jump is next. */
  ghost predicate Scanning(done: seq<Rec>, pipe: seq<Rec>, carried: Table, q: seq<Rec>) {
    && |q| < |pipe| && pipe[|q|].Jump?
    && AlikeAll(q, pipe[..|q|]) && Labels(q) == Labels(pipe[..|q|]) <= Labels(pipe)
    && Distinct(done + pipe) && TableOK(done, pipe, carried)
  }

  /** The offset a lookup finds is right for where the label stands. */
  ghost predicate RightOffset(done: seq<Rec>, pipe: seq<Rec>, q: seq<Rec>, e: Entry)
    requires |q| < |pipe|
  {
    var p, j := Pos(done, e.lab), Pos(pipe, e.lab);
    if p < |done| then e.off == 0 - Behind(done, p) && -128 < e.off <= 0
    else j < |pipe| && j != |q| &&
         if j < |q| then e.off == Size(q[..j]) else e.off == Worst(pipe[..j])
  }

  lemma CarriedEntryRight(done: seq<Rec>, pipe: seq<Rec>, carried: Table, q: seq<Rec>, e: Entry)
    requires Scanning(done, pipe, carried, q) && SoundEntry(done, pipe, e)
    ensures RightOffset(done, pipe, q, e)
  {
    if Pos(done, e.lab) == |done| {
      var j := Pos(pipe, e.lab);
      if j < |q| {
        AlikeWorst(q[..j], pipe[..j]);
        SizeWithinWorst(q[..j]);
      }
    }
  }

  lemma PipeLabel(done: seq<Rec>, pipe: seq<Rec>, j: nat)
    requires Distinct(done + pipe) && j < |pipe| && pipe[j].Local?
    ensures Pos(done, pipe[j].lab) == |done| && Pos(pipe, pipe[j].lab) == j
  {
    assert (done + pipe)[|done|+j] == pipe[j];
    PosConcat(done, pipe, pipe[j].lab);
  }

  lemma MixEntryRight(done: seq<Rec>, pipe: seq<Rec>, carried: Table, q: seq<Rec>, i: nat)
    requires Scanning(done, pipe, carried, q)
    requires i < |MixTab(carried, pipe, q)|
    ensures RightOffset(done, pipe, q, MixTab(carried, pipe, q)[i])
  {
    if i < |carried| {
      CarriedEntryRight(done, pipe, carried, q, carried[i]);
    } else if i < |carried| + Labels(q) {
      var j := EntryRecord(q, true, i-|carried|);
      assert Alike(q[j], pipe[..|q|][j]);
      PipeLabel(done, pipe, j);
    } else {
      var j := EntryRecord(pipe, false, i-|carried|);
      if j < |q| {
        LabelsGrow(pipe, j, |q|);
        assert false;
      }
      PipeLabel(done, pipe, j);
    }
  }

  /** A label within reach is in the table. */
  lemma MixHasLabel(done: seq<Rec>, pipe: seq<Rec>, carried: Table, q: seq<Rec>, l: int)
    requires Scanning(done, pipe, carried, q)
    requires Pos(done, l) < |done| ==> Behind(done, Pos(done, l)) < 128
    requires Pos(done, l) == |done| ==> Pos(pipe, l) < |pipe|
    ensures Find(MixTab(carried, pipe, q), l) < |MixTab(carried, pipe, q)|
  {
    var mix := MixTab(carried, pipe, q);
    var p, j := Pos(done, l), Pos(pipe, l);
    if p < |done| {
      var i :| 0 <= i < |carried| && carried[i] == Entry(l, 0 - Behind(done, p));
      assert mix[i].lab == l;
    } else if j < |q| {
      assert Alike(q[j], pipe[..|q|][j]);
      RecordEntry(q, true, j);
      assert mix[|carried| + Labels(q[..j])].lab == l;
    } else {
      MixHasLabelAhead(pipe, carried, q, j);
    }
  }

  lemma MixHasLabelAhead(pipe: seq<Rec>, carried: Table, q: seq<Rec>, j: nat)
    requires |q| <= j < |pipe| && pipe[j].Local?
    requires Labels(q) == Labels(pipe[..|q|]) <= Labels(pipe)
    ensures Find(MixTab(carried, pipe, q), pipe[j].lab) < |MixTab(carried, pipe, q)|
  {
    var mix := MixTab(carried, pipe, q);
    RecordEntry(pipe, false, j);
    LabelsMonotone(pipe, |q|, j);
    var i := Labels(pipe[..j]) - Labels(q);
    assert LabTab(pipe, false)[Labels(q)..][i] == LabTab(pipe, false)[Labels(pipe[..j])];
    assert mix[|carried| + Labels(q) + i].lab == pipe[j].lab;
  }

  /** The label stands at the same place whatever the far bits. */
  lemma LabelPlace(done: seq<Rec>, pipe: seq<Rec>, q: seq<Rec>, l: int)
    requires |q| < |pipe| && AlikeAll(q, pipe[..|q|])
    ensures Pos(done + q + pipe[|q|..], l) == if Pos(done, l) < |done| then Pos(done, l) else |done| + Pos(pipe, l)
  {
    var h := q + pipe[|q|..];
    assert done + q + pipe[|q|..] == done + h;
    PosConcat(done, h, l);
    assert AlikeAll(h, pipe) by {
      forall i | 0 <= i < |pipe| ensures Alike(h[i], pipe[i]) {
        if i < |q| { assert Alike(q[i], pipe[..|q|][i]); }
      }
    }
    AlikePos(h, pipe, l);
  }

  lemma BehindDistance(done: seq<Rec>, pipe: seq<Rec>, q: seq<Rec>, p: nat)
    requires |q| < |pipe| && p < |done|
    ensures Size((done + q + pipe[|q|..])[p..|done|+|q|]) == Behind(done, p) + Size(q)
  {
    hide Size, Worst;
    var g, n := done + q + pipe[|q|..], |done| + |q|;
    assert g[..n] == done + q;
    assert g[p..n] == g[..n][p..] == done[p..] + q;
    SumConcat(done[p..], q);
  }

  lemma WithinDistance(done: seq<Rec>, pipe: seq<Rec>, q: seq<Rec>, j: nat)
    requires |q| < |pipe| && j <= |q|
    ensures Size((done + q + pipe[|q|..])[|done|+j..|done|+|q|]) == Size(q) - Size(q[..j])
  {
    assert (done + q + pipe[|q|..])[|done|+j..|done|+|q|] == q[j..];
    Split(q, j);
  }

  lemma AheadDistance(done: seq<Rec>, pipe: seq<Rec>, q: seq<Rec>, j: nat)
    requires |q| < j <= |pipe|
    ensures Worst((done + q + pipe[|q|..])[|done|+|q|..|done|+j]) == Worst(pipe[..j]) - Worst(pipe[..|q|])
  {
    var k := |q|;
    assert (done + q + pipe[k..])[|done|+k..|done|+j] == pipe[k..j];
    assert pipe[..k] + pipe[k..j] == pipe[..j];
    SumConcat(pipe[..k], pipe[k..j]);
  }

  lemma JumpGrows(pipe: seq<Rec>, k: nat, j: nat)
    requires k < j <= |pipe| && pipe[k].Jump?
    ensures Worst(pipe[..j]) > Worst(pipe[..k])
  {
    assert pipe[..k+1] + pipe[k+1..j] == pipe[..j];
    SumConcat(pipe[..k+1], pipe[k+1..j]);
    assert pipe[..k+1][..k] == pipe[..k];
  }

  /** Reach of the jump after `q`, in the scan's own coordinates. */
  ghost predicate ReachHere(done: seq<Rec>, pipe: seq<Rec>, q: seq<Rec>)
    requires |q| < |pipe| && pipe[|q|].Jump?
  {
    var l := pipe[|q|].want;
    var p, j := Pos(done, l), Pos(pipe, l);
    if p < |done| then Behind(done, p) + Size(q) + 3 <= REACH
    else j < |pipe| &&
         if j < |q| then Size(q) - Size(q[..j]) + 3 <= REACH
         else Worst(pipe[..j]) - Worst(pipe[..|q|]) <= REACH
  }

  lemma ReachHereIsReach(done: seq<Rec>, pipe: seq<Rec>, q: seq<Rec>)
    requires |q| < |pipe| && pipe[|q|].Jump? && AlikeAll(q, pipe[..|q|])
    ensures ReachHere(done, pipe, q) <==> Reach(done + q + pipe[|q|..], |done| + |q|)
  {
    var l := pipe[|q|].want;
    var p, j := Pos(done, l), Pos(pipe, l);
    LabelPlace(done, pipe, q, l);
    if p < |done| {
      BehindDistance(done, pipe, q, p);
    } else if j < |q| {
      WithinDistance(done, pipe, q, j);
    } else if j < |pipe| {
      AheadDistance(done, pipe, q, j);
    }
  }

  lemma EntryDistance(done: seq<Rec>, pipe: seq<Rec>, q: seq<Rec>, e: Entry)
    requires |q| < |pipe| && pipe[|q|].Jump? && pipe[|q|].want == e.lab
    requires AlikeAll(q, pipe[..|q|]) && RightOffset(done, pipe, q, e)
    ensures Dif(e.off, Size(q), Worst(pipe[..|q|]) - Size(q)) <= REACH <==> ReachHere(done, pipe, q)
  {
    var p, j := Pos(done, e.lab), Pos(pipe, e.lab);
    if p < |done| {
    } else if j < |q| {
      Split(q, j);
    } else {
      JumpGrows(pipe, |q|, j);
      AlikeWorst(q, pipe[..|q|]);
      SizeWithinWorst(q);
    }
  }

  lemma EntryDecides(done: seq<Rec>, pipe: seq<Rec>, carried: Table, q: seq<Rec>, i: nat)
    requires Scanning(done, pipe, carried, q)
    requires i < |MixTab(carried, pipe, q)| && MixTab(carried, pipe, q)[i].lab == pipe[|q|].want
    ensures Dif(MixTab(carried, pipe, q)[i].off, Size(q), Worst(pipe[..|q|]) - Size(q)) <= REACH
            <==> ReachHere(done, pipe, q)
  {
    MixEntryRight(done, pipe, carried, q, i);
    EntryDistance(done, pipe, q, MixTab(carried, pipe, q)[i]);
  }

  /** Nearness read off the tables is reach in the segment. */
  lemma NearGivesReach(done: seq<Rec>, pipe: seq<Rec>, carried: Table, q: seq<Rec>)
    requires Scanning(done, pipe, carried, q)
    requires Near(MixTab(carried, pipe, q), pipe[|q|].want, Size(q), Worst(pipe[..|q|]) - Size(q))
    ensures ReachHere(done, pipe, q)
  {
    hide TableOK, Distinct, AlikeAll, LabTab, ReachHere, Size, Worst;
    EntryDecides(done, pipe, carried, q, Find(MixTab(carried, pipe, q), pipe[|q|].want));
  }

  lemma ReachGivesNear(done: seq<Rec>, pipe: seq<Rec>, carried: Table, q: seq<Rec>)
    requires Scanning(done, pipe, carried, q) && ReachHere(done, pipe, q)
    ensures Near(MixTab(carried, pipe, q), pipe[|q|].want, Size(q), Worst(pipe[..|q|]) - Size(q))
  {
    hide TableOK, Distinct, AlikeAll, LabTab, Size, Worst;
    MixHasLabel(done, pipe, carried, q, pipe[|q|].want);
    EntryDecides(done, pipe, carried, q, Find(MixTab(carried, pipe, q), pipe[|q|].want));
  }
}
