/** One call of flush against the whole segment, and whole runs of calls. */
module Segment {
  import opened Relax
  import opened Stability

  // ----- the second scan

  lemma ScanningHere(done: seq<Rec>, pipe: seq<Rec>, carried: Table, k: nat)
    requires k < |pipe| && pipe[k].Jump?
    requires Distinct(done + pipe) && TableOK(done, pipe, carried)
    ensures Scanning(done, pipe, carried, Resolve(carried, pipe, k))
  {
  }

  /** A jump decided by an earlier call is decided the same way again. */
  lemma {:induction false} KeepsDecisions(done: seq<Rec>, pipe: seq<Rec>, carried: Table, h: nat, k: nat)
    requires k <= h <= |pipe| && Settled(done + pipe[..h])
    requires Distinct(done + pipe) && TableOK(done, pipe, carried)
    ensures Resolve(carried, pipe, k) == pipe[..k]
  {
    hide Settled, TableOK, Distinct, Decision, Labels, Same, Resolve;
    if k == 0 {
      NothingResolved(carried, pipe);
    } else {
      KeepsDecisions(done, pipe, carried, h, k-1);
      DecidedAgain(done, pipe, carried, h, k-1);
      ResolveStep(carried, pipe, k-1);
      OneFurther(pipe, k);
    }
  }

  lemma NothingResolved(carried: Table, pipe: seq<Rec>)
    ensures Resolve(carried, pipe, 0) == [] == pipe[..0]
  {
  }

  lemma OneFurther(pipe: seq<Rec>, k: nat)
    requires 0 < k <= |pipe|
    ensures pipe[..k] == pipe[..k-1] + [pipe[k-1]]
  {
  }

  lemma DecidedAgain(done: seq<Rec>, pipe: seq<Rec>, carried: Table, h: nat, k: nat)
    requires k < h <= |pipe| && Settled(done + pipe[..h])
    requires Distinct(done + pipe) && TableOK(done, pipe, carried)
    requires Resolve(carried, pipe, k) == pipe[..k]
    ensures Decision(carried, pipe, pipe[..k]) == pipe[k]
  {
    if pipe[k].Jump? && !pipe[k].far {
      SettledReachesHere(done, pipe, h, k);
      ScanningHere(done, pipe, carried, k);
      ReachGivesNear(done, pipe, carried, pipe[..k]);
    }
  }

  lemma SettledReachesHere(done: seq<Rec>, pipe: seq<Rec>, h: nat, k: nat)
    requires k < h <= |pipe| && Settled(done + pipe[..h])
    requires pipe[k].Jump? && !pipe[k].far
    ensures pipe[k].jt <= LAST_SHORT && ReachHere(done, pipe, pipe[..k])
  {
    hide Size, Worst, Pos, ReachHere, Reach;
    var g, r := done + pipe[..h], done + pipe;
    assert g[|done|+k] == pipe[k];
    assert SettledAt(g, |done|+k);
    assert r[..|g|] == g;
    ReachTransfer(g, r, |done|+k);
    assert done + pipe[..k] + pipe[k..] == r;
    ReachHereIsReach(done, pipe, pipe[..k]);
  }

  /** What the scan decides about a fresh jump is right for the segment so far. */
  lemma FreshIsSettled(done: seq<Rec>, pipe: seq<Rec>, carried: Table, k: nat)
    requires Distinct(done + pipe) && TableOK(done, pipe, carried)
    requires k < |pipe| && Fresh(pipe[k])
    ensures SettledAt(done + Resolve(carried, pipe, |pipe|), |done| + k)
  {
    hide TableOK, Distinct, Scanning, ReachHere, Reach, Resolve;
    var q, r := Resolve(carried, pipe, |pipe|), Resolve(carried, pipe, k);
    if pipe[k].Jump? {
      ShortIsNear(carried, pipe, k);
      ScanningHere(done, pipe, carried, k);
      ResolvePrefix(carried, pipe, k, |pipe|);
      if !q[k].far {
        NearGivesReach(done, pipe, carried, r);
        ReachHereInResult(done, pipe, q, k);
      } else if pipe[k].jt <= LAST_SHORT && Reach(done + q, |done| + k) {
        ReachHereInResult(done, pipe, q, k);
        ReachGivesNear(done, pipe, carried, r);
      }
    }
  }

  /** A record as the code generator puts it into the pipe. */
  predicate Fresh(r: Rec) { r.Jump? ==> !r.far }

  lemma ReachHereInResult(done: seq<Rec>, pipe: seq<Rec>, q: seq<Rec>, k: nat)
    requires k < |pipe| == |q| && AlikeAll(q, pipe) && pipe[k].Jump?
    ensures ReachHere(done, pipe, q[..k]) <==> Reach(done + q, |done| + k)
  {
    hide ReachHere, Reach, Pos, Size, Worst;
    var r := q[..k];
    var g, g' := done + r + pipe[k..], done + q;
    assert AlikeAll(r, pipe[..k]);
    ReachHereIsReach(done, pipe, r);
    assert g[..|done|+k] == done + r;
    assert g'[..|done|+k] == done + r;
    forall i | 0 <= i < |g| ensures Alike(g[i], g'[i]) && Alike(g'[i], g[i]) {
      if i >= |done| + k {
        assert Alike(q[i-|done|], pipe[i-|done|]);
      }
    }
    assert g'[..|g|] == g' && g[..|g'|] == g;
    ReachBothWays(g, g', |done|+k);
  }

  lemma ReachBothWays(g: seq<Rec>, h: seq<Rec>, k: nat)
    requires k < |g| == |h| && g[..k] == h[..k] && AlikeAll(g, h) && AlikeAll(h, g)
    requires g[k].Jump? && h[k].Jump?
    ensures Reach(g, k) <==> Reach(h, k)
  {
    assert g[..|h|] == g && h[..|g|] == h;
    if Reach(g, k) { ReachTransfer(g, h, k); }
    if Reach(h, k) { ReachTransfer(h, g, k); }
  }

  /** The second scan keeps what was decided ... */
  lemma ScanKeeps(done: seq<Rec>, pipe: seq<Rec>, carried: Table, h: nat)
    requires h <= |pipe| && Settled(done + pipe[..h])
    requires Distinct(done + pipe) && TableOK(done, pipe, carried)
    ensures Resolve(carried, pipe, |pipe|)[..h] == pipe[..h]
  {
    KeepsDecisions(done, pipe, carried, h, h);
    ResolvePrefix(carried, pipe, h, |pipe|);
  }

  /** ... and settles the rest. */
  lemma ScanSettles(done: seq<Rec>, pipe: seq<Rec>, carried: Table, h: nat)
    requires h <= |pipe| && Settled(done + pipe[..h])
    requires forall k :: h <= k < |pipe| ==> Fresh(pipe[k])
    requires Distinct(done + pipe) && TableOK(done, pipe, carried)
    ensures Settled(done + Resolve(carried, pipe, |pipe|))
  {
    hide SettledAt, TableOK, Distinct, Resolve;
    var g := done + Resolve(carried, pipe, |pipe|);
    forall k | 0 <= k < |g| ensures SettledAt(g, k) {
      if k < |done| + h {
        OldSettlesAt(done, pipe, carried, h, k);
      } else {
        FreshIsSettled(done, pipe, carried, k-|done|);
      }
    }
  }

  lemma OldSettlesAt(done: seq<Rec>, pipe: seq<Rec>, carried: Table, h: nat, k: nat)
    requires h <= |pipe| && Settled(done + pipe[..h])
    requires Distinct(done + pipe) && TableOK(done, pipe, carried)
    requires k < |done| + h
    ensures SettledAt(done + Resolve(carried, pipe, |pipe|), k)
  {
    ScanKeeps(done, pipe, carried, h);
    DecidedStaysSettled(done, pipe[..h], Resolve(carried, pipe, |pipe|), k);
  }

  lemma DecidedStaysSettled(done: seq<Rec>, decided: seq<Rec>, q: seq<Rec>, k: nat)
    requires k < |done + decided| && |decided| <= |q| && q[..|decided|] == decided
    requires Settled(done + decided)
    ensures SettledAt(done + q, k)
  {
    assert (done + q)[..|done + decided|] == done + decided;
    assert SettledAt(done + decided, k);
    SettledGrows(done + decided, done + q, k);
  }

  lemma SettledGrows(g: seq<Rec>, h: seq<Rec>, k: nat)
    requires k < |g| <= |h| && h[..|g|] == g && SettledAt(g, k)
    ensures SettledAt(h, k)
  {
    assert h[k] == h[..|g|][k];
    if g[k].Jump? {
      assert h[..k] == h[..|g|][..k];
      if !g[k].far {
        ReachTransfer(g, h, k);
      } else {
        PosConcat(g, h[|g|..], g[k].want);
        assert g + h[|g|..] == h;
        var p := Pos(h, g[k].want);
        assert p < k ==> h[p..k] == g[p..k];
      }
    }
  }

  // ----- the table the third scan reads

  /** The entry gives its label's exact offset from the old cut. */
  ghost predicate ExactEntry(done: seq<Rec>, q: seq<Rec>, e: Entry) {
    var p, j := Pos(done, e.lab), Pos(q, e.lab);
    if p < |done| then e.off == 0 - Behind(done, p)
    else j < |q| && e.off == Size(q[..j])
  }

  /** What the third scan may rely on: `q` is the scanned pipe. */
  ghost predicate Scanned(done: seq<Rec>, pipe: seq<Rec>, carried: Table, q: seq<Rec>) {
    && AlikeAll(q, pipe) && Labels(q) == Labels(pipe)
    && Distinct(done + pipe) && TableOK(done, pipe, carried)
  }

  lemma FullEntryExact(done: seq<Rec>, pipe: seq<Rec>, carried: Table, q: seq<Rec>, i: nat)
    requires Scanned(done, pipe, carried, q) && i < |carried + LabTab(q, true)|
    ensures ExactEntry(done, q, (carried + LabTab(q, true))[i])
  {
    var e := (carried + LabTab(q, true))[i];
    AlikePos(q, pipe, e.lab);
    if i < |carried| {
      assert SoundEntry(done, pipe, carried[i]);
      var j := Pos(pipe, e.lab);
      if Pos(done, e.lab) == |done| {
        AlikeWorst(q[..j], pipe[..j]);
        SizeWithinWorst(q[..j]);
      }
    } else {
      var j := EntryRecord(q, true, i-|carried|);
      assert Alike(q[j], pipe[j]);
      PipeLabel(done, pipe, j);
    }
  }

  lemma FullHasLabel(done: seq<Rec>, pipe: seq<Rec>, carried: Table, q: seq<Rec>, p: nat)
    requires Scanned(done, pipe, carried, q) && p < |done + q| && (done + q)[p].Local?
    requires p < |done| ==> Behind(done, p) < 128
    ensures var off := if p < |done| then 0 - Behind(done, p) else Size(q[..p-|done|]);
            Entry((done + q)[p].lab, off) in carried + LabTab(q, true)
  {
    if p >= |done| {
      RecordEntry(q, true, p-|done|);
    }
  }

  // ----- what is carried across the cut

  lemma {:induction false} CarryFrom(t: Table, off: int, i: nat) returns (j: nat)
    requires i < |Carry(t, off)|
    ensures j < |t| && off - 128 < t[j].off <= off
    ensures Carry(t, off)[i] == Entry(t[j].lab, t[j].off - off)
  {
    var k := |t|-1;
    if i < |Carry(t[..k], off)| {
      j := CarryFrom(t[..k], off, i);
    } else {
      j := k;
    }
  }

  lemma {:induction false} CarryHas(t: Table, off: int, e: Entry)
    requires e in t && off - 128 < e.off <= off
    ensures Entry(e.lab, e.off - off) in Carry(t, off)
  {
    var k := |t|-1;
    if e != t[k] {
      assert e in t[..k];
      CarryHas(t[..k], off, e);
    }
  }

  lemma CutSizes(q: seq<Rec>, c: nat, j: nat)
    requires c <= |q| && j <= |q|
    ensures j <= c ==> Size(q[..c][j..]) == Size(q[..c]) - Size(q[..j])
    ensures c <= j ==> Size(q[c..][..j-c]) == Size(q[..j]) - Size(q[..c])
  {
    if j <= c {
      Split(q[..c], j);
      assert q[..c][..j] == q[..j];
    } else {
      Split(q[..j], c);
      assert q[..j][..c] == q[..c] && q[..j][c..] == q[c..][..j-c];
    }
  }

  /** A label's place relative to the new cut. */
  lemma CutPos(done: seq<Rec>, q: seq<Rec>, c: nat, l: int)
    requires c <= |q|
    ensures Pos(done + q[..c], l) ==
            if Pos(done, l) < |done| then Pos(done, l) else |done| + if Pos(q, l) < c then Pos(q, l) else c
    ensures Pos(q, l) >= c ==> Pos(q[c..], l) == Pos(q, l) - c
  {
    PosConcat(done, q[..c], l);
    PosConcat(q[..c], q[c..], l);
    assert q[..c] + q[c..] == q;
  }

  lemma CutBehind(done: seq<Rec>, q: seq<Rec>, c: nat, p: nat)
    requires c <= |q| && p <= |done| + c
    ensures Behind(done + q[..c], p) ==
            Size(q[..c]) + if p < |done| then Behind(done, p) else 0 - Size(q[..p-|done|])
  {
    if p < |done| {
      assert (done + q[..c])[p..] == done[p..] + q[..c];
      SumConcat(done[p..], q[..c]);
    } else {
      assert (done + q[..c])[p..] == q[..c][p-|done|..];
      CutSizes(q, c, p-|done|);
    }
  }

  lemma CarriedEntrySound(done: seq<Rec>, q: seq<Rec>, c: nat, e: Entry)
    requires c <= |q| && ExactEntry(done, q, e)
    requires Size(q[..c]) - 128 < e.off <= Size(q[..c])
    ensures SoundEntry(done + q[..c], q[c..], Entry(e.lab, e.off - Size(q[..c])))
  {
    hide Size, Worst, Behind;
    var p, j := Pos(done, e.lab), Pos(q, e.lab);
    CutPos(done, q, c, e.lab);
    if p < |done| {
      CutBehind(done, q, c, p);
    } else if j < c {
      CutBehind(done, q, c, |done|+j);
    } else {
      CutSizes(q, c, j);
      SizeWithinWorst(q[c..][..j-c]);
    }
  }

  lemma CarrySound(done: seq<Rec>, pipe: seq<Rec>, carried: Table, q: seq<Rec>, c: nat)
    requires Scanned(done, pipe, carried, q) && c <= |q|
    ensures Sound(done + q[..c], q[c..], Carry(carried + LabTab(q, true), Size(q[..c])))
  {
    var t, off := carried + LabTab(q, true), Size(q[..c]);
    forall i | 0 <= i < |Carry(t, off)| ensures SoundEntry(done + q[..c], q[c..], Carry(t, off)[i]) {
      var j := CarryFrom(t, off, i);
      FullEntryExact(done, pipe, carried, q, j);
      CarriedEntrySound(done, q, c, t[j]);
    }
  }

  lemma CarryCovers(done: seq<Rec>, pipe: seq<Rec>, carried: Table, q: seq<Rec>, c: nat)
    requires Scanned(done, pipe, carried, q) && c <= |q|
    ensures Covers(done + q[..c], Carry(carried + LabTab(q, true), Size(q[..c])))
  {
    hide Size, LabTab, Scanned, Behind, Carry;
    var t, off, d := carried + LabTab(q, true), Size(q[..c]), done + q[..c];
    forall p {:trigger Behind(d, p)} | 0 <= p < |d| && d[p].Local? && Behind(d, p) < 128
      ensures Entry(d[p].lab, 0 - Behind(d, p)) in Carry(t, off)
    {
      assert d[p] == (done + q)[p];
      CutBehind(done, q, c, p);
      FullHasLabel(done, pipe, carried, q, p);
      CarryHas(t, off, Entry(d[p].lab, off - Behind(d, p)));
    }
  }

  /** Records appended to the pipe do not disturb the carried table. */
  lemma TableGrows(done: seq<Rec>, pipe: seq<Rec>, more: seq<Rec>, carried: Table)
    requires TableOK(done, pipe, carried)
    ensures TableOK(done, pipe + more, carried)
  {
    forall i | 0 <= i < |carried| ensures SoundEntry(done, pipe + more, carried[i]) {
      assert SoundEntry(done, pipe, carried[i]);
      PosConcat(pipe, more, carried[i].lab);
      if Pos(done, carried[i].lab) == |done| {
        assert (pipe + more)[..Pos(pipe, carried[i].lab)] == pipe[..Pos(pipe, carried[i].lab)];
      }
    }
  }
}
