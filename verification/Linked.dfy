/** End to end: the linked code of an assembled segment jumps where the source
    records said. */
module Linked {
  import opened Common
  import opened Relax
  import opened Stability
  import opened Segment
  import opened Runs
  import opened Machine

  /** Every name mark follows, at once, the code whose last word it adjusts. */
  ghost predicate MarksFollowCode(g: seq<Rec>) {
    forall i :: 0 <= i < |g| && g[i].Fix?
      ==> g[i].kind == ONAMEREL && i > 0 && g[i-1].Code? && |g[i-1].bytes| >= 2
  }

  /** The bytes of jump `i` once linked at `org`. */
  function JumpBytes(g: seq<Rec>, i: nat, org: int, addr: int -> int): (bs: seq<Byte>)
    requires i < |g| && g[i].Jump?
  {
    if g[i].far || g[i].jt > LAST_SHORT
    then FarBytes(g[i].jt, addr(g[i].want), org + Size(g[..i+1]))
    else [ShortOp(g[i].jt), Disp(g, i) % 256]
  }

  ghost predicate JumpInPlace(g: seq<Rec>, bs: seq<Byte>, i: nat, org: int, addr: int -> int)
    requires i < |g| && g[i].Jump?
  {
    var at, code := Size(g[..i]), JumpBytes(g, i, org, addr);
    at + |code| <= |bs| && bs[at..at+|code|] == code
  }

  ghost predicate Image(g: seq<Rec>, n: nat, bs: seq<Byte>, org: int, addr: int -> int)
    requires n <= |g|
  {
    && |bs| == Size(g[..n])
    && forall i {:trigger JumpInPlace(g, bs, i, org, addr)} ::
         0 <= i < n && g[i].Jump? ==> JumpInPlace(g, bs, i, org, addr)
  }

  lemma InPlaceAfter(g: seq<Rec>, bs: seq<Byte>, bs': seq<Byte>, i: nat, org: int, addr: int -> int, keep: nat)
    requires i < |g| && g[i].Jump? && JumpInPlace(g, bs, i, org, addr)
    requires Size(g[..i]) + |JumpBytes(g, i, org, addr)| <= keep <= |bs| && keep <= |bs'|
    requires bs'[..keep] == bs[..keep]
    ensures JumpInPlace(g, bs', i, org, addr)
  {
    var at, code := Size(g[..i]), JumpBytes(g, i, org, addr);
    assert bs'[at..at+|code|] == bs'[..keep][at..at+|code|];
    assert bs[at..at+|code|] == bs[..keep][at..at+|code|];
  }

  lemma JumpLength(g: seq<Rec>, i: nat, org: int, addr: int -> int)
    requires i < |g| && g[i].Jump? && SettledAt(g, i)
    ensures Size(g[..i]) + |JumpBytes(g, i, org, addr)| == Size(g[..i+1])
  {
    SizeStep(g, i);
  }

  lemma {:induction false} SizeMonotone(g: seq<Rec>, i: nat, j: nat)
    requires i <= j <= |g|
    ensures Size(g[..i]) <= Size(g[..j])
    decreases j - i
  {
    if i < j {
      SizeMonotone(g, i, j-1);
      SizeStep(g, j-1);
    }
  }

  /** Linking keeps every jump's bytes where the segment has them. */
  lemma {:induction false} LinkedImage(g: seq<Rec>, n: nat, org: int, addr: int -> int)
    requires n <= |g| && Settled(g) && MarksFollowCode(g)
    ensures Image(g, n, Link([], CodeOf(g, n), org, addr), org, addr)
  {
    hide Settled, MarksFollowCode, Code1, Image, Link, Size;
    if n == 0 {
      ImageOfNothing(g, org, addr);
    } else {
      LinkedImage(g, n-1, org, addr);
      LinkConcat([], CodeOf(g, n-1), Code1(g, n-1), org, addr);
      LinkedRecord(g, n-1, Link([], CodeOf(g, n-1), org, addr), org, addr);
    }
  }

  lemma ImageOfNothing(g: seq<Rec>, org: int, addr: int -> int)
    ensures Image(g, 0, Link([], [], org, addr), org, addr)
  {
  }

  lemma LinkedRecord(g: seq<Rec>, n: nat, bs: seq<Byte>, org: int, addr: int -> int)
    requires n < |g| && Settled(g) && MarksFollowCode(g) && Image(g, n, bs, org, addr)
    ensures Image(g, n+1, Link(bs, Code1(g, n), org, addr), org, addr)
  {
    hide Settled, SettledAt, JumpInPlace;
    var bs' := Link(bs, Code1(g, n), org, addr);
    var keep := if g[n].Fix? then |bs| - 2 else |bs|;
    assert SettledAt(g, n) by { SettledHere(g, n); }
    RecordBytes(g, n, bs, org, addr);
    forall i {:trigger JumpInPlace(g, bs', i, org, addr)} | 0 <= i < n+1 && g[i].Jump?
      ensures JumpInPlace(g, bs', i, org, addr)
    {
      if i < n {
        assert JumpInPlace(g, bs, i, org, addr);
        EarlierJumpEnds(g, n, i, org, addr);
        InPlaceAfter(g, bs, bs', i, org, addr, keep);
      }
    }
  }

  lemma SettledHere(g: seq<Rec>, n: nat)
    requires n < |g| && Settled(g)
    ensures SettledAt(g, n)
  {
  }

  /** A jump before record `n` ends before what that record can touch. */
  lemma EarlierJumpEnds(g: seq<Rec>, n: nat, i: nat, org: int, addr: int -> int)
    requires i < n < |g| && g[i].Jump? && Settled(g) && MarksFollowCode(g)
    ensures Size(g[..i]) + |JumpBytes(g, i, org, addr)| <= Size(g[..n]) - if g[n].Fix? then 2 else 0
  {
    SettledHere(g, i);
    hide Settled, SettledAt, Size, JumpBytes, MarksFollowCode;
    JumpLength(g, i, org, addr);
    if g[n].Fix? {
      CodeBehind(g, n);
      SizeMonotone(g, i+1, n-1);
    } else {
      SizeMonotone(g, i+1, n);
    }
  }

  lemma CodeBehind(g: seq<Rec>, n: nat)
    requires n < |g| && g[n].Fix? && MarksFollowCode(g)
    ensures n > 0 && g[n-1].Code? && Size(g[..n-1]) + 2 <= Size(g[..n])
  {
    SizeStep(g, n-1);
  }

  /** What linking record `n` does: nothing before `keep`, and up to the
      record's own size. */
  lemma RecordBytes(g: seq<Rec>, n: nat, bs: seq<Byte>, org: int, addr: int -> int)
    requires n < |g| && SettledAt(g, n) && MarksFollowCode(g) && |bs| == Size(g[..n])
    ensures var bs' := Link(bs, Code1(g, n), org, addr);
            var keep := if g[n].Fix? then |bs| - 2 else |bs|;
            && 0 <= keep <= |bs'| == Size(g[..n+1]) && bs'[..keep] == bs[..keep]
            && (g[n].Jump? ==> JumpInPlace(g, bs', n, org, addr))
  {
    hide Size, SettledAt, MarksFollowCode, JumpBytes, Link, JumpInPlace;
    SizeStep(g, n);
    match g[n]
    case Code(s) =>
      LinkBytes(bs, s, org, addr);
    case Jump(jt, far, want) =>
      JumpRecordBytes(g, n, bs, org, addr);
      PlacedJump(g, n, bs, org, addr);
    case Fix(kind, num) =>
      CodeBehind(g, n);
      LinkSingle(bs, Mark(kind, num), org, addr);
    case Local(_) =>
      LinkNothing(bs, org, addr);
    case Line(num) =>
      LinkSingle(bs, Mark(OLINE, num), org, addr);
  }

  lemma LinkNothing(bs: seq<Byte>, org: int, addr: int -> int)
    ensures Link(bs, [], org, addr) == bs
  {
  }

  lemma PlacedJump(g: seq<Rec>, n: nat, bs: seq<Byte>, org: int, addr: int -> int)
    requires n < |g| && g[n].Jump? && |bs| == Size(g[..n])
    ensures JumpInPlace(g, bs + JumpBytes(g, n, org, addr), n, org, addr)
  {
    hide Size, JumpBytes;
  }

  lemma JumpRecordBytes(g: seq<Rec>, n: nat, bs: seq<Byte>, org: int, addr: int -> int)
    requires n < |g| && SettledAt(g, n) && |bs| == Size(g[..n]) && g[n].Jump?
    ensures Link(bs, Code1(g, n), org, addr) == bs + JumpBytes(g, n, org, addr)
    ensures |bs| + |JumpBytes(g, n, org, addr)| == Size(g[..n+1])
  {
    hide Reach, Size, Disp, FarItems, FarBytes, Link;
    SizeStep(g, n);
    if g[n].far {
      LinkFar(bs, g[n].jt, g[n].want, org, addr);
    } else {
      var code := [ShortOp(g[n].jt), Disp(g, n) % 256];
      assert ShortItems(g[n].jt, Disp(g, n)) == Bytes(code);
      LinkBytes(bs, code, org, addr);
    }
    FarLength(g[n].jt, addr(g[n].want), org + Size(g[..n+1]));
  }

  lemma FarLength(jt: nat, target: int, next: int)
    ensures |FarBytes(jt, target, next)| == if jt < LAST_SHORT then 5 else 3
  {
  }

  // ----- running a jump

  /** The address of the next record, and of a label of the segment. */
  function At(g: seq<Rec>, i: nat, org: int): int
    requires i <= |g|
  {
    Wrap(org + Size(g[..i]))
  }

  /** Jumps the long form can express; LOOP and JCXZ are diagnosed when far, and
      LOOPNZ and LOOPZ are what `FarLoop` says. */
  predicate Expressible(r: Rec)
    requires r.Jump?
  {
    !r.far || r.jt < 16 || r.jt >= LAST_SHORT
  }

  lemma ShortRange(g: seq<Rec>, i: nat)
    requires i < |g| && g[i].Jump? && !g[i].far && SettledAt(g, i)
    ensures Pos(g, g[i].want) < |g| && -128 <= Disp(g, i) <= 127
  {
    var p := Pos(g, g[i].want);
    assert p != i;
    hide Pos, Size, Worst;
    SizeStep(g, i);
    if p < i {
      SizeBetween(g, p, i);
    } else {
      SizeBetween(g, i+1, p);
      SizeWithinWorst(g[i+1..p]);
      JumpThenRest(g, i, p);
    }
  }

  lemma SizeBetween(g: seq<Rec>, i: nat, j: nat)
    requires i <= j <= |g|
    ensures Size(g[i..j]) == Size(g[..j]) - Size(g[..i])
  {
    Split(g[..j], i);
    assert g[..j][..i] == g[..i] && g[..j][i..] == g[i..j];
  }

  lemma JumpThenRest(g: seq<Rec>, i: nat, p: nat)
    requires i < p <= |g| && g[i].Jump?
    ensures Worst(g[i..p]) == 5 + Worst(g[i+1..p])
  {
    SumConcat([g[i]], g[i+1..p]);
    assert [g[i]] + g[i+1..p] == g[i..p];
    assert [g[i]][..0] == [];
  }

  /** Behind a jump nothing is lost to the worst case: the jump is short exactly when
      the displacement it would have if it were is one a byte can hold. */
  lemma BackwardExact(g: seq<Rec>, i: nat)
    requires i < |g| && g[i].Jump? && g[i].jt <= LAST_SHORT && SettledAt(g, i)
    requires Pos(g, g[i].want) < i
    ensures !g[i].far <==> -128 <= Size(g[..Pos(g, g[i].want)]) - (Size(g[..i]) + 2) <= 127
  {
    hide Size, Worst;
    SizeBetween(g, Pos(g, g[i].want), i);
  }

  lemma LoadedJump(g: seq<Rec>, bs: seq<Byte>, i: nat, org: int, addr: int -> int, mem: int -> Byte)
    requires i < |g| && g[i].Jump? && JumpInPlace(g, bs, i, org, addr) && Loaded(mem, bs, org)
    ensures Loaded(mem, JumpBytes(g, i, org, addr), At(g, i, org))
  {
    var at, code := Size(g[..i]), JumpBytes(g, i, org, addr);
    forall k {:trigger code[k]} | 0 <= k < |code| ensures mem(Wrap(Wrap(org + at) + k)) == code[k] {
      assert bs[at..at+|code|][k] == bs[at+k];
      WrapSum(org + at, k);
      assert org + at + k == org + (at + k);
    }
  }

  /** What the linker gives a label: its segment offset past the module's base. */
  ghost predicate Resolves(addr: int -> int, locs: Table, base: int) {
    forall i {:trigger locs[i]} :: 0 <= i < |locs| ==> addr(locs[i].lab) == Wrap(base + locs[i].off)
  }

  lemma {:induction false} LocalsHas(g: seq<Rec>, p: nat, start: int)
    requires p < |g| && g[p].Local?
    ensures Entry(g[p].lab, Size(g[..p]) + start) in EmitLocals(g, start)
  {
    var k := |g|-1;
    if p < k {
      LocalsHas(g[..k], p, start);
      assert g[..k][..p] == g[..p];
    }
  }

  /** Where control must be after jump `i`. */
  function Goal(g: seq<Rec>, i: nat, m: Cpu, org: int, addr: int -> int): int
    requires i < |g| && g[i].Jump? && |m.cond| == 8
  {
    var p := Pos(g, g[i].want);
    if !Taken(g[i].jt, m) then At(g, i+1, org)
    else if p < |g| then At(g, p, org)
    else Wrap(addr(g[i].want))
  }

  lemma ShortArrives(g: seq<Rec>, i: nat, m: Cpu, org: int, addr: int -> int, mem: int -> Byte)
    requires i < |g| && g[i].Jump? && !g[i].far && SettledAt(g, i)
    requires m.Valid() && m.ip == At(g, i, org) && Loaded(mem, JumpBytes(g, i, org, addr), m.ip)
    ensures Exec(mem, m).ip == Goal(g, i, m, org, addr)
  {
    ShortRange(g, i);
    ShortJumps(mem, m, g[i].jt, Disp(g, i));
    SizeStep(g, i);
    WrapSum(org + Size(g[..i]), 2);
    WrapSum(org + Size(g[..i]), 2 + Disp(g, i));
  }

  lemma FarArrives(g: seq<Rec>, i: nat, m: Cpu, org: int, addr: int -> int, mem: int -> Byte)
    requires i < |g| && g[i].Jump? && g[i].far && Expressible(g[i])
    requires m.Valid() && m.ip == At(g, i, org) && Loaded(mem, JumpBytes(g, i, org, addr), m.ip)
    ensures Perform(mem, m, g[i]).ip ==
            if Taken(g[i].jt, m) then Wrap(addr(g[i].want)) else At(g, i+1, org)
  {
    hide Exec, FarBytes, Loaded, Wrap, Size;
    var jt, target, n := g[i].jt, addr(g[i].want), Size1(g[i]);
    SizeStep(g, i);
    WrapSum(org + Size(g[..i]), n);
    FarBytesWrap(jt, target, org + Size(g[..i]), n);
    if jt < LAST_SHORT {
      FarConditional(mem, m, g[i], target);
    } else {
      FarPlain(mem, m, g[i], target);
    }
  }

  lemma FarBytesWrap(jt: nat, target: int, at: int, n: int)
    ensures FarBytes(jt, target, at + n) == FarBytes(jt, target, Wrap(at) + n)
  {
    assert Wrap(target - (at + n)) == Wrap(target - (Wrap(at) + n)) by {
      var k := at / SPACE;
      assert at == Wrap(at) + k * SPACE;
    }
  }

  /** The whole chain, generator to running program: load what the linker makes
      of an assembled segment, and every jump takes control to the place in that
      very code where its label was put, or on to the next record. */
  lemma JumpArrives(g: seq<Rec>, stream: seq<Rec>, s: State, start: int, base: int, addr: int -> int,
                    mem: int -> Byte, m: Cpu, i: nat)
    requires Assembled(g, stream, s, start) && MarksFollowCode(g)
    requires Resolves(addr, s.locs, base)
    requires Loaded(mem, Link([], s.out, base + start, addr), base + start)
    requires i < |g| && g[i].Jump? && Expressible(g[i])
    requires m.Valid() && m.ip == At(g, i, base + start)
    ensures Perform(mem, m, g[i]).ip == Goal(g, i, m, base + start, addr)
  {
    hide Settled, MarksFollowCode, Link, Size, CodeOf, EmitLocals, Exec, Taken, JumpBytes;
    var org := base + start;
    SettledHere(g, i);
    LinkedImage(g, |g|, org, addr);
    var bs := Link([], s.out, org, addr);
    assert JumpInPlace(g, bs, i, org, addr);
    LoadedJump(g, bs, i, org, addr, mem);
    if !g[i].far {
      ShortArrives(g, i, m, org, addr, mem);
    } else {
      FarArrives(g, i, m, org, addr, mem);
      var p := Pos(g, g[i].want);
      if p < |g| {
        LabelAddress(g, p, start, base, addr);
      }
    }
  }

  lemma LabelAddress(g: seq<Rec>, p: nat, start: int, base: int, addr: int -> int)
    requires p < |g| && g[p].Local? && Resolves(addr, EmitLocals(g, start), base)
    ensures Wrap(addr(g[p].lab)) == At(g, p, base + start)
  {
    LocalsHas(g, p, start);
    var locs := EmitLocals(g, start);
    var k :| 0 <= k < |locs| && locs[k] == Entry(g[p].lab, Size(g[..p]) + start);
  }
}
